/** The bytes of one row as a CSD returns them: where its columns start, and
    what the merging module reads there. */
module RowCodec {
  import opened Bytes
  import opened Ieee
  import opened Permutations
  import opened Tables

  /** The MySQL column types that the decoder has cases for. */
  datatype FieldType =
    | ByteField | Int16Field | Int32Field | Int64Field | TimestampField
    | Float32Field | DoubleField | DecimalField | DateField | TextField | VarTextField

  datatype Column = Column(ty: FieldType, length: nat)

  // ------------------------------------------------------------------ numbers

  /** Two's complement reading of `k` little-endian bytes. */
  function Signed(bytes: seq<Byte>): int {
    var n := Little(bytes);
    if 2 * n < Pow256(|bytes|) then n else n - Pow256(|bytes|)
  }

  function ToSigned(i: int, k: nat): (bytes: seq<Byte>)
    ensures |bytes| == k
  {
    ToLittle(if 0 <= i then i else if i + Pow256(k) >= 0 then i + Pow256(k) else 0, k)
  }

  predicate InWidth(i: int, k: nat) {
    0 <= 2 * i + Pow256(k) && 2 * i < Pow256(k)
  }

  lemma {:induction false} SignedRoundTrip(i: int, k: nat)
    requires InWidth(i, k)
    ensures Signed(ToSigned(i, k)) == i
  {
    LittleRoundTrip(if 0 <= i then i else i + Pow256(k), k);
  }

  function Reversed(bytes: seq<Byte>): (r: seq<Byte>)
    ensures |r| == |bytes| && forall i :: 0 <= i < |r| ==> r[i] == bytes[|bytes| - 1 - i]
  {
    if bytes == [] then [] else Reversed(bytes[1..]) + [bytes[0]]
  }

  // ----------------------------------------------------------------- decimals

  const SIGN: nat := 0x8000_0000_0000

  function Flip(b: Byte): Byte {
    255 - b
  }

  function FlipAll(bytes: seq<Byte>): (r: seq<Byte>)
    ensures |r| == |bytes| && forall i :: 0 <= i < |r| ==> r[i] == Flip(bytes[i])
  {
    seq(|bytes|, i requires 0 <= i < |bytes| => Flip(bytes[i]))
  }

  function SignBit(b: Byte): bool {
    b >= 128
  }

  function ToggleSign(b: Byte): Byte {
    if b >= 128 then b - 128 else b + 128
  }

  /** Fraction digits come in pairs, one, two or three bytes of them. */
  predicate FractionWidth(k: int) {
    1 <= k <= 3
  }

  function Units(k: nat): nat
    requires FractionWidth(k)
  {
    if k == 1 then 100 else if k == 2 then 10000 else 1000000
  }

  predicate DecimalSlot(bytes: seq<Byte>) {
    FractionWidth(|bytes| - 6)
  }

  /** The bytes after the sign has been undone: the first seven are flipped back,
      however many there are. */
  function Undone(bytes: seq<Byte>): (r: seq<Byte>)
    requires DecimalSlot(bytes)
    ensures |r| == |bytes|
  {
    var t := if SignBit(bytes[0]) then bytes else FlipAll(bytes[..7]) + bytes[7..];
    t[0 := ToggleSign(t[0])]
  }

  /** The fraction as the code reads it: a signed byte, a signed 16-bit number, or
      a 32-bit number whose last byte is zero, each with its lowest byte first. */
  function FractionRead(bytes: seq<Byte>): int
    requires FractionWidth(|bytes|)
  {
    if |bytes| == 3 then Little(bytes) else Signed(bytes)
  }

  /** The decimal that is read, in units of its last digit. */
  function DecimalUnits(bytes: seq<Byte>): int
    requires DecimalSlot(bytes)
  {
    var t := Undone(bytes);
    var v := Combined(Little(Reversed(t[..6])), |bytes| - 6, FractionRead(t[6..]));
    if SignBit(bytes[0]) then v else -v
  }

  /** An integer part and a fraction, in units of the last digit. */
  function Combined(n: nat, k: nat, f: int): int
    requires FractionWidth(k)
  {
    if k == 1 then n * 100 + f else if k == 2 then n * 10000 + f else n * 1000000 + f
  }

  lemma {:induction false} CombinedIff(m: nat, k: nat, f: int)
    requires FractionWidth(k)
    ensures Combined(m / Units(k), k, f) == m <==> f == m % Units(k)
  {
    if k == 1 {
      assert m == m / 100 * 100 + m % 100;
    } else if k == 2 {
      assert m == m / 10000 * 10000 + m % 10000;
    } else {
      assert m == m / 1000000 * 1000000 + m % 1000000;
    }
  }

  /** The number that so many units stand for. */
  function InUnits(units: int, k: nat): real
    requires FractionWidth(k)
  {
    if k == 1 then units as real * 0.01 else if k == 2 then units as real * 0.0001 else units as real * 0.000001
  }

  /** How the sending device writes decimals, which is not part of this repository:
      whether the fraction has its highest byte first, and whether a negative decimal
      is flipped in all bytes or in the first seven, which the decoder undoes. */
  datatype Sender = Sender(highestFirst: bool, flipsAll: bool)

  function FractionBytes(f: nat, k: nat, s: Sender): (bytes: seq<Byte>)
    ensures |bytes| == k
  {
    if s.highestFirst then Reversed(ToLittle(f, k)) else ToLittle(f, k)
  }

  /** Big-endian integer part with the sign bit set, then the fraction. */
  function PlainBytes(m: nat, k: nat, s: Sender): (bytes: seq<Byte>)
    requires FractionWidth(k)
    ensures |bytes| == 6 + k
  {
    Reversed(ToLittle(SIGN + m / Units(k), 6)) + FractionBytes(m % Units(k), k, s)
  }

  function Magnitude(units: int): nat {
    if units < 0 then -units else units
  }

  function Flipped(plain: seq<Byte>, s: Sender): (bytes: seq<Byte>)
    requires |plain| >= 7
    ensures |bytes| == |plain|
  {
    if s.flipsAll then FlipAll(plain) else FlipAll(plain[..7]) + plain[7..]
  }

  /** A decimal as it is sent. */
  function DecimalBytes(units: int, k: nat, s: Sender): (bytes: seq<Byte>)
    requires FractionWidth(k)
    ensures |bytes| == 6 + k
  {
    var plain := PlainBytes(Magnitude(units), k, s);
    if units < 0 then Flipped(plain, s) else plain
  }

  lemma {:induction false} TopByte(n: nat)
    requires SIGN <= n < 2 * SIGN
    ensures var t := Reversed(ToLittle(n, 6));
      SignBit(t[0]) && t[0 := ToggleSign(t[0])] == Reversed(ToLittle(n - SIGN, 6))
  {
    TopByteLittle(n);
    var a, b := ToLittle(n, 6), ToLittle(n - SIGN, 6);
    var t := Reversed(a);
    assert t[0] == a[5];
    forall i | 0 <= i < 6 ensures t[0 := ToggleSign(t[0])][i] == Reversed(b)[i] {
    }
  }

  lemma {:induction false} TopByteAt(n: nat, k: nat)
    requires k > 0 && Pow256(k) <= 2 * n < 2 * Pow256(k)
    ensures SignBit(ToLittle(n, k)[k - 1])
    ensures Pow256(k) % 2 == 0
    ensures ToLittle(n, k)[k - 1 := ToggleSign(ToLittle(n, k)[k - 1])] == ToLittle(n - Pow256(k) / 2, k)
  {
    if k == 1 {
      assert Pow256(1) == 256;
      assert ToLittle(n, 1) == [(n % 256) as Byte] && ToLittle(n - 128, 1) == [((n - 128) % 256) as Byte];
    } else {
      var h := Pow256(k - 1) / 2;
      TopByteAt(n / 256, k - 1);
      assert Pow256(k) / 2 == 256 * h;
      assert (n - 256 * h) / 256 == n / 256 - h && (n - 256 * h) % 256 == n % 256;
    }
  }

  lemma {:induction false} TopByteLittle(n: nat)
    requires SIGN <= n < 2 * SIGN
    ensures SignBit(ToLittle(n, 6)[5])
    ensures ToLittle(n, 6)[5 := ToggleSign(ToLittle(n, 6)[5])] == ToLittle(n - SIGN, 6)
  {
    assert Pow256(6) == 2 * SIGN;
    TopByteAt(n, 6);
  }

  lemma {:induction false} ReverseTwice(bytes: seq<Byte>)
    ensures Reversed(Reversed(bytes)) == bytes
  {
  }

  lemma {:induction false} PlainBytesSigned(m: nat, k: nat, s: Sender)
    requires FractionWidth(k) && m < Units(k) * SIGN
    ensures SignBit(PlainBytes(m, k, s)[0])
    ensures PlainBytes(m, k, s)[0 := ToggleSign(PlainBytes(m, k, s)[0])]
         == Reversed(ToLittle(m / Units(k), 6)) + FractionBytes(m % Units(k), k, s)
  {
    TopByte(SIGN + m / Units(k));
  }

  /** What is left of the fraction once the sign has been undone. */
  function FractionLeft(units: int, k: nat, s: Sender): (bytes: seq<Byte>)
    requires FractionWidth(k)
    ensures |bytes| == k
  {
    var fraction := FractionBytes(Magnitude(units) % Units(k), k, s);
    if units < 0 && s.flipsAll then [fraction[0]] + FlipAll(fraction[1..]) else fraction
  }

  /** Undoing the sign gives the integer part back, and of the fraction the first
      byte, or all of it if the other bytes were not flipped. */
  lemma {:induction false} FlippedUndone(plain: seq<Byte>, s: Sender)
    requires DecimalSlot(plain) && SignBit(plain[0])
    ensures !SignBit(Flipped(plain, s)[0])
    ensures Undone(Flipped(plain, s))
         == plain[0 := ToggleSign(plain[0])][..6] + [plain[6]] + if s.flipsAll then FlipAll(plain[7..]) else plain[7..]
  {
    var flipped := Flipped(plain, s);
    assert FlipAll(flipped[..7]) == plain[..7];
    assert flipped[7..] == if s.flipsAll then FlipAll(plain[7..]) else plain[7..];
  }

  lemma {:induction false} HeadAndTail(plain: seq<Byte>, b: Byte, head: seq<Byte>, fraction: seq<Byte>)
    requires |head| == 6 && fraction != [] && plain != [] && plain[0 := b] == head + fraction
    ensures |plain| >= 7 && plain[0 := b][..6] == head && plain[6] == fraction[0] && plain[7..] == fraction[1..]
  {
    var t := plain[0 := b];
    assert t[6] == plain[6];
    assert t[7..] == plain[7..];
    assert (head + fraction)[6..] == fraction;
  }

  /** The parts of a negative decimal, flipped and undone. */
  lemma {:induction false} NegativeUndone(plain: seq<Byte>, head: seq<Byte>, fraction: seq<Byte>, s: Sender)
    requires |head| == 6 && FractionWidth(|fraction|) && DecimalSlot(plain) && SignBit(plain[0])
    requires plain[0 := ToggleSign(plain[0])] == head + fraction
    ensures Undone(Flipped(plain, s))
         == head + ([fraction[0]] + if s.flipsAll then FlipAll(fraction[1..]) else fraction[1..])
  {
    FlippedUndone(plain, s);
    HeadAndTail(plain, ToggleSign(plain[0]), head, fraction);
    var tail := if s.flipsAll then FlipAll(fraction[1..]) else fraction[1..];
    assert head + [fraction[0]] + tail == head + ([fraction[0]] + tail);
  }

  lemma {:induction false} SignUndone(units: int, k: nat, s: Sender)
    requires FractionWidth(k) && Magnitude(units) < Units(k) * SIGN
    ensures Undone(DecimalBytes(units, k, s))
         == Reversed(ToLittle(Magnitude(units) / Units(k), 6)) + FractionLeft(units, k, s)
    ensures SignBit(DecimalBytes(units, k, s)[0]) <==> units >= 0
  {
    var m := Magnitude(units);
    var plain := PlainBytes(m, k, s);
    PlainBytesSigned(m, k, s);
    if units < 0 {
      var head, fraction := Reversed(ToLittle(m / Units(k), 6)), FractionBytes(m % Units(k), k, s);
      FlippedUndone(plain, s);
      NegativeUndone(plain, head, fraction, s);
      LeftIs(units, k, s, fraction);
    } else {
      assert Undone(plain) == plain[0 := ToggleSign(plain[0])];
    }
  }

  lemma {:induction false} LeftIs(units: int, k: nat, s: Sender, fraction: seq<Byte>)
    requires FractionWidth(k) && units < 0 && fraction == FractionBytes(Magnitude(units) % Units(k), k, s)
    ensures FractionLeft(units, k, s)
         == [fraction[0]] + if s.flipsAll then FlipAll(fraction[1..]) else fraction[1..]
  {
    assert fraction == [fraction[0]] + fraction[1..];
  }

  lemma {:induction false} LittleOf(a: Byte, b: Byte, c: Byte)
    ensures Little([a]) == a as nat
    ensures Little([a, b]) == a as nat + 256 * b as nat
    ensures Little([a, b, c]) == a as nat + 256 * b as nat + 65536 * c as nat
  {
    assert [a][1..] == [] && [a, b][1..] == [b] && [b][1..] == [];
    assert [a, b, c][1..] == [b, c] && [b, c][1..] == [c] && [c][1..] == [];
    assert Little([c]) == c as nat;
    assert Little([b, c]) == b as nat + 256 * c as nat;
  }

  lemma {:induction false} LowestFirst(f: nat)
    ensures f < 256 ==> ToLittle(f, 1) == [f as Byte]
    ensures f < 65536 ==> ToLittle(f, 2) == [(f % 256) as Byte, (f / 256) as Byte]
    ensures f < 16777216 ==> ToLittle(f, 3) == [(f % 256) as Byte, (f / 256 % 256) as Byte, (f / 65536) as Byte]
  {
    var g := f / 256;
    var h := g / 256;
    assert h == f / 65536;
    assert ToLittle(f, 1) == [(f % 256) as Byte];
    assert ToLittle(g, 1) == [(g % 256) as Byte];
    assert ToLittle(h, 1) == [(h % 256) as Byte];
    assert ToLittle(f, 2) == [(f % 256) as Byte, (g % 256) as Byte];
    assert ToLittle(g, 2) == [(g % 256) as Byte, (h % 256) as Byte];
    assert ToLittle(f, 3) == [(f % 256) as Byte, (g % 256) as Byte, (h % 256) as Byte];
  }

  /** The bytes of a fraction in the sender's order. */
  lemma {:induction false} FractionBytesOf(f: nat, s: Sender)
    ensures f < 256 ==> FractionBytes(f, 1, s) == [f as Byte]
    ensures f < 65536 ==>
      FractionBytes(f, 2, s)
      == if s.highestFirst then [(f / 256) as Byte, (f % 256) as Byte] else [(f % 256) as Byte, (f / 256) as Byte]
    ensures f < 16777216 ==>
      FractionBytes(f, 3, s)
      == if s.highestFirst then [(f / 65536) as Byte, (f / 256 % 256) as Byte, (f % 256) as Byte]
         else [(f % 256) as Byte, (f / 256 % 256) as Byte, (f / 65536) as Byte]
  {
    LowestFirst(f);
  }

  lemma {:induction false} SignedOf(a: Byte, b: Byte)
    ensures a < 128 ==> Signed([a]) == a as int
    ensures Signed([a, b]) == a as int + 256 * b as int - if b < 128 then 0 else 65536
  {
    LittleOf(a, b, 0);
    assert Pow256(1) == 256 && Pow256(2) == 65536;
  }

  lemma {:induction false} TwoReadIff(f: nat, s: Sender)
    requires f < 10000
    ensures FractionRead(FractionBytes(f, 2, s)) == f
       <==> !s.highestFirst || FractionBytes(f, 2, s)[0] == FractionBytes(f, 2, s)[1]
  {
    FractionBytesOf(f, s);
    SignedOf(FractionBytes(f, 2, s)[0], FractionBytes(f, 2, s)[1]);
    assert f == 256 * (f / 256) + f % 256;
  }

  lemma {:induction false} ThreeReadIff(f: nat, s: Sender)
    requires f < 1000000
    ensures FractionRead(FractionBytes(f, 3, s)) == f
       <==> !s.highestFirst || FractionBytes(f, 3, s)[0] == FractionBytes(f, 3, s)[2]
  {
    FractionBytesOf(f, s);
    ThreeBytes(f);
    var bytes := FractionBytes(f, 3, s);
    LittleOf(bytes[0], bytes[1], bytes[2]);
  }

  lemma {:induction false} ThreeBytes(f: nat)
    ensures f == 65536 * (f / 65536) + 256 * (f / 256 % 256) + f % 256
  {
    var g := f / 256;
    assert f == 256 * g + f % 256 && g == 256 * (g / 256) + g % 256;
    assert g / 256 == f / 65536;
  }

  /** Read lowest byte first, a fraction sent highest byte first is right exactly if
      its first and last byte are the same. */
  lemma {:induction false} FractionReadIff(f: nat, k: nat, s: Sender)
    requires FractionWidth(k) && f < Units(k)
    ensures FractionRead(FractionBytes(f, k, s)) == f
       <==> !s.highestFirst || FractionBytes(f, k, s)[0] == FractionBytes(f, k, s)[k - 1]
  {
    if k == 1 {
      FractionBytesOf(f, s);
      SignedOf(FractionBytes(f, 1, s)[0], 0);
    } else if k == 2 {
      TwoReadIff(f, s);
    } else {
      ThreeReadIff(f, s);
    }
  }

  lemma {:induction false} FlippedTwo(f: nat, s: Sender)
    requires f < 10000
    ensures FractionRead([FractionBytes(f, 2, s)[0]] + FlipAll(FractionBytes(f, 2, s)[1..])) != f
  {
    FractionBytesOf(f, s);
    var a, b := f / 256, f % 256;
    var bytes := FractionBytes(f, 2, s);
    assert [bytes[0]] + FlipAll(bytes[1..]) == [bytes[0], Flip(bytes[1])];
    SignedOf(bytes[0], Flip(bytes[1]));
    assert f == 256 * a + b && a < 40;
    if s.highestFirst {
      NeverSigned(a, b);
    } else {
      assert b + 256 * (255 - a) - 65536 != 256 * a + b;
    }
  }

  lemma {:induction false} NeverSigned(a: nat, b: nat)
    requires a < 40 && b < 256
    ensures a + 256 * (255 - b) - (if 255 - b < 128 then 0 else 65536) != 256 * a + b
  {
    var q := 256 - a - b;
    assert a + 256 * (255 - b) - (256 * a + b) == 255 * q - 2 * b;
    assert q == 1 || q == 2 || q <= 0 || q >= 3;
  }

  lemma {:induction false} FlippedRead(bytes: seq<Byte>)
    requires |bytes| == 3
    ensures FractionRead([bytes[0]] + FlipAll(bytes[1..]))
         == bytes[0] as int + 256 * (255 - bytes[1] as int) + 65536 * (255 - bytes[2] as int)
  {
    assert [bytes[0]] + FlipAll(bytes[1..]) == [bytes[0], Flip(bytes[1]), Flip(bytes[2])];
    LittleOf(bytes[0], Flip(bytes[1]), Flip(bytes[2]));
  }

  lemma {:induction false} FlippedThree(f: nat, s: Sender)
    requires f < 1000000
    ensures FractionRead([FractionBytes(f, 3, s)[0]] + FlipAll(FractionBytes(f, 3, s)[1..])) != f
  {
    FractionBytesOf(f, s);
    var a, b, c := f / 65536, f / 256 % 256, f % 256;
    FlippedRead(FractionBytes(f, 3, s));
    assert f == 65536 * a + 256 * b + c && a < 16;
    if s.highestFirst {
      NeverFlipped(a, b, c);
    } else {
      OddNeverEven(b, a);
    }
  }

  lemma {:induction false} OddNeverEven(b: nat, a: nat)
    ensures 256 * (255 - b) + 65536 * (255 - a) != 65536 * a + 256 * b
  {
    assert 256 * (255 - b) + 65536 * (255 - a) - (65536 * a + 256 * b) == 256 * (65535 - 2 * (b + 256 * a));
  }

  /** With all bytes but the first still flipped it is right only if there are no
      others. */
  lemma {:induction false} FlippedReadIff(f: nat, k: nat, s: Sender)
    requires FractionWidth(k) && f < Units(k)
    ensures FractionRead([FractionBytes(f, k, s)[0]] + FlipAll(FractionBytes(f, k, s)[1..])) == f <==> k == 1
  {
    if k == 1 {
      FractionBytesOf(f, s);
      var bytes := FractionBytes(f, 1, s);
      assert [bytes[0]] + FlipAll(bytes[1..]) == [bytes[0]];
      SignedOf(bytes[0], 0);
    } else if k == 2 {
      FlippedTwo(f, s);
    } else {
      FlippedThree(f, s);
    }
  }

  /** Seen modulo 512 the two sides never meet. */
  lemma {:induction false} NeverFlipped(a: nat, b: nat, c: nat)
    requires a < 16 && b < 256 && c < 256
    ensures a + 256 * (255 - b) + 65536 * (255 - c) != 65536 * a + 256 * b + c
  {
    var q, r := 32767 - 128 * a - b - 128 * c, a + 256 - c;
    assert a + 256 * (255 - b) + 65536 * (255 - c) - (65536 * a + 256 * b + c) == 512 * q + r;
    assert 0 < r < 512;
  }

  /** A decimal is read right exactly if it has two fraction digits, or no byte of its
      fraction is left flipped and the bytes are sent lowest first, or the first and
      the last of them are the same. */
  predicate FractionSurvives(units: int, k: nat, s: Sender)
    requires FractionWidth(k)
  {
    var fraction := FractionBytes(Magnitude(units) % Units(k), k, s);
    k == 1 || (!(units < 0 && s.flipsAll) && (!s.highestFirst || fraction[0] == fraction[k - 1]))
  }

  lemma {:induction false} FractionLeftIff(units: int, k: nat, s: Sender)
    requires FractionWidth(k)
    ensures FractionRead(FractionLeft(units, k, s)) == Magnitude(units) % Units(k) <==> FractionSurvives(units, k, s)
  {
    var f := Magnitude(units) % Units(k);
    if units < 0 && s.flipsAll {
      FlippedReadIff(f, k, s);
    } else {
      FractionReadIff(f, k, s);
    }
  }

  lemma {:induction false} IntegerPart(t: seq<Byte>, n: nat, rest: seq<Byte>)
    requires t == Reversed(ToLittle(n, 6)) + rest && n < SIGN
    ensures Little(Reversed(t[..6])) == n && t[6..] == rest
  {
    assert t[..6] == Reversed(ToLittle(n, 6));
    ReverseTwice(ToLittle(n, 6));
    assert Pow256(6) == 2 * SIGN;
    LittleRoundTrip(n, 6);
  }

  lemma {:induction false} UnitsOf(bytes: seq<Byte>, n: nat, left: seq<Byte>)
    requires DecimalSlot(bytes) && |left| == |bytes| - 6 && n < SIGN
    requires Undone(bytes) == Reversed(ToLittle(n, 6)) + left
    ensures var v := Combined(n, |left|, FractionRead(left));
      DecimalUnits(bytes) == if SignBit(bytes[0]) then v else -v
  {
    IntegerPart(Undone(bytes), n, left);
  }

  lemma {:induction false} DecimalUnitsAre(units: int, k: nat, s: Sender)
    requires FractionWidth(k) && Magnitude(units) < Units(k) * SIGN
    ensures var v := Combined(Magnitude(units) / Units(k), k, FractionRead(FractionLeft(units, k, s)));
      DecimalUnits(DecimalBytes(units, k, s)) == if units < 0 then -v else v
  {
    var m := Magnitude(units);
    SignUndone(units, k, s);
    BelowSign(m, k);
    UnitsOf(DecimalBytes(units, k, s), m / Units(k), FractionLeft(units, k, s));
  }

  lemma {:induction false} UnitsAgreeIff(d: int, units: int, k: nat, f: int, survives: bool)
    requires FractionWidth(k)
    requires var v := Combined(Magnitude(units) / Units(k), k, f); d == if units < 0 then -v else v
    requires f == Magnitude(units) % Units(k) <==> survives
    ensures d == units <==> survives
  {
    CombinedIff(Magnitude(units), k, f);
  }

  /** For every sender, the decimals that are recovered. */
  lemma {:induction false} DecimalRoundTripIff(units: int, k: nat, s: Sender)
    requires FractionWidth(k) && Magnitude(units) < Units(k) * SIGN
    ensures DecimalUnits(DecimalBytes(units, k, s)) == units <==> FractionSurvives(units, k, s)
  {
    DecimalUnitsAre(units, k, s);
    FractionLeftIff(units, k, s);
    UnitsAgreeIff(DecimalUnits(DecimalBytes(units, k, s)), units, k, FractionRead(FractionLeft(units, k, s)),
                  FractionSurvives(units, k, s));
  }

  /** All decimals of either sign are recovered from a sender that writes what the
      decoder reads: the fraction lowest byte first, negative ones flipped in seven
      bytes. */
  lemma {:induction false} DecimalRoundTrip(units: int, k: nat)
    requires FractionWidth(k) && Magnitude(units) < Units(k) * SIGN
    ensures DecimalUnits(DecimalBytes(units, k, Sender(false, false))) == units
  {
    DecimalRoundTripIff(units, k, Sender(false, false));
  }

  ghost predicate Fits(k: nat, s: Sender)
    requires FractionWidth(k)
  {
    forall units: int :: Magnitude(units) < Units(k) * SIGN ==> FractionSurvives(units, k, s)
  }

  /** A sender loses no decimal of `k` fraction bytes exactly if there is one such
      byte or it is that sender. */
  lemma {:induction false} SenderFitsIff(k: nat, s: Sender)
    requires FractionWidth(k)
    ensures Fits(k, s) <==> k == 1 || (!s.highestFirst && !s.flipsAll)
    ensures Fits(k, s) ==>
      forall units: int :: Magnitude(units) < Units(k) * SIGN ==> DecimalUnits(DecimalBytes(units, k, s)) == units
  {
    if k > 1 {
      FractionBytesOf(1, s);
      assert Magnitude(1) < Units(k) * SIGN && Magnitude(-1) < Units(k) * SIGN;
      assert s.highestFirst ==> !FractionSurvives(1, k, s);
      assert s.flipsAll ==> !FractionSurvives(-1, k, s);
    }
    forall units: int | Fits(k, s) && Magnitude(units) < Units(k) * SIGN
      ensures DecimalUnits(DecimalBytes(units, k, s)) == units
    {
      DecimalRoundTripIff(units, k, s);
    }
  }

  lemma {:induction false} BelowSign(m: nat, k: nat)
    requires FractionWidth(k) && m < Units(k) * SIGN
    ensures m / Units(k) < SIGN
  {
    if k == 1 {
      assert m / 100 < SIGN;
    } else if k == 2 {
      assert m / 10000 < SIGN;
    }
  }

  // ------------------------------------------------------------------- strings

  /** What `string(char*)` keeps: everything up to the first NUL. */
  function CString(bytes: seq<Byte>): string {
    if bytes == [] || bytes[0] == 0 then "" else [bytes[0] as int as char] + CString(bytes[1..])
  }

  /** Characters of one byte, none of them NUL. */
  predicate Plain(s: string) {
    forall k :: 0 <= k < |s| ==> 0 < s[k] as int < 256
  }

  function BytesOf(s: string): (bytes: seq<Byte>)
    requires Plain(s)
    ensures |bytes| == |s|
  {
    seq(|s|, k requires 0 <= k < |s| => s[k] as int as Byte)
  }

  function Zeros(n: nat): (bytes: seq<Byte>)
    ensures |bytes| == n
  {
    seq(n, k => 0)
  }

  lemma {:induction false} CStringRoundTrip(s: string, pad: nat)
    requires Plain(s)
    ensures CString(BytesOf(s) + Zeros(pad)) == s
  {
    var bytes := BytesOf(s) + Zeros(pad);
    if s == [] {
      assert bytes == Zeros(pad);
    } else {
      CStringRoundTrip(s[1..], pad);
      assert bytes[1..] == BytesOf(s[1..]) + Zeros(pad);
      assert s == [s[0]] + s[1..];
    }
  }

  // --------------------------------------------------------------------- slots

  function Width(c: Column): nat {
    match c.ty
    case ByteField => 1
    case Int16Field => 2
    case Int32Field => 4
    case Int64Field => 8
    case TimestampField => 4
    case Float32Field => 4
    case DoubleField => 8
    case DateField => 3
    case _ => c.length
  }

  predicate Slotted(ty: FieldType, slot: seq<Byte>) {
    match ty
    case ByteField => |slot| == 1
    case Int16Field => |slot| == 2
    case Int32Field => |slot| == 4
    case Int64Field => |slot| == 8
    case TimestampField => |slot| == 4
    case Float32Field => |slot| == 4 && Finite(Little(slot), SINGLE)
    case DoubleField => |slot| == 8 && Finite(Little(slot), DOUBLE)
    case DecimalField => DecimalSlot(slot)
    case DateField => |slot| == 3
    case TextField => true
    case VarTextField => |slot| >= 1
  }

  /** The value that `mergeResult` reads from the bytes of a column. The header
      of a variable string is taken to be one byte long below 258 bytes. */
  function DecodeSlot(ty: FieldType, slot: seq<Byte>): Value
    requires Slotted(ty, slot)
  {
    match ty
    case Float32Field => Float(IeeeValue(Little(slot), SINGLE))
    case DoubleField => Float(IeeeValue(Little(slot), DOUBLE))
    case DecimalField => Float(InUnits(DecimalUnits(slot), |slot| - 6))
    case DateField => Date(Little(slot))
    case TextField => Str(CString(slot))
    case VarTextField => Str(CString(if |slot| < 258 then slot[1..] else slot[2..]))
    case _ => Int(Signed(slot))
  }

  // ------------------------------------------------------------- bytes and values

  /** The highest byte of an integer carries its sign. */
  function HighByte(b: Byte): int {
    if b < 128 then b as int else b as int - 256
  }

  lemma {:induction false} LittleJoin(x: seq<Byte>, y: seq<Byte>)
    ensures Little(x + y) == Little(x) + Pow256(|x|) * Little(y)
  {
    if x == [] {
      assert x + y == y;
    } else {
      assert (x + y)[1..] == x[1..] + y;
      LittleJoin(x[1..], y);
      TimesMore(Pow256(|x| - 1), Little(y));
    }
  }

  lemma {:induction false} PowerJoin(m: nat, n: nat)
    ensures Pow256(m + n) == Pow256(m) * Pow256(n)
  {
    if m > 0 {
      PowerJoin(m - 1, n);
      TimesMore(Pow256(m - 1), Pow256(n));
    }
  }

  lemma {:induction false} TimesMore(p: nat, n: nat)
    ensures 256 * (p * n) == 256 * p * n
  {
  }

  lemma {:induction false} LittleBelow(x: seq<Byte>)
    ensures Little(x) < Pow256(|x|)
  {
    if x != [] {
      LittleBelow(x[1..]);
    }
  }

  lemma {:induction false} HighByteTells(low: nat, p: nat, b: nat)
    requires low < p && b < 256
    ensures 2 * (low + p * b) < p * 256 <==> b < 128
  {
    if b < 128 {
      assert p * b <= p * 127;
    } else {
      assert p * b >= p * 128;
    }
  }

  /** Integers have their lowest byte first, and the sign in the highest. */
  lemma {:induction false} SignedMeans(x: seq<Byte>, b: Byte)
    ensures Signed(x + [b]) == Little(x) + Pow256(|x|) * HighByte(b)
  {
    LittleJoin(x, [b]);
    LittleBelow(x);
    LittleOf(b, 0, 0);
    assert Pow256(1) == 256;
    HighByteTells(Little(x), Pow256(|x|), b as nat);
    Minus256(Pow256(|x|), b as int);
  }

  lemma {:induction false} Minus256(p: int, b: int)
    ensures p * (b - 256) == p * b - p * 256
  {
  }

  lemma {:induction false} IntegersMean(a: Byte, b: Byte, c: Byte, d: Byte)
    ensures DecodeSlot(ByteField, [a]) == Int(HighByte(a))
    ensures DecodeSlot(Int16Field, [a, b]) == Int(a as int + 0x100 * HighByte(b))
    ensures DecodeSlot(Int32Field, [a, b, c, d])
         == Int(a as int + 0x100 * b as int + 0x1_0000 * c as int + 0x100_0000 * HighByte(d))
    ensures DecodeSlot(TimestampField, [a, b, c, d]) == DecodeSlot(Int32Field, [a, b, c, d])
    ensures DecodeSlot(DateField, [a, b, c]) == Date(a as int + 0x100 * b as int + 0x1_0000 * c as int)
  {
    LittleOf(a, b, c);
    assert [] + [a] == [a] && [a] + [b] == [a, b] && [a, b, c] + [d] == [a, b, c, d];
    assert Pow256(1) == 256 && Pow256(2) == 0x1_0000 && Pow256(3) == 0x100_0000;
    SignedMeans([], a);
    SignedMeans([a], b);
    SignedMeans([a, b, c], d);
  }

  /** Three, three and one more byte, lowest first. */
  lemma {:induction false} SevenBytes(low: seq<Byte>, mid: seq<Byte>, g: Byte)
    requires |low| == 3 && |mid| == 3
    ensures Little(low + mid + [g])
         == Little(low) + 0x100_0000 * Little(mid) + 0x1_0000_0000_0000 * g as int
    ensures Pow256(7) == 0x100_0000_0000_0000
  {
    LittleJoin(low, mid);
    LittleJoin(low + mid, [g]);
    LittleOf(g, 0, 0);
    assert Pow256(3) == 0x100_0000;
    PowerJoin(3, 3);
    assert Pow256(7) == 256 * Pow256(6);
  }

  lemma {:induction false} LongIntegersMean(a: Byte, b: Byte, c: Byte, d: Byte, e: Byte, f: Byte, g: Byte, h: Byte)
    ensures DecodeSlot(Int64Field, [a, b, c, d, e, f, g, h])
         == Int(a as int + 0x100 * b as int + 0x1_0000 * c as int
                + 0x100_0000 * (d as int + 0x100 * e as int + 0x1_0000 * f as int)
                + 0x1_0000_0000_0000 * (g as int + 0x100 * HighByte(h)))
  {
    var x := [a, b, c] + [d, e, f] + [g];
    LittleOf(a, b, c);
    LittleOf(d, e, f);
    SevenBytes([a, b, c], [d, e, f], g);
    SignedMeans(x, h);
    assert x + [h] == [a, b, c, d, e, f, g, h];
  }

  /** The six bytes of an integer part, highest first, without the sign bit. */
  function WholePart(slot: seq<Byte>): (n: int)
    requires |slot| >= 6
  {
    0x100_0000 * (0x1_0000 * (slot[0] as int - 128) + 0x100 * slot[1] as int + slot[2] as int)
    + 0x1_0000 * slot[3] as int + 0x100 * slot[4] as int + slot[5] as int
  }

  lemma {:induction false} WholePartIs(head: seq<Byte>, top: Byte)
    requires |head| == 6 && head[0] >= 128 && top as int == head[0] as int - 128
    ensures Little(Reversed(head[0 := top])) == WholePart(head)
  {
    var r := Reversed(head[0 := top]);
    assert r == [head[5], head[4], head[3]] + [head[2], head[1], top];
    LittleJoin([head[5], head[4], head[3]], [head[2], head[1], top]);
    LittleOf(head[5], head[4], head[3]);
    LittleOf(head[2], head[1], top);
    assert Pow256(3) == 0x100_0000;
  }

  /** A decimal whose first bit is set: the integer part, and two, four or six digits
      behind the point, lowest byte first. */
  lemma {:induction false} DecimalsMean(slot: seq<Byte>)
    requires DecimalSlot(slot) && slot[0] >= 128
    ensures |slot| == 7 ==>
      DecodeSlot(DecimalField, slot) == Float(WholePart(slot) as real + HighByte(slot[6]) as real * 0.01)
    ensures |slot| == 8 ==>
      var f := slot[6] as int + 0x100 * HighByte(slot[7]);
      DecodeSlot(DecimalField, slot) == Float(WholePart(slot) as real + f as real * 0.0001)
    ensures |slot| == 9 ==>
      var f := slot[6] as int + 0x100 * slot[7] as int + 0x1_0000 * slot[8] as int;
      DecodeSlot(DecimalField, slot) == Float(WholePart(slot) as real + f as real * 0.000001)
  {
    var top := ToggleSign(slot[0]);
    var t := Undone(slot);
    assert t[..6] == slot[..6][0 := top] && t[6..] == slot[6..];
    WholePartIs(slot[..6], top);
    var f := FractionIs(slot[6..]);
    Parted(WholePart(slot), f);
  }

  lemma {:induction false} FractionIs(bytes: seq<Byte>) returns (f: int)
    requires FractionWidth(|bytes|)
    ensures f == FractionRead(bytes)
    ensures |bytes| == 1 ==> f == HighByte(bytes[0])
    ensures |bytes| == 2 ==> f == bytes[0] as int + 0x100 * HighByte(bytes[1])
    ensures |bytes| == 3 ==> f == bytes[0] as int + 0x100 * bytes[1] as int + 0x1_0000 * bytes[2] as int
  {
    f := FractionRead(bytes);
    if |bytes| == 1 {
      assert bytes == [] + [bytes[0]];
      SignedMeans([], bytes[0]);
    } else if |bytes| == 2 {
      assert bytes == [bytes[0]] + [bytes[1]];
      SignedMeans([bytes[0]], bytes[1]);
      LittleOf(bytes[0], 0, 0);
      assert Pow256(1) == 256;
    } else {
      assert bytes == [bytes[0], bytes[1], bytes[2]];
      LittleOf(bytes[0], bytes[1], bytes[2]);
    }
  }

  lemma {:induction false} Parted(n: nat, f: int)
    ensures InUnits(Combined(n, 1, f), 1) == n as real + f as real * 0.01
    ensures InUnits(Combined(n, 2, f), 2) == n as real + f as real * 0.0001
    ensures InUnits(Combined(n, 3, f), 3) == n as real + f as real * 0.000001
  {
  }

  /** A decimal whose first bit is not set is the negative of the one whose first seven
      bytes are the complements. */
  lemma {:induction false} NegativesMean(slot: seq<Byte>, other: seq<Byte>)
    requires DecimalSlot(slot) && slot[0] < 128 && |other| == |slot|
    requires forall k :: 0 <= k < |slot| ==> other[k] as int == if k < 7 then 255 - slot[k] as int else slot[k] as int
    ensures other[0] >= 128 && DecodeSlot(DecimalField, slot) == Float(-DecodeSlot(DecimalField, other).f)
  {
    assert FlipAll(slot[..7]) + slot[7..] == other;
    assert Undone(slot) == Undone(other);
  }

  /** Of a string the bytes up to the first NUL are kept. */
  lemma {:induction false} StringsMean(bytes: seq<Byte>, n: nat)
    requires n <= |bytes| && (n < |bytes| ==> bytes[n] == 0) && forall k :: 0 <= k < n ==> bytes[k] != 0
    ensures DecodeSlot(TextField, bytes) == Str(CString(bytes))
    ensures |CString(bytes)| == n && forall k :: 0 <= k < n ==> CString(bytes)[k] as int == bytes[k] as int
  {
    if n > 0 {
      assert n < |bytes| ==> bytes[1..][n - 1] == 0;
      StringsMean(bytes[1..], n - 1);
    }
  }

  /** In front of a variable string are one or two bytes that are not part of it. */
  lemma {:induction false} VariableStringsMean(header: seq<Byte>, bytes: seq<Byte>)
    requires |header| == if |header| + |bytes| < 258 then 1 else 2
    ensures DecodeSlot(VarTextField, header + bytes) == DecodeSlot(TextField, bytes)
  {
    assert (header + bytes)[|header|..] == bytes;
  }

  // -------------------------------------------------------------------- fields

  /** A field as the storage device holds it; a decimal in units of its last
      digit, a binary float by its parts. */
  datatype Field = Number(i: int) | Binary(parts: Parts) | Decimal(units: int) | Day(d: nat) | Text(s: string)

  function Meaning(c: Column, f: Field): Value
    requires Encodable(c, f)
  {
    match f
    case Number(i) => Int(i)
    case Binary(parts) => Float(PartsValue(parts, LayoutOf(c.ty)))
    case Decimal(units) => Float(InUnits(units, c.length - 6))
    case Day(d) => Date(d)
    case Text(s) => Str(s)
  }

  function LayoutOf(ty: FieldType): Layout {
    if ty.Float32Field? then SINGLE else DOUBLE
  }

  predicate Encodable(c: Column, f: Field) {
    match c.ty
    case Float32Field => f.Binary? && PartsOk(f.parts, SINGLE) && c.length == 4
    case DoubleField => f.Binary? && PartsOk(f.parts, DOUBLE) && c.length == 8
    case DecimalField =>
      f.Decimal? && FractionWidth(c.length - 6) && Magnitude(f.units) < Units(c.length - 6) * SIGN
    case DateField => f.Day? && f.d < Pow256(3) && c.length == 3
    case TextField => f.Text? && Plain(f.s) && |f.s| <= c.length
    case VarTextField => f.Text? && Plain(f.s) && |f.s| <= c.length < 65536
    case _ => f.Number? && InWidth(f.i, Width(c)) && c.length == Width(c)
  }

  /** One header byte for a declared length below 256, else two. */
  function Header(c: Column, n: nat): seq<Byte> {
    ToLittle(n, if c.length < 256 then 1 else 2)
  }

  function Encode(c: Column, f: Field, s: Sender): seq<Byte>
    requires Encodable(c, f)
  {
    match c.ty
    case Float32Field => ToLittle(Code(f.parts, SINGLE), 4)
    case DoubleField => ToLittle(Code(f.parts, DOUBLE), 8)
    case DecimalField => DecimalBytes(f.units, c.length - 6, s)
    case DateField => ToLittle(f.d, 3)
    case TextField => BytesOf(f.s) + Zeros(c.length - |f.s|)
    case VarTextField => Header(c, |f.s|) + BytesOf(f.s)
    case _ => ToSigned(f.i, Width(c))
  }

  /** The decoder mistakes the second header byte of a short string in a long
      column for its first character. */
  predicate ShortInLong(c: Column, f: Field) {
    c.ty.VarTextField? && c.length >= 256 && f.Text? && 0 < |f.s| < 256
  }

  /** The fields that are not read back. */
  predicate Lost(c: Column, f: Field, s: Sender)
    requires Encodable(c, f)
  {
    ShortInLong(c, f) || (c.ty.DecimalField? && !FractionSurvives(f.units, c.length - 6, s))
  }

  lemma {:induction false} TwoByteHeader(n: nat)
    requires n < 256
    ensures ToLittle(n, 2) == [n as Byte, 0]
  {
    assert ToLittle(n / 256, 1) == [0] + ToLittle(0, 0);
  }

  lemma {:induction false} VarTextSlot(c: Column, s: string)
    requires Plain(s) && |s| <= c.length < 65536
    ensures var slot := Header(c, |s|) + BytesOf(s);
      CString(if |slot| < 258 then slot[1..] else slot[2..]) == s <==> !(c.length >= 256 && 0 < |s| < 256)
  {
    var slot := Header(c, |s|) + BytesOf(s);
    CStringRoundTrip(s, 0);
    assert BytesOf(s) + Zeros(0) == BytesOf(s);
    if c.length < 256 {
      assert slot[1..] == BytesOf(s);
    } else if |s| < 256 {
      TwoByteHeader(|s|);
      assert slot[1..] == [0] + BytesOf(s);
      assert CString(slot[1..]) == "";
    } else {
      assert slot[2..] == BytesOf(s);
    }
  }

  /** The slot has the shape of its type and is decoded to its value. */
  predicate Recovered(c: Column, f: Field, s: Sender)
    requires Encodable(c, f)
  {
    Slotted(c.ty, Encode(c, f, s)) && DecodeSlot(c.ty, Encode(c, f, s)) == Meaning(c, f)
  }

  lemma {:induction false} BinarySlot(c: Column, f: Field, s: Sender)
    requires Encodable(c, f) && (c.ty.Float32Field? || c.ty.DoubleField?)
    ensures Recovered(c, f, s) && !Lost(c, f, s)
  {
    BinaryRoundTrip(f.parts, LayoutOf(c.ty), Width(c));
  }

  lemma {:induction false} DecimalReadsIff(units: int, k: nat, s: Sender)
    requires FractionWidth(k) && Magnitude(units) < Units(k) * SIGN
    ensures InUnits(DecimalUnits(DecimalBytes(units, k, s)), k) == InUnits(units, k) <==> FractionSurvives(units, k, s)
  {
    DecimalRoundTripIff(units, k, s);
    SameUnits(DecimalUnits(DecimalBytes(units, k, s)), units, k);
  }

  lemma {:induction false} SameUnits(a: int, b: int, k: nat)
    requires FractionWidth(k)
    ensures InUnits(a, k) == InUnits(b, k) <==> a == b
  {
  }

  /** What the decoder makes of a decimal slot that holds `units`. */
  lemma {:induction false} DecimalSlotReads(slot: seq<Byte>, units: int, k: nat)
    requires DecimalSlot(slot) && k == |slot| - 6 && units == DecimalUnits(slot)
    ensures Slotted(DecimalField, slot) && DecodeSlot(DecimalField, slot) == Float(InUnits(units, k))
  {
  }

  lemma {:induction false} LostDecimal(c: Column, f: Field, s: Sender, units: int, k: nat)
    requires Encodable(c, f) && c.ty.DecimalField? && f == Decimal(units) && c.length == k + 6
    ensures Lost(c, f, s) <==> !FractionSurvives(units, k, s)
  {
  }

  lemma {:induction false} EncodedDecimal(units: int, k: nat, s: Sender) returns (slot: seq<Byte>, read: int)
    requires FractionWidth(k) && Magnitude(units) < Units(k) * SIGN
    ensures slot == DecimalBytes(units, k, s) && DecimalSlot(slot) && |slot| == k + 6
    ensures DecodeSlot(DecimalField, slot) == Float(InUnits(read, k))
    ensures InUnits(read, k) == InUnits(units, k) <==> FractionSurvives(units, k, s)
  {
    slot := DecimalBytes(units, k, s);
    read := DecimalUnits(slot);
    DecimalSlotReads(slot, read, k);
    DecimalReadsIff(units, k, s);
  }

  lemma {:induction false} DecimalSlotTells(c: Column, f: Field, s: Sender, units: int, k: nat, slot: seq<Byte>,
                                            read: int)
    requires Encodable(c, f) && c.ty.DecimalField? && f == Decimal(units) && c.length == k + 6
    requires slot == DecimalBytes(units, k, s) && DecimalSlot(slot) && |slot| == k + 6
    requires DecodeSlot(DecimalField, slot) == Float(InUnits(read, k))
    ensures Recovered(c, f, s) <==> InUnits(read, k) == InUnits(units, k)
  {
    assert Encode(c, f, s) == slot;
    assert Meaning(c, f) == Float(InUnits(units, k));
  }

  lemma {:induction false} DecimalSlotIff(c: Column, f: Field, s: Sender, units: int, k: nat)
    requires Encodable(c, f) && c.ty.DecimalField? && f == Decimal(units) && c.length == k + 6
    ensures Recovered(c, f, s) <==> !Lost(c, f, s)
  {
    var slot, read := EncodedDecimal(units, k, s);
    DecimalSlotTells(c, f, s, units, k, slot, read);
    LostDecimal(c, f, s, units, k);
  }

  lemma {:induction false} TextSlotIff(c: Column, f: Field, s: Sender)
    requires Encodable(c, f) && (c.ty.TextField? || c.ty.VarTextField?)
    ensures Recovered(c, f, s) <==> !Lost(c, f, s)
  {
    if c.ty.TextField? {
      CStringRoundTrip(f.s, c.length - |f.s|);
    } else {
      VarTextSlot(c, f.s);
    }
  }

  lemma {:induction false} WholeSlot(c: Column, f: Field, s: Sender)
    requires Encodable(c, f) && (f.Number? || f.Day?)
    ensures Recovered(c, f, s) && !Lost(c, f, s)
  {
    if c.ty.DateField? {
      LittleRoundTrip(f.d, 3);
    } else {
      SignedRoundTrip(f.i, Width(c));
    }
  }

  /** A slot is decoded to its value exactly when it is not a short string in a
      long column and not a decimal whose fraction the sender writes otherwise. */
  lemma {:induction false} SlotRoundTripIff(c: Column, f: Field, s: Sender)
    requires Encodable(c, f)
    ensures Recovered(c, f, s) <==> !Lost(c, f, s)
  {
    if c.ty.Float32Field? || c.ty.DoubleField? {
      BinarySlot(c, f, s);
    } else if c.ty.DecimalField? {
      DecimalSlotIff(c, f, s, f.units, c.length - 6);
    } else if c.ty.TextField? || c.ty.VarTextField? {
      TextSlotIff(c, f, s);
    } else {
      WholeSlot(c, f, s);
    }
  }

  lemma {:induction false} EncodedFits(c: Column, f: Field, s: Sender)
    requires Encodable(c, f)
    ensures Slotted(c.ty, Encode(c, f, s))
  {
    if c.ty.Float32Field? || c.ty.DoubleField? {
      BinarySlot(c, f, s);
    }
  }

  // ---------------------------------------------------------------------- rows

  function Peek(row: seq<Byte>, i: int): nat {
    if 0 <= i < |row| then row[i] as nat else 0
  }

  /** How many bytes column `c` takes when it starts at `pos`. */
  function SlotLength(row: seq<Byte>, pos: nat, c: Column): nat {
    if !c.ty.VarTextField? then c.length
    else if c.length < 256 then Peek(row, pos) + 1
    else Peek(row, pos) + 256 * Peek(row, pos + 1) + 2
  }

  /** Where column `n` starts: after the slots of the columns before it. */
  function Start(row: seq<Byte>, cols: seq<Column>, n: nat): nat
    requires n <= |cols|
  {
    if n == 0 then 0 else Start(row, cols, n - 1) + SlotLength(row, Start(row, cols, n - 1), cols[n - 1])
  }

  lemma {:induction false} StartStep(row: seq<Byte>, cols: seq<Column>, i: nat)
    requires i < |cols|
    ensures Start(row, cols, i + 1) == Start(row, cols, i) + SlotLength(row, Start(row, cols, i), cols[i])
  {
  }

  /** The headers that have to be read lie inside the row. */
  ghost predicate HeadersInside(row: seq<Byte>, cols: seq<Column>) {
    forall i :: 0 <= i < |cols| && cols[i].ty.VarTextField? ==>
      Start(row, cols, i) + (if cols[i].length < 256 then 0 else 1) < |row|
  }

  /** The header is read: how much longer the slot is than declared. */
  method Surplus(row: seq<Byte>, pos: nat, c: Column) returns (d: int)
    requires c.ty.VarTextField? ==> pos + (if c.length < 256 then 0 else 1) < |row|
    ensures c.length + d == SlotLength(row, pos, c)
  {
    d := 0;
    if c.ty.VarTextField? {
      if c.length < 256 {
        d := row[pos] as int + 1 - c.length;
      } else {
        d := row[pos] as int + 256 * row[pos + 1] as int + 2 - c.length;
      }
    }
  }

  /** `getColOffset`: declared offsets in `colOffset`, the difference to the
      actual ones in `tune`. */
  method GetColOffset(row: seq<Byte>, offsets: array<int>, cols: seq<Column>)
    requires offsets.Length >= |cols| && HeadersInside(row, cols)
    modifies offsets
    ensures forall i {:trigger offsets[i]} :: 0 <= i < |cols| ==> offsets[i] == Start(row, cols, i)
    ensures forall i :: |cols| <= i < offsets.Length ==> offsets[i] == old(offsets[i])
  {
    var colOffset, tune := 0, 0;
    for i := 0 to |cols|
      invariant colOffset + tune == Start(row, cols, i)
      invariant forall k {:trigger offsets[k]} :: 0 <= k < i ==> offsets[k] == Start(row, cols, k)
      invariant forall k :: |cols| <= k < offsets.Length ==> offsets[k] == old(offsets[k])
    {
      var newColOffset := colOffset + tune;
      StartStep(row, cols, i);
      var surplus := Surplus(row, newColOffset, cols[i]);
      colOffset := colOffset + cols[i].length;
      tune := tune + surplus;
      offsets[i] := newColOffset;
    }
  }

  /** The bytes from one column start to the next; the last ends with the row. */
  function SlotEnd(row: seq<Byte>, cols: seq<Column>, i: nat): nat
    requires i < |cols|
  {
    if i + 1 < |cols| then Start(row, cols, i + 1) else |row|
  }

  /** Every slot lies inside the row and is as wide as its type needs. */
  ghost predicate Decodable(row: seq<Byte>, cols: seq<Column>) {
    && HeadersInside(row, cols)
    && forall i :: 0 <= i < |cols| ==>
         Start(row, cols, i) <= SlotEnd(row, cols, i) <= |row|
         && Slotted(cols[i].ty, row[Start(row, cols, i)..SlotEnd(row, cols, i)])
  }

  ghost function DecodeRow(row: seq<Byte>, cols: seq<Column>): (vs: seq<Value>)
    requires Decodable(row, cols)
    ensures |vs| == |cols|
  {
    seq(|cols|, i requires 0 <= i < |cols| =>
      DecodeSlot(cols[i].ty, row[Start(row, cols, i)..SlotEnd(row, cols, i)]))
  }

  ghost predicate AllEncodable(cols: seq<Column>, fs: seq<Field>) {
    |cols| == |fs| && forall i :: 0 <= i < |cols| ==> Encodable(cols[i], fs[i])
  }

  lemma {:induction false} ConcatSplit(slots: seq<seq<Byte>>, i: nat) returns (rest: seq<Byte>)
    requires i < |slots|
    ensures Flatten(slots) == Flatten(slots[..i]) + slots[i] + rest
    ensures i == |slots| - 1 ==> rest == []
  {
    var n := |slots| - 1;
    if i == n {
      rest := [];
    } else {
      rest := ConcatSplit(slots[..n], i);
      rest := rest + slots[n];
      assert slots[..n][..i] == slots[..i];
    }
  }

  ghost function Slots(cols: seq<Column>, fs: seq<Field>, s: Sender): (slots: seq<seq<Byte>>)
    requires AllEncodable(cols, fs)
    ensures |slots| == |cols|
  {
    seq(|cols|, i requires 0 <= i < |cols| => Encode(cols[i], fs[i], s))
  }

  /** The columns of a row, one after the other. */
  ghost function EncodeRow(cols: seq<Column>, fs: seq<Field>, s: Sender): seq<Byte>
    requires AllEncodable(cols, fs)
  {
    Flatten(Slots(cols, fs, s))
  }

  lemma {:induction false} HeaderTells(before: seq<Byte>, c: Column, f: Field, rest: seq<Byte>, s: Sender)
    requires Encodable(c, f)
    ensures SlotLength(before + Encode(c, f, s) + rest, |before|, c) == |Encode(c, f, s)|
  {
    var row, slot := before + Encode(c, f, s) + rest, Encode(c, f, s);
    if c.ty.VarTextField? {
      var n := |f.s|;
      assert slot == Header(c, n) + BytesOf(f.s);
      assert row[|before|] == slot[0] == (n % 256) as Byte;
      if c.length >= 256 {
        assert ToLittle(n, 2)[1] == (n / 256 % 256) as Byte;
        assert row[|before| + 1] == slot[1];
      }
    }
  }

  /** Offsets are the true column starts. */
  lemma {:induction false} StartsAreTrue(cols: seq<Column>, fs: seq<Field>, i: nat, s: Sender)
    requires AllEncodable(cols, fs) && i <= |cols|
    ensures Start(EncodeRow(cols, fs, s), cols, i) == |Flatten(Slots(cols, fs, s)[..i])|
  {
    if i > 0 {
      var j, slots := i - 1, Slots(cols, fs, s);
      StartsAreTrue(cols, fs, j, s);
      var rest := ConcatSplit(slots, j);
      HeaderTells(Flatten(slots[..j]), cols[j], fs[j], rest, s);
      assert slots[..i][..j] == slots[..j];
    }
  }

  lemma {:induction false} SlotIsEncoded(cols: seq<Column>, fs: seq<Field>, i: nat, s: Sender)
    requires AllEncodable(cols, fs) && i < |cols|
    ensures var row := EncodeRow(cols, fs, s);
      && Start(row, cols, i) + |Encode(cols[i], fs[i], s)| == SlotEnd(row, cols, i) <= |row|
      && row[Start(row, cols, i)..SlotEnd(row, cols, i)] == Encode(cols[i], fs[i], s)
  {
    var slots := Slots(cols, fs, s);
    var rest := ConcatSplit(slots, i);
    StartsAreTrue(cols, fs, i, s);
    StartsAreTrue(cols, fs, i + 1, s);
    assert slots[..i + 1][..i] == slots[..i];
  }

  lemma {:induction false} EncodedIsDecodable(cols: seq<Column>, fs: seq<Field>, s: Sender)
    requires AllEncodable(cols, fs)
    ensures Decodable(EncodeRow(cols, fs, s), cols)
  {
    var row := EncodeRow(cols, fs, s);
    forall i | 0 <= i < |cols|
      ensures Start(row, cols, i) <= SlotEnd(row, cols, i) <= |row|
      ensures Slotted(cols[i].ty, row[Start(row, cols, i)..SlotEnd(row, cols, i)])
      ensures cols[i].ty.VarTextField? ==> Start(row, cols, i) + (if cols[i].length < 256 then 0 else 1) < |row|
    {
      SlotIsEncoded(cols, fs, i, s);
      EncodedFits(cols[i], fs[i], s);
    }
  }

  function Meanings(cols: seq<Column>, fs: seq<Field>): (vs: seq<Value>)
    requires AllEncodable(cols, fs)
    ensures |vs| == |fs|
  {
    seq(|fs|, i requires 0 <= i < |fs| => Meaning(cols[i], fs[i]))
  }

  /** Decoding recovers the whole row exactly when none of its fields is lost. */
  lemma {:induction false} RowRoundTripIff(cols: seq<Column>, fs: seq<Field>, s: Sender)
    requires AllEncodable(cols, fs)
    ensures Decodable(EncodeRow(cols, fs, s), cols)
    ensures DecodeRow(EncodeRow(cols, fs, s), cols) == Meanings(cols, fs)
       <==> forall i :: 0 <= i < |cols| ==> !Lost(cols[i], fs[i], s)
  {
    EncodedIsDecodable(cols, fs, s);
    var vs := DecodeRow(EncodeRow(cols, fs, s), cols);
    forall i | 0 <= i < |cols| ensures vs[i] == Meanings(cols, fs)[i] <==> !Lost(cols[i], fs[i], s) {
      SlotIsEncoded(cols, fs, i, s);
      SlotRoundTripIff(cols[i], fs[i], s);
    }
    if forall i :: 0 <= i < |cols| ==> !Lost(cols[i], fs[i], s) {
      assert vs == Meanings(cols, fs);
    }
  }

  /** One short string in a column declared long enough is lost. */
  lemma {:induction false} ShortStringLost(s: Sender)
    ensures var c, f := Column(VarTextField, 300), Text("a");
      Encodable(c, f) && DecodeSlot(c.ty, Encode(c, f, s)) == Str("")
  {
    var c, f := Column(VarTextField, 300), Text("a");
    assert Encode(c, f, s) == [1, 0, 97];
    assert Encode(c, f, s)[1..] == [0, 97];
  }

  // ------------------------------------------------------------------ decoding

  /** From a sender that flips all bytes, no negative decimal with more than two
      fraction digits is read right. */
  lemma {:induction false} NegativeDecimalLost(c: Column, f: Field, s: Sender)
    requires Encodable(c, f) && c.ty.DecimalField? && c.length > 7 && f.units < 0 && s.flipsAll
    ensures DecodeSlot(c.ty, Encode(c, f, s)) != Meaning(c, f)
  {
    SlotRoundTripIff(c, f, s);
  }

  /** The sign, undone in place: seven bytes, however long the slot is. */
  method UndoSign(temp: array<Byte>) returns (negative: bool)
    requires DecimalSlot(temp[..])
    modifies temp
    ensures temp[..] == Undone(old(temp[..])) && negative == !SignBit(old(temp[0]))
  {
    ghost var slot := temp[..];
    negative := false;
    if !SignBit(temp[0]) {
      negative := true;
      for i := 0 to 7
        invariant forall k :: 0 <= k < i ==> temp[k] == Flip(slot[k])
        invariant forall k :: i <= k < temp.Length ==> temp[k] == slot[k]
      {
        temp[i] := Flip(temp[i]);
      }
      assert temp[..] == FlipAll(slot[..7]) + slot[7..];
    }
    temp[0] := ToggleSign(temp[0]);
  }

  /** The NEWDECIMAL branch: undo the sign in place, reverse the integer bytes. */
  method ReadDecimal(slot: seq<Byte>) returns (v: real)
    requires DecimalSlot(slot)
    ensures v == InUnits(DecimalUnits(slot), |slot| - 6)
  {
    var temp := new Byte[|slot|](i requires 0 <= i < |slot| => slot[i]);
    assert temp[..] == slot;
    var negative := UndoSign(temp);
    var integer: seq<Byte> := [];
    for k := 0 to 6
      invariant |integer| == k
      invariant forall j :: 0 <= j < k ==> integer[j] == temp[5 - j]
    {
      integer := integer + [temp[5 - k]];
    }
    assert integer == Reversed(temp[..][..6]);
    var fraction := ReadFraction(temp[6..]);
    v := Little(integer) as real + fraction;
    PartsAdd(Little(integer), FractionRead(temp[6..]), |slot| - 6);
    if negative {
      v := -v;
    }
  }

  lemma {:induction false} PartsAdd(n: nat, f: int, k: nat)
    requires FractionWidth(k)
    ensures n as real + InUnits(f, k) == InUnits(Combined(n, k, f), k)
    ensures -InUnits(Combined(n, k, f), k) == InUnits(-Combined(n, k, f), k)
  {
  }

  /** The `if` over the column length. */
  method ReadFraction(bytes: seq<Byte>) returns (v: real)
    requires FractionWidth(|bytes|)
    ensures v == InUnits(FractionRead(bytes), |bytes|)
  {
    if |bytes| == 1 {
      v := Signed(bytes) as real * 0.01;
    } else if |bytes| == 2 {
      v := Signed(bytes) as real * 0.0001;
    } else {
      v := Little(bytes) as real * 0.000001;
    }
  }

  /** The switch over the column type. */
  method ReadSlot(ty: FieldType, slot: seq<Byte>) returns (v: Value)
    requires Slotted(ty, slot)
    ensures v == DecodeSlot(ty, slot)
  {
    match ty
    case ByteField => v := Int(Signed(slot));
    case Int16Field => v := Int(Signed(slot));
    case Int32Field => v := Int(Signed(slot));
    case Int64Field => v := Int(Signed(slot));
    case TimestampField => v := Int(Signed(slot));
    case Float32Field => v := Float(IeeeValue(Little(slot), SINGLE));
    case DoubleField => v := Float(IeeeValue(Little(slot), DOUBLE));
    case DecimalField =>
      var f := ReadDecimal(slot);
      v := Float(f);
    case DateField => v := Date(Little(slot));
    case TextField => v := Str(CString(slot));
    case VarTextField =>
      if |slot| < 258 {
        v := Str(CString(slot[1..]));
      } else {
        v := Str(CString(slot[2..]));
      }
  }
}
