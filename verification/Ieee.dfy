/** Binary floats of IEEE 754 (section 3.4): what reinterpreting their bytes reads.
    Infinities and NaNs are no numbers. */
module Ieee {
  import opened Bytes

  /** `mantissa` and `exponents` are the numbers of mantissas and of exponents. */
  datatype Layout = Layout(mantissas: nat, exponents: nat, bias: nat, digits: nat)

  const SINGLE := Layout(0x80_0000, 0x100, 127, 23)
  const DOUBLE := Layout(0x10_0000_0000_0000, 0x800, 1023, 52)

  predicate Known(l: Layout) {
    l == SINGLE || l == DOUBLE
  }

  datatype Parts = Parts(negative: bool, exponent: nat, mantissa: nat)

  /** The largest exponent is that of infinities and NaNs. */
  predicate PartsOk(p: Parts, l: Layout) {
    p.exponent < l.exponents - 1 && p.mantissa < l.mantissas
  }

  function TwoTo(n: nat): nat {
    if n == 0 then 1 else 2 * TwoTo(n - 1)
  }

  lemma {:induction false} TwoToIsPositive(n: nat)
    ensures TwoTo(n) > 0
  {
    if n > 0 {
      TwoToIsPositive(n - 1);
    }
  }

  /** `m` times a power of two. */
  function Scaled(m: nat, power: int): real {
    if power >= 0 then (m * TwoTo(power)) as real
    else
      TwoToIsPositive(-power);
      m as real / TwoTo(-power) as real
  }

  /** Numbers with the smallest exponent have no leading 1. */
  function PartsValue(p: Parts, l: Layout): real {
    var magnitude :=
      if p.exponent == 0 then Scaled(p.mantissa, 1 - l.bias - l.digits)
      else Scaled(l.mantissas + p.mantissa, p.exponent - l.bias - l.digits);
    if p.negative then -magnitude else magnitude
  }

  /** Sign, exponent, mantissa, from the highest bit down. */
  function Code(p: Parts, l: Layout): nat {
    ((if p.negative then l.exponents else 0) + p.exponent) * l.mantissas + p.mantissa
  }

  function Decoded(n: nat, l: Layout): Parts
    requires Known(l)
  {
    var high := n / l.mantissas;
    Parts(high >= l.exponents, high % l.exponents, n % l.mantissas)
  }

  predicate Finite(n: nat, l: Layout)
    requires Known(l)
  {
    PartsOk(Decoded(n, l), l)
  }

  function IeeeValue(n: nat, l: Layout): real
    requires Known(l)
  {
    PartsValue(Decoded(n, l), l)
  }

  lemma {:induction false} DecodedCode(p: Parts, l: Layout)
    requires Known(l) && PartsOk(p, l)
    ensures Decoded(Code(p, l), l) == p
    ensures Code(p, l) < 2 * l.exponents * l.mantissas
  {
    var high := (if p.negative then l.exponents else 0) + p.exponent;
    if l == SINGLE {
      assert Code(p, l) == high * 0x80_0000 + p.mantissa;
    } else {
      assert Code(p, l) == high * 0x10_0000_0000_0000 + p.mantissa;
    }
    assert high / l.exponents == (if p.negative then 1 else 0) && high % l.exponents == p.exponent;
  }

  /** Where the bits are: the codes of 1 and of -1.5 in both widths. */
  lemma {:induction false} CodesAre()
    ensures IeeeValue(0x3F80_0000, SINGLE) == 1.0 && IeeeValue(0xBFC0_0000, SINGLE) == -1.5
    ensures IeeeValue(0x3FF0_0000_0000_0000, DOUBLE) == 1.0 && IeeeValue(0xBFF8_0000_0000_0000, DOUBLE) == -1.5
  {
    PowersAre(0);
    assert Decoded(0x3F80_0000, SINGLE) == Parts(false, 127, 0);
    assert Decoded(0xBFC0_0000, SINGLE) == Parts(true, 127, 0x40_0000);
    assert Decoded(0x3FF0_0000_0000_0000, DOUBLE) == Parts(false, 1023, 0);
    assert Decoded(0xBFF8_0000_0000_0000, DOUBLE) == Parts(true, 1023, 0x8_0000_0000_0000);
  }

  lemma {:induction false} TenMore(n: nat)
    ensures TwoTo(n + 10) == 1024 * TwoTo(n)
  {
    assert TwoTo(n + 2) == 2 * TwoTo(n + 1) && TwoTo(n + 4) == 2 * TwoTo(n + 3);
    assert TwoTo(n + 6) == 2 * TwoTo(n + 5) && TwoTo(n + 8) == 2 * TwoTo(n + 7);
    assert TwoTo(n + 10) == 2 * TwoTo(n + 9);
  }

  lemma {:induction false} PowersAre(n: nat)
    requires n == 0
    ensures TwoTo(n + 23) == 0x80_0000 && TwoTo(n + 52) == 0x10_0000_0000_0000
  {
    TenMore(n + 3);
    TenMore(n + 13);
    TenMore(n + 2);
    TenMore(n + 12);
    TenMore(n + 22);
    TenMore(n + 32);
    TenMore(n + 42);
    assert TwoTo(n + 1) == 2 && TwoTo(n + 3) == 2 * TwoTo(n + 2);
  }

  lemma {:induction false} Widths()
    ensures Pow256(4) == 2 * 0x100 * 0x80_0000
    ensures Pow256(8) == 2 * 0x800 * 0x10_0000_0000_0000
  {
    assert Pow256(2) == 65536;
    assert Pow256(4) == 256 * (256 * Pow256(2));
    assert Pow256(6) == 256 * (256 * Pow256(4));
    assert Pow256(8) == 256 * (256 * Pow256(6));
  }

  /** Every finite float of either width is recovered from its bytes. */
  lemma {:induction false} BinaryRoundTrip(p: Parts, l: Layout, k: nat)
    requires PartsOk(p, l) && ((l == SINGLE && k == 4) || (l == DOUBLE && k == 8))
    ensures Decoded(Little(ToLittle(Code(p, l), k)), l) == p
    ensures Finite(Little(ToLittle(Code(p, l), k)), l)
    ensures IeeeValue(Little(ToLittle(Code(p, l), k)), l) == PartsValue(p, l)
  {
    DecodedCode(p, l);
    Widths();
    LittleRoundTrip(Code(p, l), k);
  }
}
