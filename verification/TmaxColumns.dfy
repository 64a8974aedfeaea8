/** Length-prefixed column values of the pushdown library, and sequences of
    them. */
module TmaxColumns {
  import opened Bytes
  import opened Permutations

  // -------------------------------------------------------------- one column

  /** The bytes that the length macros read. */
  predicate HasHeader(col: seq<Byte>) {
    |col| >= 1 && (col[0] > 250 ==> |col| >= 3)
  }

  /** `rpcol_get_size`: one byte up to 250, else two more bytes, high byte first. */
  function GetSize(col: seq<Byte>): nat
    requires HasHeader(col)
  {
    if col[0] <= 250 then col[0] as nat else 256 * col[1] as nat + col[2] as nat
  }

  /** `rpcol_get_len`: the size with its header. */
  function GetLen(col: seq<Byte>): nat
    requires HasHeader(col)
  {
    if col[0] <= 250 then col[0] as nat + 1 else 256 * col[1] as nat + col[2] as nat + 3
  }

  /** `rpcol_get_data`, whose limit is 252 and not 250. */
  function DataStart(col: seq<Byte>): nat
    requires HasHeader(col)
  {
    if col[0] <= 252 then 1 else 3
  }

  /** Some column starts here. */
  predicate ColumnHere(bytes: seq<Byte>) {
    HasHeader(bytes) && GetLen(bytes) <= |bytes|
  }

  function First(bytes: seq<Byte>): (col: seq<Byte>)
    requires ColumnHere(bytes)
  {
    bytes[..GetLen(bytes)]
  }

  /** The bytes that a comparison looks at. */
  function Data(bytes: seq<Byte>): (d: seq<Byte>)
    requires ColumnHere(bytes)
    ensures |d| == GetSize(bytes)
  {
    bytes[DataStart(bytes)..DataStart(bytes) + GetSize(bytes)]
  }

  /** The data end with the column exactly when the first byte is not 251 or 252. */
  lemma {:induction false} DataEndsColumnIff(col: seq<Byte>)
    requires HasHeader(col)
    ensures DataStart(col) + GetSize(col) == GetLen(col) <==> col[0] != 251 && col[0] != 252
  {
  }

  /** A complete column value. */
  predicate IsColumn(col: seq<Byte>) {
    HasHeader(col) && GetLen(col) == |col|
  }

  lemma {:induction false} FirstIsColumn(bytes: seq<Byte>)
    requires ColumnHere(bytes)
    ensures IsColumn(First(bytes))
    ensures Data(First(bytes)) == Data(bytes) && GetSize(First(bytes)) == GetSize(bytes)
  {
  }

  lemma {:induction false} ColumnThenRest(col: seq<Byte>, rest: seq<Byte>)
    requires IsColumn(col)
    ensures ColumnHere(col + rest) && GetLen(col + rest) == |col|
    ensures First(col + rest) == col && (col + rest)[|col|..] == rest
  {
  }

  const NULL_COLUMN: seq<Byte> := [0]

  lemma {:induction false} NullColumnIsColumn()
    ensures IsColumn(NULL_COLUMN) && GetSize(NULL_COLUMN) == 0
  {
  }

  /** The value a column value stands for, with one or three header bytes. */
  function MakeColumn(data: seq<Byte>): (col: seq<Byte>)
    requires |data| < 65536
  {
    if |data| <= 250 then [|data| as Byte] + data
    else [253, (|data| / 256) as Byte, (|data| % 256) as Byte] + data
  }

  lemma {:induction false} MakeColumnRoundTrip(data: seq<Byte>)
    requires |data| < 65536
    ensures IsColumn(MakeColumn(data)) && Data(MakeColumn(data)) == data
  {
    var n := |data|;
    assert n == 256 * (n / 256) + n % 256;
  }

  /** A long value of `n` bytes, its size in two bytes behind the first, high byte first. */
  lemma {:induction false} LongValue(first: Byte, data: seq<Byte>)
    requires first > 252 && |data| < 65536
    ensures var col := [first, (|data| / 256) as Byte, (|data| % 256) as Byte] + data;
      IsColumn(col) && Data(col) == data && GetSize(col) == |data|
  {
    var n := |data|;
    assert n == 256 * (n / 256) + n % 256;
  }

  // ----------------------------------------------------------- several columns

  /** What is left after `n` columns. */
  function Suffix(bytes: seq<Byte>, n: nat): seq<Byte> {
    if n == 0 then bytes
    else
      var s := Suffix(bytes, n - 1);
      if ColumnHere(s) then s[GetLen(s)..] else []
  }

  ghost predicate Parses(bytes: seq<Byte>, n: nat) {
    forall i :: 0 <= i < n ==> ColumnHere(Suffix(bytes, i))
  }

  /** The first `n` columns, found by their lengths. */
  ghost function ColumnsOf(bytes: seq<Byte>, n: nat): (cols: seq<seq<Byte>>)
    requires Parses(bytes, n)
    ensures |cols| == n
  {
    seq(n, i requires 0 <= i < n => First(Suffix(bytes, i)))
  }

  ghost predicate AllColumns(cols: seq<seq<Byte>>) {
    forall i :: 0 <= i < |cols| ==> IsColumn(cols[i])
  }

  lemma {:induction false} SuffixOfConcat(cols: seq<seq<Byte>>, rest: seq<Byte>, i: nat)
    requires AllColumns(cols) && i <= |cols|
    ensures Suffix(Flatten(cols) + rest, i) == Flatten(cols[i..]) + rest
  {
    if i == 0 {
      assert cols[0..] == cols;
    } else {
      SuffixOfConcat(cols, rest, i - 1);
      assert cols[i - 1..] == [cols[i - 1]] + cols[i..];
      FlattenAppend([cols[i - 1]], cols[i..]);
      assert Flatten([cols[i - 1]]) == cols[i - 1];
      assert Flatten(cols[i - 1..]) + rest == cols[i - 1] + (Flatten(cols[i..]) + rest);
      ColumnThenRest(cols[i - 1], Flatten(cols[i..]) + rest);
    }
  }

  lemma {:induction false} ColumnFound(cols: seq<seq<Byte>>, rest: seq<Byte>, i: nat)
    requires AllColumns(cols) && i < |cols|
    ensures ColumnHere(Suffix(Flatten(cols) + rest, i))
    ensures First(Suffix(Flatten(cols) + rest, i)) == cols[i]
  {
    SuffixOfConcat(cols, rest, i);
    assert cols[i..] == [cols[i]] + cols[i + 1..];
    FlattenAppend([cols[i]], cols[i + 1..]);
    assert Flatten([cols[i]]) == cols[i];
    assert Flatten(cols[i..]) + rest == cols[i] + (Flatten(cols[i + 1..]) + rest);
    ColumnThenRest(cols[i], Flatten(cols[i + 1..]) + rest);
  }

  /** Columns written one after the other are found again, and what follows
      them is untouched. */
  lemma {:induction false} ParseConcat(cols: seq<seq<Byte>>, rest: seq<Byte>)
    requires AllColumns(cols)
    ensures Parses(Flatten(cols) + rest, |cols|)
    ensures ColumnsOf(Flatten(cols) + rest, |cols|) == cols
    ensures Suffix(Flatten(cols) + rest, |cols|) == rest
  {
    var bytes := Flatten(cols) + rest;
    forall i | 0 <= i < |cols| ensures ColumnHere(Suffix(bytes, i)) && First(Suffix(bytes, i)) == cols[i] {
      ColumnFound(cols, rest, i);
    }
    SuffixOfConcat(cols, rest, |cols|);
    assert cols[|cols|..] == [];
  }

  lemma {:induction false} SuffixShrinks(bytes: seq<Byte>, n: nat)
    requires Parses(bytes, n)
    ensures |Suffix(bytes, n)| + n <= |bytes|
  {
    if n > 0 {
      SuffixShrinks(bytes, n - 1);
      assert ColumnHere(Suffix(bytes, n - 1));
    }
  }

  /** A stretch of bytes read as rows of `n` columns each. */
  ghost function ParseRows(bytes: seq<Byte>, n: nat): seq<seq<seq<Byte>>>
    requires n > 0
    decreases |bytes|
  {
    if !Parses(bytes, n) then []
    else
      SuffixShrinks(bytes, n);
      [ColumnsOf(bytes, n)] + ParseRows(Suffix(bytes, n), n)
  }

  function ConcatRows(rows: seq<seq<seq<Byte>>>): seq<Byte> {
    if rows == [] then [] else ConcatRows(rows[..|rows| - 1]) + Flatten(rows[|rows| - 1])
  }

  ghost predicate AllRows(rows: seq<seq<seq<Byte>>>, n: nat) {
    forall k :: 0 <= k < |rows| ==> |rows[k]| == n && AllColumns(rows[k])
  }

  lemma {:induction false} ConcatRowsFront(rows: seq<seq<seq<Byte>>>)
    requires rows != []
    ensures ConcatRows(rows) == Flatten(rows[0]) + ConcatRows(rows[1..])
  {
    var n := |rows| - 1;
    if n > 0 {
      ConcatRowsFront(rows[..n]);
      assert rows[..n][1..] == rows[1..][..n - 1];
      assert rows[1..][n - 1] == rows[n];
    }
  }

  lemma {:induction false} ParseRowsFront(row: seq<seq<Byte>>, rest: seq<Byte>, n: nat)
    requires n == |row| > 0 && AllColumns(row)
    ensures ParseRows(Flatten(row) + rest, n) == [row] + ParseRows(rest, n)
  {
    ParseConcat(row, rest);
  }

  lemma {:induction false} NothingToParse(n: nat)
    requires n > 0
    ensures ParseRows([], n) == []
  {
    assert Suffix([], 0) == [];
    assert !ColumnHere([]);
  }

  /** Rows written one after the other are read back, one by one. */
  lemma {:induction false} ParseRowsBack(rows: seq<seq<seq<Byte>>>, n: nat)
    requires n > 0 && AllRows(rows, n)
    ensures ParseRows(ConcatRows(rows), n) == rows
  {
    if rows == [] {
      NothingToParse(n);
    } else {
      ConcatRowsFront(rows);
      ParseRowsFront(rows[0], ConcatRows(rows[1..]), n);
      ParseRowsBack(rows[1..], n);
    }
  }
}
