/** The pushdown library on a block: find the columns of each live row, test the
    filter, and write the surviving rows into bounded chunks. */
module TmaxPushdown {
  import opened Bytes
  import opened TmaxColumns
  import opened TmaxCompare
  import opened Permutations

  const RES_CHUNK_SIZE: nat := 65536 - 3

  /** A condition; operand -1 stands for the next constant. */
  datatype Exp = Exp(op: Op, isChar: bool, left: int, right: int)

  /** `use_cols`: the null pointer, or one flag per column. */
  datatype UseCols = NoList | List(flags: seq<bool>)

  datatype Filter = Filter(exps: seq<Exp>, colCnt: nat, useCols: UseCols, useColCnt: int, consts: seq<seq<Byte>>,
                           allMaxColno: int)

  // ---------------------------------------------------------------- live rows

  const HEAD_ROW_PIECE := 0x20
  const DELETED_ROW_PIECE := 0x10
  const FIRSTPIECE_ROW_PIECE := 0x08
  const LASTPIECE_ROW_PIECE := 0x04
  const LASTCOL_CONT_ROW_PIECE := 0x01

  datatype RowPiece = RowPiece(flags: nat, colcnt: nat, data: seq<Byte>)

  /** An entry of the row directory: offset 0, or a row piece. */
  datatype Slot = Unused | Used(piece: RowPiece)

  predicate Has(flags: nat, mask: nat)
    requires mask > 0
  {
    flags / mask % 2 == 1
  }

  /** `table_block_get_row_piece` returns a row. */
  predicate Live(s: Slot) {
    s.Used? && Has(s.piece.flags, HEAD_ROW_PIECE) && !Has(s.piece.flags, DELETED_ROW_PIECE)
  }

  predicate Unchained(p: RowPiece) {
    Has(p.flags, FIRSTPIECE_ROW_PIECE) && Has(p.flags, LASTPIECE_ROW_PIECE)
  }

  /** The columns that end in this piece. */
  function NormalColCnt(p: RowPiece): int {
    if Has(p.flags, LASTCOL_CONT_ROW_PIECE) then p.colcnt - 1 else p.colcnt
  }

  /** The row is in one piece, or this piece of a chained row has all columns that
      are used. */
  predicate Here(f: Filter, p: RowPiece) {
    Unchained(p) || f.allMaxColno < NormalColCnt(p)
  }

  /** That is, by the bits of its flags. */
  lemma {:induction false} HereMeans(f: Filter, p: RowPiece)
    ensures Here(f, p) <==> (p.flags / 0x08 % 2 == 1 && p.flags / 0x04 % 2 == 1)
                            || f.allMaxColno < p.colcnt - p.flags % 2
  {
    assert p.flags / 1 == p.flags;
  }

  // ------------------------------------------------------------ specification

  /** Whether a column is sent back. */
  predicate Wanted(f: Filter, i: nat) {
    match f.useCols
    case NoList => f.useColCnt != 0
    case List(flags) => i < |flags| && flags[i]
  }

  function CountTrue(flags: seq<bool>): nat {
    if flags == [] then 0 else CountTrue(flags[..|flags| - 1]) + if flags[|flags| - 1] then 1 else 0
  }

  /** How many operands before condition `i` are constants. */
  function ConstsBefore(exps: seq<Exp>, i: nat): nat
    requires i <= |exps|
  {
    if i == 0 then 0
    else
      var left, right := if exps[i - 1].left == -1 then 1 else 0, if exps[i - 1].right == -1 then 1 else 0;
      ConstsBefore(exps, i - 1) + left + right
  }

  predicate OperandOk(f: Filter, no: int) {
    no == -1 || (0 <= no < f.colCnt && (f.useCols.List? ==> Wanted(f, no)))
  }

  /** What the sender of a filter guarantees. */
  ghost predicate FilterOk(f: Filter) {
    && (f.useCols.List? ==> |f.useCols.flags| == f.colCnt && f.useColCnt == CountTrue(f.useCols.flags))
    && (forall i :: 0 <= i < |f.exps| ==> OperandOk(f, f.exps[i].left) && OperandOk(f, f.exps[i].right))
    && |f.consts| >= ConstsBefore(f.exps, |f.exps|)
    && AllColumns(f.consts)
  }

  lemma {:induction false} ConstsGrow(exps: seq<Exp>, i: nat, n: nat)
    requires i < n <= |exps|
    ensures ConstsBefore(exps, i + 1) <= ConstsBefore(exps, n)
  {
    if i + 1 < n {
      ConstsGrow(exps, i, n - 1);
    }
  }

  /** The operands of condition `i`: a column of the row, or the constant at the
      number of constant operands before it. */
  function LeftOf(f: Filter, row: seq<seq<Byte>>, i: nat): seq<Byte>
    requires i < |f.exps|
  {
    if f.exps[i].left == -1 then Entry(f.consts, ConstsBefore(f.exps, i)) else Entry(row, f.exps[i].left)
  }

  function RightOf(f: Filter, row: seq<seq<Byte>>, i: nat): seq<Byte>
    requires i < |f.exps|
  {
    if f.exps[i].right == -1 then Entry(f.consts, ConstsBefore(f.exps, i) + if f.exps[i].left == -1 then 1 else 0)
    else Entry(row, f.exps[i].right)
  }

  /** The operands of the conditions, left and right in turn; -1 is a constant. */
  function Operands(exps: seq<Exp>): seq<int> {
    if exps == [] then []
    else Operands(exps[..|exps| - 1]) + [exps[|exps| - 1].left] + [exps[|exps| - 1].right]
  }

  lemma {:induction false} OneMoreOperand(operands: seq<int>, x: int)
    ensures multiset(operands + [x])[-1] == multiset(operands)[-1] + if x == -1 then 1 else 0
  {
  }

  lemma {:induction false} ConstsCounted(exps: seq<Exp>, i: nat)
    requires i <= |exps|
    ensures ConstsBefore(exps, i) == multiset(Operands(exps[..i]))[-1]
  {
    if i > 0 {
      ConstsCounted(exps, i - 1);
      var before, l, r := Operands(exps[..i - 1]), exps[i - 1].left, exps[i - 1].right;
      assert exps[..i][..i - 1] == exps[..i - 1];
      OneMoreOperand(before, l);
      OneMoreOperand(before + [l], r);
    }
  }

  /** Constants are used up in the order of the operands, one for each -1. */
  lemma {:induction false} ConstantsInOrder(f: Filter, row: seq<seq<Byte>>, i: nat)
    requires i < |f.exps|
    ensures var before, l, r := Operands(f.exps[..i]), f.exps[i].left, f.exps[i].right;
      && LeftOf(f, row, i) == (if l == -1 then Entry(f.consts, multiset(before)[-1]) else Entry(row, l))
      && RightOf(f, row, i) == (if r == -1 then Entry(f.consts, multiset(before + [l])[-1]) else Entry(row, r))
  {
    ConstsCounted(f.exps, i);
    OneMoreOperand(Operands(f.exps[..i]), f.exps[i].left);
  }

  function Entry(cols: seq<seq<Byte>>, k: int): seq<Byte> {
    if 0 <= k < |cols| then cols[k] else NULL_COLUMN
  }

  predicate ExpHolds(f: Filter, row: seq<seq<Byte>>, i: nat)
    requires i < |f.exps|
  {
    var l, r := LeftOf(f, row, i), RightOf(f, row, i);
    ColumnHere(l) && ColumnHere(r) && Condition(l, r, f.exps[i].op, f.exps[i].isChar)
  }

  /** All conditions hold. */
  predicate Holds(f: Filter, row: seq<seq<Byte>>) {
    forall i :: 0 <= i < |f.exps| ==> ExpHolds(f, row, i)
  }

  /** A filter of binary conditions holds exactly if, of each condition, both operands
      have bytes and these are in the order that the operator asks for. */
  lemma {:induction false} BinaryFilter(f: Filter, row: seq<seq<Byte>>)
    requires forall i :: 0 <= i < |f.exps| ==>
      !f.exps[i].isChar && ColumnHere(LeftOf(f, row, i)) && ColumnHere(RightOf(f, row, i))
    ensures Holds(f, row) <==> forall i :: 0 <= i < |f.exps| ==>
      var l, r := Data(LeftOf(f, row, i)), Data(RightOf(f, row, i));
      l != [] && r != [] && Asked(f.exps[i].op, LexLess(l, r), LexLess(r, l))
  {
    forall i | 0 <= i < |f.exps|
      ensures ExpHolds(f, row, i) <==>
        var l, r := Data(LeftOf(f, row, i)), Data(RightOf(f, row, i));
        l != [] && r != [] && Asked(f.exps[i].op, LexLess(l, r), LexLess(r, l))
    {
      BinaryCondition(LeftOf(f, row, i), RightOf(f, row, i), f.exps[i].op);
    }
  }

  /** A column that is to be above the first constant and not above the second. */
  predicate RangeFilter(f: Filter, c: nat) {
    && f.exps == [Exp(OpGt, false, c, -1), Exp(OpLe, false, c, -1)]
    && |f.consts| >= 2 && ColumnHere(f.consts[0]) && ColumnHere(f.consts[1])
    && Data(f.consts[0]) != [] && Data(f.consts[1]) != []
  }

  /** The values that it lets through. */
  lemma {:induction false} RangeHolds(f: Filter, c: nat, row: seq<seq<Byte>>)
    requires RangeFilter(f, c) && c < |row| && ColumnHere(row[c]) && Data(row[c]) != []
    ensures Holds(f, row)
       <==> LexLess(Data(f.consts[0]), Data(row[c])) && !LexLess(Data(f.consts[1]), Data(row[c]))
  {
    assert ConstsBefore(f.exps, 0) == 0 && ConstsBefore(f.exps, 1) == 1;
    assert LeftOf(f, row, 0) == row[c] && RightOf(f, row, 0) == f.consts[0];
    assert LeftOf(f, row, 1) == row[c] && RightOf(f, row, 1) == f.consts[1];
    BinaryFilter(f, row);
    LexOneWay(Data(row[c]), Data(f.consts[1]));
  }

  lemma {:induction false} LexOneWay(a: seq<Byte>, b: seq<Byte>)
    ensures !(LexLess(a, b) && LexLess(b, a))
  {
    if a != [] && b != [] && a[0] == b[0] {
      LexOneWay(a[1..], b[1..]);
    }
  }

  ghost predicate HasColumns(p: RowPiece) {
    p.colcnt > 0 && Parses(p.data, p.colcnt)
  }

  ghost function LastColumn(p: RowPiece): seq<Byte>
    requires HasColumns(p)
  {
    First(Suffix(p.data, p.colcnt - 1))
  }

  /** The columns of a row piece, filled up with NULL. */
  ghost function RowOf(f: Filter, p: RowPiece): (row: seq<seq<Byte>>)
    requires HasColumns(p)
    ensures |row| == f.colCnt
  {
    seq(f.colCnt, i requires 0 <= i < f.colCnt => if i < p.colcnt then First(Suffix(p.data, i)) else NULL_COLUMN)
  }

  /** The columns whose pointers are set to a start. */
  predicate Pointed(f: Filter, p: RowPiece, i: nat) {
    if f.useCols.List? then Wanted(f, i) else i < p.colcnt
  }

  /** Behind the last column the pointer stays at it. */
  ghost function SeenColumn(p: RowPiece, i: nat): seq<Byte>
    requires HasColumns(p)
  {
    First(Suffix(p.data, Min(i, p.colcnt - 1)))
  }

  /** The columns as the code sees them: with a column list, the wanted ones are
      filled up with the last one. */
  ghost function SeenRow(f: Filter, p: RowPiece): (row: seq<seq<Byte>>)
    requires HasColumns(p)
    ensures |row| == f.colCnt
  {
    seq(f.colCnt, i requires 0 <= i < f.colCnt => if Pointed(f, p, i) then SeenColumn(p, i) else NULL_COLUMN)
  }

  /** What is sent back: the wanted columns, NULL in place of the others. */
  function OutRow(f: Filter, row: seq<seq<Byte>>): (out: seq<seq<Byte>>)
    requires |row| == f.colCnt
    ensures |out| == f.colCnt
  {
    seq(f.colCnt, i requires 0 <= i < f.colCnt => if Wanted(f, i) then row[i] else NULL_COLUMN)
  }

  /** With a list the columns that it marks, without one all, or none if their number
      is 0; a column that is not sent has no bytes. */
  lemma {:induction false} SentColumns(f: Filter, row: seq<seq<Byte>>, i: nat)
    requires |row| == f.colCnt && i < f.colCnt
    ensures f.useCols.NoList? && f.useColCnt == 0 ==> OutRow(f, row)[i] == [0]
    ensures f.useCols.NoList? && f.useColCnt != 0 ==> OutRow(f, row)[i] == row[i]
    ensures f.useCols.List? && i < |f.useCols.flags| ==>
      OutRow(f, row)[i] == if f.useCols.flags[i] then row[i] else [0]
  {
  }

  /** Every column that is sent back is in the row piece. */
  predicate Complete(f: Filter, p: RowPiece) {
    forall i :: 0 <= i < f.colCnt && Wanted(f, i) ==> i < p.colcnt
  }

  /** A row of the block that the code handles without following null pointers
      or running over a chunk: well-formed, with all its used columns in this piece;
      without a column list, every column that is compared and, if it passes, every
      one that is sent back is there; and what is sent back is no longer than a chunk. */
  ghost predicate RowOk(f: Filter, p: RowPiece) {
    && Here(f, p) && HasColumns(p)
    && (f.useCols.NoList? ==>
          forall i :: 0 <= i < |f.exps| ==> f.exps[i].left < p.colcnt && f.exps[i].right < p.colcnt)
    && (Holds(f, SeenRow(f, p)) ==>
          && (f.useCols.NoList? ==> Complete(f, p))
          && |Flatten(OutRow(f, SeenRow(f, p)))| <= RES_CHUNK_SIZE)
  }

  ghost predicate BlockOk(f: Filter, blk: seq<Slot>) {
    forall k :: 0 <= k < |blk| && Live(blk[k]) ==> RowOk(f, blk[k].piece)
  }

  /** A live row that satisfies the filter is sent back, nothing else. */
  ghost predicate Survives(f: Filter, s: Slot, out: seq<seq<Byte>>) {
    Live(s) && HasColumns(s.piece) && Holds(f, SeenRow(f, s.piece)) && out == OutRow(f, SeenRow(f, s.piece))
  }

  /** What is sent back of a row. */
  ghost function Answer(f: Filter, row: seq<seq<Byte>>): seq<seq<seq<Byte>>>
    requires |row| == f.colCnt
  {
    if Holds(f, row) then [OutRow(f, row)] else []
  }

  ghost function SentBack(f: Filter): Slot -> seq<seq<seq<Byte>>> {
    (s: Slot) => if Live(s) && HasColumns(s.piece) then Answer(f, SeenRow(f, s.piece)) else []
  }

  /** The live rows that satisfy the filter, as they are sent back, in order. */
  ghost function Surviving(f: Filter, blk: seq<Slot>): seq<seq<seq<Byte>>> {
    FlatMap(blk, SentBack(f))
  }

  /** With such a filter on a column that is wanted, what is sent back are the live rows
      whose value lies in the range, and nothing else. */
  lemma {:induction false} RangeSurvives(f: Filter, c: nat, blk: seq<Slot>, k: nat)
    requires RangeFilter(f, c) && c < f.colCnt && k < |blk| && blk[k].Used? && HasColumns(blk[k].piece)
    requires Pointed(f, blk[k].piece, c) && c < blk[k].piece.colcnt
    requires var v := First(Suffix(blk[k].piece.data, c)); ColumnHere(v) && Data(v) != []
    ensures var p := blk[k].piece; var v := Data(First(Suffix(p.data, c)));
      SentBack(f)(blk[k]) == if p.flags / 0x20 % 2 == 1 && p.flags / 0x10 % 2 == 0
                                && LexLess(Data(f.consts[0]), v) && !LexLess(Data(f.consts[1]), v)
                             then [OutRow(f, SeenRow(f, p))] else []
  {
    RangeHolds(f, c, SeenRow(f, blk[k].piece));
  }

  /** What is asked for of a slot: its row filled up with NULL. */
  ghost function AskedBack(f: Filter): Slot -> seq<seq<seq<Byte>>> {
    (s: Slot) => if Live(s) && HasColumns(s.piece) then Answer(f, RowOf(f, s.piece)) else []
  }

  // -------------------------------------------------------------------- chunks

  /** A row goes to the last chunk if it fits, else to a new one. */
  function AddRow(chunks: seq<seq<Byte>>, bytes: seq<Byte>): seq<seq<Byte>> {
    if chunks == [] || |chunks[|chunks| - 1]| + |bytes| > RES_CHUNK_SIZE then chunks + [bytes]
    else chunks[|chunks| - 1 := chunks[|chunks| - 1] + bytes]
  }

  function AddRows(chunks: seq<seq<Byte>>, rows: seq<seq<seq<Byte>>>): seq<seq<Byte>> {
    if rows == [] then chunks else AddRow(AddRows(chunks, rows[..|rows| - 1]), Flatten(rows[|rows| - 1]))
  }

  /** The chunks as groups of whole rows. */
  function Group(groups: seq<seq<seq<seq<Byte>>>>, row: seq<seq<Byte>>): seq<seq<seq<seq<Byte>>>> {
    if groups == [] || |ConcatRows(groups[|groups| - 1])| + |Flatten(row)| > RES_CHUNK_SIZE then groups + [[row]]
    else groups[|groups| - 1 := groups[|groups| - 1] + [row]]
  }

  function GroupAll(rows: seq<seq<seq<Byte>>>): seq<seq<seq<seq<Byte>>>> {
    if rows == [] then [] else Group(GroupAll(rows[..|rows| - 1]), rows[|rows| - 1])
  }

  ghost predicate Match(chunks: seq<seq<Byte>>, groups: seq<seq<seq<seq<Byte>>>>) {
    |chunks| == |groups| && forall k :: 0 <= k < |chunks| ==> chunks[k] == ConcatRows(groups[k])
  }

  lemma {:induction false} ConcatRowsSnoc(rows: seq<seq<seq<Byte>>>, row: seq<seq<Byte>>)
    ensures ConcatRows(rows + [row]) == ConcatRows(rows) + Flatten(row)
  {
    assert (rows + [row])[..|rows|] == rows;
  }

  lemma {:induction false} GroupMatches(chunks: seq<seq<Byte>>, groups: seq<seq<seq<seq<Byte>>>>, row: seq<seq<Byte>>)
    requires Match(chunks, groups)
    ensures Match(AddRow(chunks, Flatten(row)), Group(groups, row))
  {
    OneRow(row);
    if groups != [] {
      ConcatRowsSnoc(groups[|groups| - 1], row);
    }
  }

  lemma {:induction false} OneRow(row: seq<seq<Byte>>)
    ensures ConcatRows([row]) == Flatten(row)
  {
    ConcatRowsSnoc([], row);
    assert [] + [row] == [row];
    assert ConcatRows([]) == [] && [] + Flatten(row) == Flatten(row);
  }

  lemma {:induction false} GroupFlattens(groups: seq<seq<seq<seq<Byte>>>>, row: seq<seq<Byte>>)
    ensures Flatten(Group(groups, row)) == Flatten(groups) + [row]
  {
    var n := |groups| - 1;
    var out := Group(groups, row);
    if |out| == |groups| {
      assert out[..n] == groups[..n];
      assert out[n] == groups[n] + [row];
    } else {
      assert out[..|groups|] == groups;
    }
  }

  lemma {:induction false} GroupKeepsRows(groups: seq<seq<seq<seq<Byte>>>>, row: seq<seq<Byte>>, n: nat)
    requires forall k :: 0 <= k < |groups| ==> AllRows(groups[k], n)
    requires |row| == n && AllColumns(row)
    ensures forall k :: 0 <= k < |Group(groups, row)| ==> AllRows(Group(groups, row)[k], n)
  {
  }

  /** Chunks consist of whole rows, all of them, in order. */
  lemma {:induction false} ChunksAreGroups(rows: seq<seq<seq<Byte>>>, n: nat)
    requires AllRows(rows, n)
    ensures Match(AddRows([], rows), GroupAll(rows))
    ensures Flatten(GroupAll(rows)) == rows
    ensures forall k :: 0 <= k < |GroupAll(rows)| ==> AllRows(GroupAll(rows)[k], n)
  {
    if rows != [] {
      var init, row := rows[..|rows| - 1], rows[|rows| - 1];
      ChunksAreGroups(init, n);
      GroupMatches(AddRows([], init), GroupAll(init), row);
      GroupFlattens(GroupAll(init), row);
      GroupKeepsRows(GroupAll(init), row, n);
    }
  }

  /** No chunk is filled beyond its size. */
  lemma {:induction false} ChunksAreBounded(rows: seq<seq<seq<Byte>>>)
    requires forall k :: 0 <= k < |rows| ==> |Flatten(rows[k])| <= RES_CHUNK_SIZE
    ensures forall k :: 0 <= k < |AddRows([], rows)| ==> |AddRows([], rows)[k]| <= 65533
  {
    if rows != [] {
      ChunksAreBounded(rows[..|rows| - 1]);
    }
  }

  /** A chunk is begun only for a row that does not fit the one before. */
  lemma {:induction false} ChunksAreFull(rows: seq<seq<seq<Byte>>>)
    ensures Match(AddRows([], rows), GroupAll(rows))
    ensures forall k :: 0 < k < |GroupAll(rows)| ==>
      GroupAll(rows)[k] != [] && |AddRows([], rows)[k - 1]| + |Flatten(GroupAll(rows)[k][0])| > 65533
  {
    if rows != [] {
      var init, row := rows[..|rows| - 1], rows[|rows| - 1];
      ChunksAreFull(init);
      GroupMatches(AddRows([], init), GroupAll(init), row);
    }
  }

  ghost function ParseChunks(chunks: seq<seq<Byte>>, n: nat): seq<seq<seq<Byte>>>
    requires n > 0
  {
    if chunks == [] then [] else ParseChunks(chunks[..|chunks| - 1], n) + ParseRows(chunks[|chunks| - 1], n)
  }

  lemma {:induction false} ParseGroups(chunks: seq<seq<Byte>>, groups: seq<seq<seq<seq<Byte>>>>, n: nat)
    requires n > 0 && Match(chunks, groups)
    requires forall k :: 0 <= k < |groups| ==> AllRows(groups[k], n)
    ensures ParseChunks(chunks, n) == Flatten(groups)
  {
    if chunks != [] {
      var m := |chunks| - 1;
      ParseGroups(chunks[..m], groups[..m], n);
      ParseRowsBack(groups[m], n);
    }
  }

  /** Reading the chunks by column lengths gives back the rows. */
  lemma {:induction false} ChunksParseBack(rows: seq<seq<seq<Byte>>>, n: nat)
    requires n > 0 && AllRows(rows, n)
    ensures ParseChunks(AddRows([], rows), n) == rows
  {
    ChunksAreGroups(rows, n);
    ParseGroups(AddRows([], rows), GroupAll(rows), n);
  }

  /** Filling one chunk list from several blocks is filling it from all rows. */
  lemma {:induction false} AddRowsAppend(chunks: seq<seq<Byte>>, a: seq<seq<seq<Byte>>>, b: seq<seq<seq<Byte>>>)
    ensures AddRows(AddRows(chunks, a), b) == AddRows(chunks, a + b)
  {
    if b == [] {
      assert a + b == a;
    } else {
      var n := |b| - 1;
      AddRowsAppend(chunks, a, b[..n]);
      assert (a + b)[..|a + b| - 1] == a + b[..n];
    }
  }

  // -------------------------------------------------------------- the pointers

  /** A column pointer: null, or the bytes from where it points. */
  datatype Pointer = Null | To(bytes: seq<Byte>)

  ghost predicate Shows(p: Pointer, col: seq<Byte>) {
    p.To? && ColumnHere(p.bytes) && First(p.bytes) == col
  }

  lemma {:induction false} CountTruePrefix(flags: seq<bool>, i: nat)
    requires i <= |flags|
    ensures CountTrue(flags[..i]) <= CountTrue(flags)
    ensures CountTrue(flags[..i]) == CountTrue(flags) ==> forall k :: i <= k < |flags| ==> !flags[k]
    decreases |flags| - i
  {
    if i == |flags| {
      assert flags[..i] == flags;
    } else {
      CountTruePrefix(flags, i + 1);
      assert flags[..i + 1][..i] == flags[..i];
    }
  }

  /** `at[i]` is where column `i` starts. */
  ghost predicate Starts(at: seq<seq<Byte>>, data: seq<Byte>, n: nat) {
    && |at| == n + 1 && at[0] == data
    && forall i :: 0 <= i < n ==> ColumnHere(at[i]) && at[i + 1] == at[i][GetLen(at[i])..]
  }

  ghost function Suffixes(data: seq<Byte>, n: nat): (at: seq<seq<Byte>>)
    ensures |at| == n + 1 && forall i :: 0 <= i <= n ==> at[i] == Suffix(data, i)
  {
    seq(n + 1, i requires 0 <= i <= n => Suffix(data, i))
  }

  lemma {:induction false} SuffixesStart(data: seq<Byte>, n: nat)
    requires Parses(data, n)
    ensures Starts(Suffixes(data, n), data, n)
  {
    var at := Suffixes(data, n);
    forall i | 0 <= i < n ensures ColumnHere(at[i]) && at[i + 1] == at[i][GetLen(at[i])..] {
      assert ColumnHere(Suffix(data, i));
    }
  }

  /** `build_data` without a column list. */
  method BuildAll(vals: array<Pointer>, lens: array<int>, data: seq<Byte>, rpColCnt: nat, ghost at: seq<seq<Byte>>)
    requires vals.Length == lens.Length && Starts(at, data, rpColCnt)
    modifies vals, lens
    ensures forall i :: 0 <= i < vals.Length ==> vals[i] == if i < rpColCnt then To(at[i]) else Null
  {
    var rp := data;
    var colCnt := vals.Length;
    var min := if colCnt > rpColCnt then rpColCnt else colCnt;
    for i := 0 to min
      invariant rp == at[i]
      invariant forall k :: 0 <= k < i ==> vals[k] == To(at[k])
    {
      vals[i] := To(rp);
      lens[i] := GetLen(rp) % 65536;
      rp := rp[GetLen(rp)..];
    }
    for i := min to colCnt
      invariant forall k :: 0 <= k < min ==> vals[k] == To(at[k])
      invariant forall k :: min <= k < i ==> vals[k] == Null
    {
      vals[i] := Null;
      lens[i] := 1;
    }
  }

  /** The first `i` columns have their pointers, if they are used. */
  ghost predicate UsedSoFar(vals: seq<Pointer>, was: seq<Pointer>, flags: seq<bool>, at: seq<seq<Byte>>, i: int)
    requires |vals| == |was| == |flags| && |at| >= 2
  {
    forall k :: 0 <= k < |flags| ==> vals[k] == if k < i && flags[k] then To(at[Min(k, |at| - 2)]) else was[k]
  }

  /** `build_data` with a column list. Entries of unused columns keep what the
      previous row left there; a used column beyond the row's last gets the last. */
  method BuildUsed(vals: array<Pointer>, lens: array<int>, data: seq<Byte>, flags: seq<bool>, rpColCnt: nat,
                   usecolCnt: int,
                   ghost at: seq<seq<Byte>>)
    requires vals.Length == lens.Length == |flags| && rpColCnt > 0 && Starts(at, data, rpColCnt)
    requires usecolCnt == CountTrue(flags)
    modifies vals, lens
    ensures forall i :: 0 <= i < |flags| ==> vals[i] == if flags[i] then To(at[Min(i, rpColCnt - 1)]) else old(vals[i])
  {
    var rp := data;
    var remained := usecolCnt;
    for i := 0 to |flags|
      invariant rp == at[Min(i, rpColCnt - 1)]
      invariant remained == usecolCnt - CountTrue(flags[..i])
      invariant UsedSoFar(vals[..], old(vals[..]), flags, at, i)
    {
      assert flags[..i + 1][..i] == flags[..i];
      if flags[i] {
        vals[i] := To(rp);
        lens[i] := GetLen(rp) % 65536;
        remained := remained - 1;
      }
      if remained <= 0 {
        CountTruePrefix(flags, i + 1);
        assert UsedSoFar(vals[..], old(vals[..]), flags, at, |flags|);
        return;
      }
      if i < rpColCnt - 1 {
        rp := rp[GetLen(rp)..];
      }
    }
  }

  /** The operands of the conditions at the pointers that are going to be followed. */
  ghost predicate Built(vals: seq<Pointer>, f: Filter, row: seq<seq<Byte>>)
    requires |vals| == |row| == f.colCnt
  {
    forall i :: 0 <= i < |f.exps| ==>
      OperandShown(vals, row, f.exps[i].left) && OperandShown(vals, row, f.exps[i].right)
  }

  /** The columns to be sent at their pointers. */
  ghost predicate ToSend(vals: seq<Pointer>, f: Filter, row: seq<seq<Byte>>)
    requires |vals| == |row| == f.colCnt
  {
    forall i :: 0 <= i < f.colCnt && Wanted(f, i) ==> Shows(vals[i], row[i])
  }

  ghost predicate OperandShown(vals: seq<Pointer>, row: seq<seq<Byte>>, no: int)
    requires |vals| == |row|
  {
    no == -1 || (0 <= no < |row| && Shows(vals[no], row[no]))
  }

  ghost predicate AllPointed(vals: seq<Pointer>, f: Filter, p: RowPiece)
    requires |vals| == f.colCnt && p.colcnt > 0
  {
    forall i :: 0 <= i < f.colCnt && Pointed(f, p, i) ==> vals[i] == To(Suffix(p.data, Min(i, p.colcnt - 1)))
  }

  lemma {:induction false} PointedShows(vals: seq<Pointer>, f: Filter, p: RowPiece, i: nat)
    requires |vals| == f.colCnt && HasColumns(p) && AllPointed(vals, f, p)
    requires i < f.colCnt && Pointed(f, p, i)
    ensures Shows(vals[i], SeenRow(f, p)[i])
  {
    var at := Suffix(p.data, Min(i, p.colcnt - 1));
    assert ColumnHere(at);
    assert SeenRow(f, p)[i] == SeenColumn(p, i) == First(at);
    assert vals[i] == To(at);
  }

  lemma {:induction false} OperandPointed(vals: seq<Pointer>, f: Filter, p: RowPiece, no: int)
    requires |vals| == f.colCnt && HasColumns(p) && AllPointed(vals, f, p) && OperandOk(f, no)
    requires f.useCols.NoList? ==> no < p.colcnt
    ensures OperandShown(vals, SeenRow(f, p), no)
  {
    if no != -1 {
      PointedShows(vals, f, p, no);
    }
  }

  lemma {:induction false} BuiltFromStarts(vals: seq<Pointer>, f: Filter, p: RowPiece)
    requires |vals| == f.colCnt && FilterOk(f) && RowOk(f, p) && AllPointed(vals, f, p)
    ensures Built(vals, f, SeenRow(f, p))
    ensures Holds(f, SeenRow(f, p)) ==> ToSend(vals, f, SeenRow(f, p))
  {
    forall i | 0 <= i < |f.exps|
      ensures OperandShown(vals, SeenRow(f, p), f.exps[i].left) && OperandShown(vals, SeenRow(f, p), f.exps[i].right)
    {
      OperandPointed(vals, f, p, f.exps[i].left);
      OperandPointed(vals, f, p, f.exps[i].right);
    }
    if Holds(f, SeenRow(f, p)) {
      forall i | 0 <= i < f.colCnt && Wanted(f, i) ensures Shows(vals[i], SeenRow(f, p)[i]) {
        PointedShows(vals, f, p, i);
      }
    }
  }

  /** `build_data`. */
  method BuildData(vals: array<Pointer>, lens: array<int>, f: Filter, p: RowPiece)
    requires vals.Length == lens.Length == f.colCnt && FilterOk(f) && RowOk(f, p)
    modifies vals, lens
    ensures Built(vals[..], f, SeenRow(f, p))
    ensures Holds(f, SeenRow(f, p)) ==> ToSend(vals[..], f, SeenRow(f, p))
  {
    ghost var at := Suffixes(p.data, p.colcnt);
    SuffixesStart(p.data, p.colcnt);
    if f.useCols.NoList? {
      BuildAll(vals, lens, p.data, p.colcnt, at);
    } else {
      BuildUsed(vals, lens, p.data, f.useCols.flags, p.colcnt, f.useColCnt, at);
    }
    BuiltFromStarts(vals[..], f, p);
  }

  // ----------------------------------------------------------------- the filter

  lemma {:induction false} ShownData(p: Pointer, col: seq<Byte>)
    requires Shows(p, col)
    ensures ColumnHere(col) && GetSize(p.bytes) == GetSize(col) && Data(p.bytes) == Data(col)
  {
    FirstIsColumn(p.bytes);
  }

  /** One operand: the next constant, or a column; and the constant index after it. */
  method FetchOperand(f: Filter, vals: seq<Pointer>, no: int, constIdx: nat, ghost row: seq<seq<Byte>>)
    returns (p: Pointer, next: nat)
    requires |vals| == |row| && OperandShown(vals, row, no) && AllColumns(f.consts)
    requires no == -1 ==> constIdx < |f.consts|
    ensures next == constIdx + if no == -1 then 1 else 0
    ensures Shows(p, if no == -1 then Entry(f.consts, constIdx) else Entry(row, no))
  {
    next := constIdx;
    if no != -1 {
      p := vals[no];
    } else {
      p := To(f.consts[next]);
      assert IsColumn(f.consts[next]);
      next := next + 1;
    }
  }

  method EvalOne(f: Filter, i: nat, l: Pointer, r: Pointer, ghost row: seq<seq<Byte>>) returns (ok: bool)
    requires i < |f.exps| && Shows(l, LeftOf(f, row, i)) && Shows(r, RightOf(f, row, i))
    ensures ok == ExpHolds(f, row, i)
  {
    ShownData(l, LeftOf(f, row, i));
    ShownData(r, RightOf(f, row, i));
    if GetSize(l.bytes) == 0 || GetSize(r.bytes) == 0 {
      return false;
    }
    ok := EvalCondition(l.bytes, r.bytes, f.exps[i].op, f.exps[i].isChar);
  }

  /** `tests[i]` is the outcome of condition `i`. */
  ghost predicate Outcomes(tests: seq<bool>, f: Filter, row: seq<seq<Byte>>) {
    |tests| == |f.exps| && forall i {:trigger ExpHolds(f, row, i)} :: 0 <= i < |f.exps| ==>
      tests[i] == ExpHolds(f, row, i)
  }

  function Tests(f: Filter, row: seq<seq<Byte>>): (tests: seq<bool>)
    ensures Outcomes(tests, f, row)
    ensures Holds(f, row) <==> forall i :: 0 <= i < |tests| ==> tests[i]
  {
    seq(|f.exps|, i requires 0 <= i < |f.exps| => ExpHolds(f, row, i))
  }

  /** One turn of the condition loop. */
  method EvalAt(f: Filter, vals: seq<Pointer>, i: nat, constIdx: nat, ghost row: seq<seq<Byte>>,
                ghost tests: seq<bool>)
    returns (ok: bool, next: nat)
    requires FilterOk(f) && |vals| == |row| == f.colCnt && Built(vals, f, row)
    requires i < |f.exps| && constIdx == ConstsBefore(f.exps, i) && Outcomes(tests, f, row)
    ensures ok == tests[i] && next == ConstsBefore(f.exps, i + 1)
  {
    ConstsGrow(f.exps, i, |f.exps|);
    var l, r;
    next := constIdx;
    l, next := FetchOperand(f, vals, f.exps[i].left, next, row);
    r, next := FetchOperand(f, vals, f.exps[i].right, next, row);
    ok := EvalOne(f, i, l, r, row);
  }

  /** `exp_eval_and_check_true`. */
  method EvalAndCheckTrue(f: Filter, vals: array<Pointer>, ghost row: seq<seq<Byte>>) returns (ok: bool)
    requires FilterOk(f) && vals.Length == |row| == f.colCnt && Built(vals[..], f, row)
    ensures ok == Holds(f, row)
  {
    ok := CheckAll(f, vals[..], row, Tests(f, row));
  }

  method CheckAll(f: Filter, vals: seq<Pointer>, ghost row: seq<seq<Byte>>, ghost tests: seq<bool>) returns (ok: bool)
    requires FilterOk(f) && |vals| == |row| == f.colCnt && Built(vals, f, row)
    requires Outcomes(tests, f, row)
    ensures ok == forall i :: 0 <= i < |tests| ==> tests[i]
  {
    var constIdx := 0;
    for i := 0 to |f.exps|
      invariant constIdx == ConstsBefore(f.exps, i)
      invariant forall k :: 0 <= k < i ==> tests[k]
    {
      var one;
      one, constIdx := EvalAt(f, vals, i, constIdx, row, tests);
      if !one {
        return false;
      }
    }
    ok := true;
  }

  // ---------------------------------------------------------------- the output

  lemma {:induction false} ConcatLonger(cols: seq<seq<Byte>>, i: nat)
    requires i < |cols|
    ensures |cols[i]| <= |Flatten(cols)|
    ensures |Flatten(cols[..i + 1])| == |Flatten(cols[..i])| + |cols[i]|
  {
    assert cols[..i + 1][..i] == cols[..i];
    if i < |cols| - 1 {
      ConcatLonger(cols[..|cols| - 1], i);
      assert cols[..|cols| - 1][..i + 1] == cols[..i + 1] && cols[..|cols| - 1][..i] == cols[..i];
    }
  }

  /** One column of `set_col_out`; its length is kept in 16 bits. */
  method SetOneOut(vals: array<Pointer>, lens: array<int>, f: Filter, i: nat, ghost col: seq<Byte>,
                   ghost out: seq<Byte>)
    requires i < vals.Length == lens.Length && out == (if Wanted(f, i) then col else NULL_COLUMN)
    requires Wanted(f, i) ==> Shows(vals[i], col)
    requires |out| <= RES_CHUNK_SIZE
    modifies vals, lens
    ensures Shows(vals[i], out) && lens[i] == |out|
    ensures forall k :: 0 <= k < vals.Length && k != i ==> vals[k] == old(vals[k]) && lens[k] == old(lens[k])
  {
    if Wanted(f, i) {
      lens[i] := GetLen(vals[i].bytes) % 65536;
    } else {
      NullColumnIsColumn();
      vals[i] := To(NULL_COLUMN);
      lens[i] := 1;
    }
  }

  /** `set_col_out`: null out the columns that are not wanted, add up the lengths. */
  method SetColOut(vals: array<Pointer>, lens: array<int>, f: Filter, ghost row: seq<seq<Byte>>) returns (totalLen: int)
    requires FilterOk(f) && vals.Length == lens.Length == |row| == f.colCnt && ToSend(vals[..], f, row)
    requires |Flatten(OutRow(f, row))| <= RES_CHUNK_SIZE
    modifies vals, lens
    ensures forall i :: 0 <= i < f.colCnt ==> Shows(vals[i], OutRow(f, row)[i])
    ensures totalLen == |Flatten(OutRow(f, row))|
  {
    ghost var wanted := seq(f.colCnt, i requires 0 <= i < f.colCnt => Wanted(f, i));
    totalLen := SetAllOut(vals, lens, f, row, OutRow(f, row), wanted);
  }

  method SetAllOut(vals: array<Pointer>, lens: array<int>, f: Filter, ghost row: seq<seq<Byte>>,
                   ghost out: seq<seq<Byte>>,
                   ghost wanted: seq<bool>)
    returns (totalLen: int)
    requires vals.Length == lens.Length == |row| == |out| == |wanted| == f.colCnt
    requires forall i :: 0 <= i < f.colCnt ==> wanted[i] == Wanted(f, i)
    requires forall i :: 0 <= i < f.colCnt ==> out[i] == if wanted[i] then row[i] else NULL_COLUMN
    requires forall i :: 0 <= i < f.colCnt && wanted[i] ==> Shows(vals[i], row[i])
    requires |Flatten(out)| <= RES_CHUNK_SIZE
    modifies vals, lens
    ensures forall i :: 0 <= i < f.colCnt ==> Shows(vals[i], out[i])
    ensures totalLen == |Flatten(out)|
  {
    totalLen := 0;
    for i := 0 to f.colCnt
      invariant totalLen == |Flatten(out[..i])|
      invariant forall k :: 0 <= k < i ==> Shows(vals[k], out[k])
      invariant forall k :: i <= k < f.colCnt && wanted[k] ==> Shows(vals[k], row[k])
    {
      ConcatLonger(out, i);
      SetOneOut(vals, lens, f, i, row[i], out[i]);
      totalLen := totalLen + lens[i];
    }
    assert out[..f.colCnt] == out;
  }

  /** The result chunks; the bytes in use of each. */
  class ChunkList {
    var resChunk: seq<seq<Byte>>

    constructor ()
      ensures resChunk == []
    {
      resChunk := [];
    }

    /** `serialize_rpcols_to_chunk`. */
    method Serialize(vals: array<Pointer>, totalLen: int, ghost out: seq<seq<Byte>>)
      requires vals.Length == |out| && forall i :: 0 <= i < |out| ==> Shows(vals[i], out[i])
      requires totalLen == |Flatten(out)|
      modifies this
      ensures resChunk == AddRow(old(resChunk), Flatten(out))
    {
      if |resChunk| == 0 || |resChunk[|resChunk| - 1]| + totalLen > RES_CHUNK_SIZE {
        resChunk := resChunk + [[]];
        assert [] + Flatten(out) == Flatten(out);
      }
      CopyColumns(vals, out);
    }

    /** The copying loop. */
    method CopyColumns(vals: array<Pointer>, ghost out: seq<seq<Byte>>)
      requires vals.Length == |out| && forall i :: 0 <= i < |out| ==> Shows(vals[i], out[i])
      requires resChunk != []
      modifies this
      ensures resChunk == old(resChunk)[|old(resChunk)| - 1 := old(resChunk)[|old(resChunk)| - 1] + Flatten(out)]
    {
      var last := |resChunk| - 1;
      ghost var base := resChunk[last];
      assert base + [] == base;
      for i := 0 to vals.Length
        invariant |resChunk| == last + 1 && resChunk[..last] == old(resChunk)[..last]
        invariant resChunk[last] == base + Flatten(out[..i])
      {
        FlattenOneMore(out, i + 1);
        var col := vals[i].bytes;
        resChunk := resChunk[last := resChunk[last] + col[..GetLen(col)]];
      }
      assert out[..|out|] == out;
    }

    /** One row of the block. */
    method FilterRow(f: Filter, p: RowPiece, vals: array<Pointer>, lens: array<int>)
      requires FilterOk(f) && RowOk(f, p) && vals.Length == lens.Length == f.colCnt
      modifies this, vals, lens
      ensures resChunk == if Holds(f, SeenRow(f, p)) then AddRow(old(resChunk), Flatten(OutRow(f, SeenRow(f, p))))
        else old(resChunk)
    {
      ghost var row := SeenRow(f, p);
      BuildData(vals, lens, f, p);
      var ok := EvalAndCheckTrue(f, vals, row);
      if !ok {
        return;
      }
      var totalLen := SetColOut(vals, lens, f, row);
      Serialize(vals, totalLen, OutRow(f, row));
    }

    /** The test of `process_chained_row`: a piece of a chained row is treated like a
        whole row if it has all columns that are used. */
    method SpreadElsewhere(f: Filter, p: RowPiece) returns (elsewhere: bool)
      ensures elsewhere == !Here(f, p)
    {
      elsewhere := false;
      if !Has(p.flags, FIRSTPIECE_ROW_PIECE) || !Has(p.flags, LASTPIECE_ROW_PIECE) {
        var normalColCnt := if Has(p.flags, LASTCOL_CONT_ROW_PIECE) then p.colcnt - 1 else p.colcnt;
        elsewhere := f.allMaxColno >= normalColCnt;
      }
    }

    /** `csd_filter_and_eval_out`. */
    method FilterAndEvalOut(f: Filter, blk: seq<Slot>)
      requires FilterOk(f) && BlockOk(f, blk)
      modifies this
      ensures resChunk == AddRows(old(resChunk), Surviving(f, blk))
    {
      var vals := new Pointer[f.colCnt](_ => Null);
      var lens := new int[f.colCnt](_ => 0);
      for rowno := 0 to |blk|
        invariant resChunk == AddRows(old(resChunk), Surviving(f, blk[..rowno]))
      {
        SurvivingStep(f, blk, rowno, old(resChunk));
        if !Live(blk[rowno]) {
          continue;
        }
        var elsewhere := SpreadElsewhere(f, blk[rowno].piece);
        if elsewhere {
          continue;
        }
        FilterRow(f, blk[rowno].piece, vals, lens);
      }
      assert blk[..|blk|] == blk;
    }
  }

  lemma {:induction false} SurvivingStep(f: Filter, blk: seq<Slot>, k: nat, chunks: seq<seq<Byte>>)
    requires BlockOk(f, blk) && k < |blk|
    ensures !Live(blk[k]) ==> AddRows(chunks, Surviving(f, blk[..k + 1])) == AddRows(chunks, Surviving(f, blk[..k]))
    ensures Live(blk[k]) ==> RowOk(f, blk[k].piece)
    ensures Live(blk[k]) && !Holds(f, SeenRow(f, blk[k].piece)) ==>
      AddRows(chunks, Surviving(f, blk[..k + 1])) == AddRows(chunks, Surviving(f, blk[..k]))
    ensures Live(blk[k]) && Holds(f, SeenRow(f, blk[k].piece)) ==>
      AddRows(chunks, Surviving(f, blk[..k + 1]))
      == AddRow(AddRows(chunks, Surviving(f, blk[..k])), Flatten(OutRow(f, SeenRow(f, blk[k].piece))))
  {
    FlatMapOneMore(blk, SentBack(f), k);
    var s := Surviving(f, blk[..k]);
    assert s + [] == s;
    if Live(blk[k]) {
      var out := OutRow(f, SeenRow(f, blk[k].piece));
      assert (s + [out])[..|s|] == s;
    }
  }

  // ------------------------------------------------------------------- theorem

  lemma {:induction false} OutRowColumns(f: Filter, p: RowPiece)
    requires HasColumns(p)
    ensures AllColumns(OutRow(f, SeenRow(f, p)))
  {
    NullColumnIsColumn();
    forall i | 0 <= i < f.colCnt ensures IsColumn(OutRow(f, SeenRow(f, p))[i]) {
      FirstIsColumn(Suffix(p.data, Min(i, p.colcnt - 1)));
    }
  }

  lemma {:induction false} SurvivingRows(f: Filter, blk: seq<Slot>, out: seq<seq<Byte>>)
    requires BlockOk(f, blk) && out in Surviving(f, blk)
    ensures |out| == f.colCnt && AllColumns(out) && |Flatten(out)| <= RES_CHUNK_SIZE
  {
    FlatMapIn(blk, SentBack(f), out);
    var k :| 0 <= k < |blk| && out in SentBack(f)(blk[k]);
    OutRowColumns(f, blk[k].piece);
  }

  ghost predicate BlocksOk(f: Filter, blks: seq<seq<Slot>>) {
    forall k :: 0 <= k < |blks| ==> BlockOk(f, blks[k])
  }

  ghost function SurvivingOf(f: Filter): seq<Slot> -> seq<seq<seq<Byte>>> {
    (blk: seq<Slot>) => Surviving(f, blk)
  }

  /** The surviving rows of several blocks, block after block. */
  ghost function AllSurviving(f: Filter, blks: seq<seq<Slot>>): seq<seq<seq<Byte>>> {
    FlatMap(blks, SurvivingOf(f))
  }

  lemma {:induction false} AllSurvivingRows(f: Filter, blks: seq<seq<Slot>>)
    requires BlocksOk(f, blks)
    ensures AllRows(AllSurviving(f, blks), f.colCnt)
    ensures forall k :: 0 <= k < |AllSurviving(f, blks)| ==> |Flatten(AllSurviving(f, blks)[k])| <= RES_CHUNK_SIZE
  {
    var rows := AllSurviving(f, blks);
    forall k | 0 <= k < |rows|
      ensures |rows[k]| == f.colCnt && AllColumns(rows[k]) && |Flatten(rows[k])| <= RES_CHUNK_SIZE
    {
      assert rows[k] in rows;
      FlatMapIn(blks, SurvivingOf(f), rows[k]);
      var i :| 0 <= i < |blks| && rows[k] in SurvivingOf(f)(blks[i]);
      SurvivingRows(f, blks[i], rows[k]);
    }
  }

  /** The blocks of a request are filtered one after the other into one list. */
  method FilterBlocks(chunks: ChunkList, f: Filter, blks: seq<seq<Slot>>)
    requires FilterOk(f) && BlocksOk(f, blks)
    modifies chunks
    ensures chunks.resChunk == AddRows(old(chunks.resChunk), AllSurviving(f, blks))
  {
    ghost var start := chunks.resChunk;
    for k := 0 to |blks|
      invariant chunks.resChunk == AddRows(start, AllSurviving(f, blks[..k]))
    {
      chunks.FilterAndEvalOut(f, blks[k]);
      FlatMapOneMore(blks, SurvivingOf(f), k);
      AddRowsAppend(start, AllSurviving(f, blks[..k]), Surviving(f, blks[k]));
    }
    assert blks[..|blks|] == blks;
  }

  /** Pushdown is correct: for blocks filtered into one empty chunk list, parsing
      the chunks back by column length gives exactly the live rows that satisfy
      the filter, in order, unwanted columns as NULL; every chunk consists of
      whole rows and stays within its size. */
  lemma {:induction false} PushdownCorrect(f: Filter, blks: seq<seq<Slot>>)
    requires f.colCnt > 0 && BlocksOk(f, blks)
    ensures var chunks := AddRows([], AllSurviving(f, blks));
      && ParseChunks(chunks, f.colCnt) == AllSurviving(f, blks)
      && (forall k :: 0 <= k < |chunks| ==> |chunks[k]| <= RES_CHUNK_SIZE)
      && (forall k :: 0 <= k < |chunks| ==> chunks[k] == ConcatRows(ParseRows(chunks[k], f.colCnt)))
  {
    var rows := AllSurviving(f, blks);
    AllSurvivingRows(f, blks);
    ChunksParseBack(rows, f.colCnt);
    ChunksAreBounded(rows);
    ChunksAreGroups(rows, f.colCnt);
    var chunks, groups := AddRows([], rows), GroupAll(rows);
    forall k | 0 <= k < |chunks| ensures chunks[k] == ConcatRows(ParseRows(chunks[k], f.colCnt)) {
      ParseRowsBack(groups[k], f.colCnt);
    }
  }

  /** A row is sent back exactly when a live row of the block satisfies the
      filter and shows it. */
  lemma {:induction false} SurvivorsIff(f: Filter, blk: seq<Slot>, out: seq<seq<Byte>>)
    ensures out in Surviving(f, blk) <==> exists k :: 0 <= k < |blk| && Survives(f, blk[k], out)
  {
    FlatMapIn(blk, SentBack(f), out);
    forall k | 0 <= k < |blk| ensures out in SentBack(f)(blk[k]) <==> Survives(f, blk[k], out) {
    }
  }

  // -------------------------------------------------------------- narrow rows

  /** The rows agree on the columns that are wanted, and so in what is sent back. */
  lemma {:induction false} SameAnswer(f: Filter, a: seq<seq<Byte>>, b: seq<seq<Byte>>)
    requires FilterOk(f) && f.useCols.List? && |a| == |b| == f.colCnt
    requires forall i :: 0 <= i < f.colCnt && Wanted(f, i) ==> a[i] == b[i]
    ensures Answer(f, a) == Answer(f, b)
  {
    forall i | 0 <= i < |f.exps| ensures ExpHolds(f, a, i) == ExpHolds(f, b, i) {
      assert OperandOk(f, f.exps[i].left) && OperandOk(f, f.exps[i].right);
    }
    assert OutRow(f, a) == OutRow(f, b);
  }

  /** A row with fewer columns than are wanted is filtered and sent as its form filled
      up with NULL exactly when its last column, which takes the place of the missing
      ones, is NULL, or the filter rejects both forms. */
  lemma {:induction false} NarrowRowIff(f: Filter, p: RowPiece)
    requires FilterOk(f) && RowOk(f, p)
    ensures Answer(f, SeenRow(f, p)) == Answer(f, RowOf(f, p))
       <==> Complete(f, p) || LastColumn(p) == NULL_COLUMN || (!Holds(f, SeenRow(f, p)) && !Holds(f, RowOf(f, p)))
  {
    var seen, filled := SeenRow(f, p), RowOf(f, p);
    if f.useCols.NoList? {
      assert forall i :: 0 <= i < p.colcnt ==> SeenColumn(p, i) == First(Suffix(p.data, i));
      assert seen == filled;
    } else if Complete(f, p) || LastColumn(p) == NULL_COLUMN {
      forall i | 0 <= i < f.colCnt && Wanted(f, i) ensures seen[i] == filled[i] {
        assert seen[i] == SeenColumn(p, i);
      }
      SameAnswer(f, seen, filled);
    } else {
      var i :| 0 <= i < f.colCnt && Wanted(f, i) && i >= p.colcnt;
      assert seen[i] == SeenColumn(p, i) == LastColumn(p);
      assert OutRow(f, seen)[i] == LastColumn(p) && OutRow(f, filled)[i] == NULL_COLUMN;
    }
  }

  /** Where this is so of every live row, the surviving rows are those asked for. */
  lemma {:induction false} SurvivingIsAsked(f: Filter, blk: seq<Slot>)
    requires FilterOk(f) && BlockOk(f, blk)
    requires forall k :: 0 <= k < |blk| && Live(blk[k]) ==>
      Complete(f, blk[k].piece) || LastColumn(blk[k].piece) == NULL_COLUMN
    ensures Surviving(f, blk) == FlatMap(blk, AskedBack(f))
  {
    forall k | 0 <= k < |blk| ensures SentBack(f)(blk[k]) == AskedBack(f)(blk[k]) {
      if Live(blk[k]) {
        NarrowRowIff(f, blk[k].piece);
      }
    }
    FlatMapSame(blk, SentBack(f), AskedBack(f));
  }
}
