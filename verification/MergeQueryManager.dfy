/** The join operators of the merge query manager, on columns, as loops over a
    finished table and a table that is read while it grows. */
module MergeQueryManager {
  import opened Permutations
  import opened Tables
  import opened Filters
  import opened Joins
  import opened OuterJoin
  import opened Streams
  import opened Restarts
  import opened HashTable
  import opened Unions

  class MergeQueryManager {
    var leftTable: TableData
    var rightTable: TableData
    var targetTable: TableData
    var hashTable: map<string, seq<nat>>

    constructor ()
      ensures targetTable == EMPTY_TABLE && hashTable == map[]
    {
      leftTable, rightTable, targetTable := EMPTY_TABLE, EMPTY_TABLE, EMPTY_TABLE;
      hashTable := map[];
    }

    // ----------------------------------------------------------- inner joins

    /** Inner join: hash table on the left table, the right table read while it
        grows. With an equality filter the result is, for every way `feed` of
        reading `full`, the join with the whole right table; without one every
        snapshot is joined again from its first row. */
    method InnerJoinHash(left: TableData, feed: seq<Snapshot>, ghost full: TableData, fs: seq<Filter>)
      requires targetTable == EMPTY_TABLE && hashTable == map[]
      requires WellFormed(left) && GrowingFeed(feed, full)
      requires Disjoint(full, left)
      requires FilterColumns(fs, SchemaOf(left), SchemaOf(full))
      modifies this
      ensures hashTable == map[] && Within(feed, full.rowCount)
      ensures Joined(targetTable, left, full, full.rowCount, JoinOutput(left, full, feed, |feed|, fs))
      ensures WellFormed(targetTable)
      ensures EqLeft(fs) != [] ==> Rows(targetTable) == JoinRightMajor(Rows(left), Rows(full), HashLeft(fs))
      ensures EqLeft(fs) == [] ==> Rows(targetTable) == Restarted(Rows(left), Rows(full), feed, |feed|, HashLeft(fs))
    {
      var rowIndex, first, k := 0, true, 0;
      leftTable := left;
      var types := CopyTypes(targetTable.columns, leftTable);
      targetTable := targetTable.(columns := types);
      var eqLeft, eqRight := EqualJoinColumns(fs);
      EqColumnsExist(fs, SchemaOf(left), SchemaOf(full));
      hashTable := CreateHashTable(leftTable, eqLeft);
      FeedIsWithin(feed, full);
      while true
        invariant k < |feed| && leftTable == left
        invariant 0 <= rowIndex <= full.rowCount && rowIndex == Seen(feed, k)
        invariant Indexes(hashTable, Rows(left), eqLeft)
        invariant first <==> rowIndex == 0
        invariant Joined(targetTable, left, full, rowIndex, JoinOutput(left, full, feed, k, fs))
        decreases |feed| - k
      {
        var done: bool;
        ghost var before := k;
        rightTable, done, k := NextBatch(feed, full, k, rowIndex);
        OutputStep(left, full, feed, before, k, fs);
        if rowIndex == rightTable.rowCount {
          break;
        }
        if first {
          types := CopyTypes(targetTable.columns, rightTable);
          targetTable := targetTable.(columns := types);
          first := false;
        }
        JoinBatch(full, fs, eqLeft, eqRight, rowIndex, JoinOutput(left, full, feed, before, fs));
        rowIndex := rightTable.rowCount;
        if done {
          break;
        }
      }
      hashTable := map[];
      JoinedRows(targetTable, left, full, JoinOutput(left, full, feed, |feed|, fs));
      assert Rows(full)[..full.rowCount] == Rows(full);
    }

    /** The loop over one snapshot: its new rows, or, without an equality filter,
        all of them. */
    method JoinBatch(ghost full: TableData, fs: seq<Filter>, eqLeft: seq<string>, eqRight: seq<string>, rowIndex: nat,
                     ghost so: seq<Row>)
      requires WellFormed(leftTable) && Delivers(rightTable, full) && Disjoint(rightTable, leftTable)
      requires rowIndex < rightTable.rowCount
      requires eqLeft == EqLeft(fs) && eqRight == EqRight(fs)
      requires FilterColumns(fs, SchemaOf(leftTable), SchemaOf(rightTable))
      requires Indexes(hashTable, Rows(leftTable), eqLeft)
      requires eqLeft != [] ==> so == JoinRightMajor(Rows(leftTable), Rows(full)[..rowIndex], HashLeft(fs))
      requires if rowIndex > 0 then Joined(targetTable, leftTable, full, rowIndex, so)
               else so == [] && targetTable == TableData(SetTypes(SetTypes(map[], leftTable), rightTable), 0)
      modifies this`targetTable, this`hashTable
      ensures Indexes(hashTable, Rows(leftTable), eqLeft)
      ensures Joined(targetTable, leftTable, full, rightTable.rowCount,
        NextOutput(leftTable, full, rightTable.rowCount, so, fs))
    {
      if rowIndex == 0 {
        TypesOfBoth(leftTable, rightTable);
      }
      if |eqLeft| != 0 {
        ghost var emit := JoinEmit(Rows(leftTable), Rows(full), HashLeft(fs));
        JoinIsFlattened(Rows(leftTable), Rows(full), rowIndex, HashLeft(fs), emit);
        JoinIsFlattened(Rows(leftTable), Rows(full), rightTable.rowCount, HashLeft(fs), emit);
        JoinRows(full, fs, eqLeft, eqRight, rowIndex, emit);
      } else {
        SnapshotRows(rightTable, full);
        RejoinSnapshot(fs, so);
      }
    }

    /** Without an equality filter: two nested loops over the whole snapshot. */
    method RejoinSnapshot(fs: seq<Filter>, ghost base: seq<Row>)
      requires WellFormed(leftTable) && WellFormed(rightTable) && Disjoint(rightTable, leftTable)
      requires FilterColumns(fs, SchemaOf(leftTable), SchemaOf(rightTable)) && EqLeft(fs) == []
      requires Represents(targetTable, SchemaOf(rightTable) + SchemaOf(leftTable), base)
      modifies this`targetTable
      ensures Represents(targetTable, SchemaOf(rightTable) + SchemaOf(leftTable),
                         base + JoinLeftMajor(Rows(leftTable), Rows(rightTable), HashLeft(fs)))
    {
      ghost var rows, test, schema := Rows(leftTable), HashLeft(fs), SchemaOf(rightTable) + SchemaOf(leftTable);
      assert base + [] == base;
      for r1 := 0 to leftTable.rowCount
        invariant Represents(targetTable, schema, base + JoinLeftMajor(rows[..r1], Rows(rightTable), test))
      {
        RejoinOneLeft(fs, r1, base + JoinLeftMajor(rows[..r1], Rows(rightTable), test));
        LeftMajorOneMore(rows, r1, Rows(rightTable), test, base);
      }
      assert rows[..leftTable.rowCount] == rows;
    }

    method RejoinOneLeft(fs: seq<Filter>, r1: nat, ghost base: seq<Row>)
      requires WellFormed(leftTable) && WellFormed(rightTable) && Disjoint(rightTable, leftTable)
      requires r1 < leftTable.rowCount
      requires FilterColumns(fs, SchemaOf(leftTable), SchemaOf(rightTable)) && EqLeft(fs) == []
      requires Represents(targetTable, SchemaOf(rightTable) + SchemaOf(leftTable), base)
      modifies this`targetTable
      ensures Represents(targetTable, SchemaOf(rightTable) + SchemaOf(leftTable),
                         base + MatchesOfLeft(RowAt(leftTable, r1), Rows(rightTable), HashLeft(fs)))
    {
      ghost var l, streamed, test := RowAt(leftTable, r1), Rows(rightTable), HashLeft(fs);
      assert base + [] == base;
      for r2 := 0 to rightTable.rowCount
        invariant Represents(targetTable, SchemaOf(rightTable) + SchemaOf(leftTable),
                             base + MatchesOfLeft(l, streamed[..r2], test))
      {
        MatchesOneMore(l, streamed, r2, test, base);
        WithoutEqualities(fs, l, streamed[r2]);
        JoinCandidate(fs, r1, r2, base + MatchesOfLeft(l, streamed[..r2], test));
      }
      assert streamed[..rightTable.rowCount] == streamed;
    }

    /** The row loop; `emit[r]` is what row `r` contributes. */
    method JoinRows(ghost full: TableData, fs: seq<Filter>, ghost eqLeft: seq<string>, eqRight: seq<string>,
                    rowIndex: nat,
                    ghost emit: seq<seq<Row>>)
      requires WellFormed(leftTable) && Delivers(rightTable, full) && Disjoint(rightTable, leftTable)
      requires eqLeft == EqLeft(fs) && eqRight == EqRight(fs) && rowIndex <= rightTable.rowCount
      requires FilterColumns(fs, SchemaOf(leftTable), SchemaOf(rightTable))
      requires Indexes(hashTable, Rows(leftTable), eqLeft)
      requires JoinEmits(emit, Rows(leftTable), Rows(full), HashLeft(fs))
      requires Represents(targetTable, SchemaOf(rightTable) + SchemaOf(leftTable), Flatten(emit[..rowIndex]))
      modifies this`targetTable, this`hashTable
      ensures Indexes(hashTable, Rows(leftTable), eqLeft)
      ensures Represents(targetTable, SchemaOf(rightTable) + SchemaOf(leftTable), Flatten(emit[..rightTable.rowCount]))
    {
      for r := rowIndex to rightTable.rowCount
        invariant Indexes(hashTable, Rows(leftTable), eqLeft)
        invariant Represents(targetTable, SchemaOf(rightTable) + SchemaOf(leftTable), Flatten(emit[..r]))
      {
        assert emit[r] == MatchesOfRight(Rows(leftTable), Rows(full)[r], HashLeft(fs));
        JoinStreamedRow(fs, eqLeft, eqRight, r, Flatten(emit[..r]));
        FlattenOneMore(emit, r + 1);
      }
    }

    method JoinStreamedRow(fs: seq<Filter>, ghost eqLeft: seq<string>, eqRight: seq<string>, r: nat,
                           ghost base: seq<Row>)
      requires WellFormed(leftTable) && WellFormed(rightTable) && r < rightTable.rowCount
      requires Disjoint(rightTable, leftTable)
      requires eqLeft == EqLeft(fs) && eqRight == EqRight(fs)
      requires FilterColumns(fs, SchemaOf(leftTable), SchemaOf(rightTable))
      requires Indexes(hashTable, Rows(leftTable), eqLeft)
      requires Represents(targetTable, SchemaOf(rightTable) + SchemaOf(leftTable), base)
      modifies this`targetTable, this`hashTable
      ensures Indexes(hashTable, Rows(leftTable), eqLeft)
      ensures Represents(targetTable, SchemaOf(rightTable) + SchemaOf(leftTable),
                         base + MatchesOfRight(Rows(leftTable), RowAt(rightTable, r), HashLeft(fs)))
    {
      EqColumnsExist(fs, SchemaOf(leftTable), SchemaOf(rightTable));
      var key := HashKey(rightTable, eqRight, r, false);
      WalkBucketIsHashMatch(Rows(leftTable), RowAt(rightTable, r), fs);
      JoinOneRight(fs, eqLeft, key, r, base);
    }

    /** The loop over the bucket of one right row. `hash_table_[key]` inserts an
        empty bucket for a key that is not there. */
    method JoinOneRight(fs: seq<Filter>, ghost eqLeft: seq<string>, key: string, r: nat, ghost base: seq<Row>)
      requires WellFormed(leftTable) && WellFormed(rightTable) && r < rightTable.rowCount
      requires Disjoint(rightTable, leftTable)
      requires FilterColumns(fs, SchemaOf(leftTable), SchemaOf(rightTable))
      requires Indexes(hashTable, Rows(leftTable), eqLeft)
      requires Represents(targetTable, SchemaOf(rightTable) + SchemaOf(leftTable), base)
      modifies this`targetTable, this`hashTable
      ensures Indexes(hashTable, Rows(leftTable), eqLeft)
      ensures Represents(targetTable, SchemaOf(rightTable) + SchemaOf(leftTable),
                         base + WalkBucket(Rows(leftTable), Bucket(Rows(leftTable), eqLeft, key), RowAt(rightTable, r),
                           fs))
    {
      IndexesKeepsEmpty(hashTable, Rows(leftTable), eqLeft, key);
      if key !in hashTable {
        hashTable := hashTable[key := []];
      }
      JoinBucket(fs, hashTable[key], r, base);
    }

    method JoinBucket(fs: seq<Filter>, bucket: seq<nat>, r: nat, ghost base: seq<Row>)
      requires WellFormed(leftTable) && WellFormed(rightTable) && r < rightTable.rowCount
      requires Disjoint(rightTable, leftTable)
      requires FilterColumns(fs, SchemaOf(leftTable), SchemaOf(rightTable))
      requires forall k :: 0 <= k < |bucket| ==> bucket[k] < leftTable.rowCount
      requires Represents(targetTable, SchemaOf(rightTable) + SchemaOf(leftTable), base)
      modifies this`targetTable
      ensures Represents(targetTable, SchemaOf(rightTable) + SchemaOf(leftTable),
                         base + WalkBucket(Rows(leftTable), bucket, RowAt(rightTable, r), fs))
    {
      ghost var rows, row := Rows(leftTable), RowAt(rightTable, r);
      assert base + [] == base;
      for i := 0 to |bucket|
        invariant Represents(targetTable, SchemaOf(rightTable) + SchemaOf(leftTable),
                             base + WalkBucket(rows, bucket[..i], row, fs))
      {
        JoinBucketEntry(fs, bucket, i, r, base);
      }
      assert bucket[..|bucket|] == bucket;
    }

    method JoinBucketEntry(fs: seq<Filter>, bucket: seq<nat>, i: nat, r: nat, ghost base: seq<Row>)
      requires WellFormed(leftTable) && WellFormed(rightTable) && r < rightTable.rowCount
      requires Disjoint(rightTable, leftTable)
      requires FilterColumns(fs, SchemaOf(leftTable), SchemaOf(rightTable))
      requires i < |bucket| && forall k :: 0 <= k < |bucket| ==> bucket[k] < leftTable.rowCount
      requires Represents(targetTable, SchemaOf(rightTable) + SchemaOf(leftTable),
                          base + WalkBucket(Rows(leftTable), bucket[..i], RowAt(rightTable, r), fs))
      modifies this`targetTable
      ensures Represents(targetTable, SchemaOf(rightTable) + SchemaOf(leftTable),
                         base + WalkBucket(Rows(leftTable), bucket[..i + 1], RowAt(rightTable, r), fs))
    {
      JoinCandidate(fs, bucket[i], r, base + WalkBucket(Rows(leftTable), bucket[..i], RowAt(rightTable, r), fs));
      WalkBucketStep(Rows(leftTable), bucket, i, RowAt(rightTable, r), fs, base);
    }

    /** One candidate pair: the non-equality filters decide. */
    method JoinCandidate(fs: seq<Filter>, l: nat, r: nat, ghost so: seq<Row>)
      requires WellFormed(leftTable) && l < leftTable.rowCount
      requires WellFormed(rightTable) && r < rightTable.rowCount
      requires Disjoint(rightTable, leftTable)
      requires FilterColumns(fs, SchemaOf(leftTable), SchemaOf(rightTable))
      requires Represents(targetTable, SchemaOf(rightTable) + SchemaOf(leftTable), so)
      modifies this`targetTable
      ensures Represents(targetTable, SchemaOf(rightTable) + SchemaOf(leftTable),
        so + if PassesNonEquality(fs, RowAt(leftTable, l), RowAt(rightTable, r))
             then [RowAt(leftTable, l) + RowAt(rightTable, r)] else [])
    {
      var passed := TestNonEquality(fs, leftTable, l, rightTable, r);
      if passed {
        EmitPair(rightTable, r, r, leftTable, l, l, so);
      } else {
        assert so + [] == so;
      }
    }

    /** A row of one table (with the null flags of its row `fa`) beside a row of
        another, appended to the target: the two column loops of a join. */
    method EmitPair(a: TableData, ra: nat, fa: nat, b: TableData, rb: nat, fb: nat, ghost so: seq<Row>)
      requires WellFormed(a) && ra < a.rowCount && fa < a.rowCount
      requires WellFormed(b) && rb < b.rowCount && fb < b.rowCount
      requires Disjoint(a, b)
      requires Represents(targetTable, SchemaOf(a) + SchemaOf(b), so)
      modifies this`targetTable
      ensures Represents(targetTable, SchemaOf(a) + SchemaOf(b),
        so + [RowWithFlags(b, rb, fb) + RowWithFlags(a, ra, fa)])
      ensures RowWithFlags(b, rb, fb) + RowWithFlags(a, ra, fa) == RowWithFlags(a, ra, fa) + RowWithFlags(b, rb, fb)
      ensures ra == fa ==> RowWithFlags(a, ra, fa) == RowAt(a, ra)
      ensures rb == fb ==> RowWithFlags(b, rb, fb) == RowAt(b, rb)
    {
      ghost var x, y := RowWithFlags(a, ra, fa), RowWithFlags(b, rb, fb);
      OwnFlags(a, ra);
      OwnFlags(b, rb);
      SideBySide(x, y);
      var cols := PushColumns(targetTable.columns, a, ra, fa);
      cols := PushColumns(cols, b, rb, fb);
      JoinRow(targetTable, so, SchemaOf(a), x, SchemaOf(b), y);
      targetTable := TableData(cols, targetTable.rowCount + 1);
    }

    /** The plain form: two nested loops over the tables already in place. */
    method InnerJoinNestedLoop(fs: seq<Filter>)
      requires targetTable == EMPTY_TABLE
      requires WellFormed(leftTable) && WellFormed(rightTable) && Disjoint(rightTable, leftTable)
      requires ConditionColumns(fs, SchemaOf(leftTable), SchemaOf(rightTable))
      modifies this`targetTable
      ensures Represents(targetTable, SchemaOf(rightTable) + SchemaOf(leftTable),
                         JoinLeftMajor(Rows(leftTable), Rows(rightTable), ByLoop(fs)))
      ensures WellFormed(targetTable)
      ensures Rows(targetTable) == JoinLeftMajor(Rows(leftTable), Rows(rightTable), ByLoop(fs))
    {
      var types := CopyTypes(targetTable.columns, leftTable);
      types := CopyTypes(types, rightTable);
      targetTable := targetTable.(columns := types);
      TypesOfBoth(leftTable, rightTable);
      ghost var rows, schema := Rows(leftTable), SchemaOf(rightTable) + SchemaOf(leftTable);
      for r1 := 0 to leftTable.rowCount
        invariant Represents(targetTable, schema, JoinLeftMajor(rows[..r1], Rows(rightTable), ByLoop(fs)))
      {
        ghost var base := JoinLeftMajor(rows[..r1], Rows(rightTable), ByLoop(fs));
        NestedLoopOneLeft(fs, r1, base);
        assert rows[..r1 + 1][..r1] == rows[..r1];
      }
      assert rows[..leftTable.rowCount] == rows;
      RepresentsRows(targetTable, schema, JoinLeftMajor(rows, Rows(rightTable), ByLoop(fs)));
    }

    method NestedLoopOneLeft(fs: seq<Filter>, r1: nat, ghost base: seq<Row>)
      requires WellFormed(leftTable) && WellFormed(rightTable) && Disjoint(rightTable, leftTable)
      requires r1 < leftTable.rowCount
      requires ConditionColumns(fs, SchemaOf(leftTable), SchemaOf(rightTable))
      requires Represents(targetTable, SchemaOf(rightTable) + SchemaOf(leftTable), base)
      modifies this`targetTable
      ensures Represents(targetTable, SchemaOf(rightTable) + SchemaOf(leftTable),
                         base + MatchesOfLeft(RowAt(leftTable, r1), Rows(rightTable), ByLoop(fs)))
    {
      ghost var l, streamed := RowAt(leftTable, r1), Rows(rightTable);
      assert base + [] == base;
      for r2 := 0 to rightTable.rowCount
        invariant Represents(targetTable, SchemaOf(rightTable) + SchemaOf(leftTable),
                             base + MatchesOfLeft(l, streamed[..r2], ByLoop(fs)))
      {
        ghost var so := base + MatchesOfLeft(l, streamed[..r2], ByLoop(fs));
        MatchesOneMore(l, streamed, r2, ByLoop(fs), base);
        var passed := TestConditions(fs, leftTable, r1, rightTable, r2);
        if passed {
          EmitPair(rightTable, r2, r2, leftTable, r1, r1, so);
        } else {
          assert so + [] == so;
        }
      }
      assert streamed[..rightTable.rowCount] == streamed;
    }

    // ------------------------------------------------------- left outer join

    /** Left outer join: hash table on the finished right table, the left table
        read while it grows. Only equality filters take part. */
    method LeftOuterJoinHash(right: TableData, feed: seq<Snapshot>, ghost full: TableData, fs: seq<Filter>)
      requires targetTable == EMPTY_TABLE && hashTable == map[]
      requires WellFormed(right) && GrowingFeed(feed, full)
      requires Disjoint(full, right)
      requires FilterColumns(fs, SchemaOf(full), SchemaOf(right))
      modifies this
      ensures hashTable == map[]
      ensures OuterJoined(targetTable, full, right, full.rowCount, fs)
      ensures WellFormed(targetTable)
      ensures Rows(targetTable) == OuterAsWritten(Rows(full), Rows(right), fs, NullRow(SchemaOf(right)))
    {
      var rowIndex, first, k := 0, true, 0;
      rightTable := right;
      var types := CopyTypes(targetTable.columns, rightTable);
      targetTable := targetTable.(columns := types);
      var eqLeft, eqRight := EqualJoinColumns(fs);
      EqColumnsExist(fs, SchemaOf(full), SchemaOf(right));
      hashTable := CreateHashTable(rightTable, eqRight);
      while true
        invariant k < |feed| && rightTable == right
        invariant 0 <= rowIndex <= full.rowCount && rowIndex == Seen(feed, k)
        invariant Indexes(hashTable, Rows(right), eqRight) && NoEmptyBucket(hashTable)
        invariant first <==> rowIndex == 0
        invariant OuterJoined(targetTable, full, right, rowIndex, fs)
        decreases |feed| - k
      {
        var done: bool;
        leftTable, done, k := NextBatch(feed, full, k, rowIndex);
        if rowIndex == leftTable.rowCount {
          break;
        }
        if first {
          types := CopyTypes(targetTable.columns, leftTable);
          targetTable := targetTable.(columns := types);
          first := false;
        }
        OuterBatch(full, fs, eqLeft, eqRight, rowIndex);
        rowIndex := leftTable.rowCount;
        if done {
          break;
        }
      }
      hashTable := map[];
      OuterJoinedRows(targetTable, full, right, fs);
    }

    method OuterBatch(ghost full: TableData, fs: seq<Filter>, eqLeft: seq<string>, ghost eqRight: seq<string>,
                      rowIndex: nat)
      requires WellFormed(rightTable) && Delivers(leftTable, full) && Disjoint(leftTable, rightTable)
      requires rowIndex < leftTable.rowCount
      requires eqLeft == EqLeft(fs) && eqRight == EqRight(fs)
      requires FilterColumns(fs, SchemaOf(leftTable), SchemaOf(rightTable))
      requires Indexes(hashTable, Rows(rightTable), eqRight) && NoEmptyBucket(hashTable)
      requires if rowIndex > 0 then OuterJoined(targetTable, full, rightTable, rowIndex, fs)
               else targetTable == TableData(SetTypes(SetTypes(map[], rightTable), leftTable), 0)
      modifies this`targetTable
      ensures OuterJoined(targetTable, full, rightTable, leftTable.rowCount, fs)
    {
      EqColumnsExist(fs, SchemaOf(leftTable), SchemaOf(rightTable));
      if rowIndex == 0 {
        TypesOfBoth(rightTable, leftTable);
      }
      ghost var nulls := NullRow(SchemaOf(rightTable));
      ghost var emit := OuterEmit(Rows(full), Rows(rightTable), fs, nulls);
      OuterIsFlattened(Rows(full), rowIndex, Rows(rightTable), fs, nulls, emit);
      OuterIsFlattened(Rows(full), leftTable.rowCount, Rows(rightTable), fs, nulls, emit);
      OuterRows(full, fs, eqLeft, eqRight, rowIndex, emit);
    }

    /** The row loop; `emit[r]` is what row `r` contributes. */
    method OuterRows(ghost full: TableData, ghost fs: seq<Filter>, eqLeft: seq<string>, ghost eqRight: seq<string>,
                     rowIndex: nat,
                     ghost emit: seq<seq<Row>>)
      requires OuterReady(leftTable, rightTable, hashTable, full, fs, eqLeft, eqRight)
      requires Emits(emit, Rows(full), Rows(rightTable), fs, NullRow(SchemaOf(rightTable)))
      requires rowIndex <= leftTable.rowCount
      requires Represents(targetTable, SchemaOf(leftTable) + SchemaOf(rightTable), Flatten(emit[..rowIndex]))
      modifies this`targetTable
      ensures Represents(targetTable, SchemaOf(leftTable) + SchemaOf(rightTable), Flatten(emit[..leftTable.rowCount]))
    {
      for r := rowIndex to leftTable.rowCount
        invariant Represents(targetTable, SchemaOf(leftTable) + SchemaOf(rightTable), Flatten(emit[..r]))
      {
        OuterStreamedRow(full, fs, eqLeft, eqRight, r, emit);
      }
    }

    method OuterStreamedRow(ghost full: TableData, ghost fs: seq<Filter>, eqLeft: seq<string>,
                            ghost eqRight: seq<string>, r: nat,
                            ghost emit: seq<seq<Row>>)
      requires OuterReady(leftTable, rightTable, hashTable, full, fs, eqLeft, eqRight)
      requires Emits(emit, Rows(full), Rows(rightTable), fs, NullRow(SchemaOf(rightTable)))
      requires r < leftTable.rowCount
      requires Represents(targetTable, SchemaOf(leftTable) + SchemaOf(rightTable), Flatten(emit[..r]))
      modifies this`targetTable
      ensures Represents(targetTable, SchemaOf(leftTable) + SchemaOf(rightTable), Flatten(emit[..r + 1]))
    {
      assert emit[r] == OuterRowAsWritten(Rows(full)[r], Rows(rightTable), fs, NullRow(SchemaOf(rightTable)));
      OuterOneLeft(fs, eqLeft, eqRight, r, Flatten(emit[..r]));
      FlattenOneMore(emit, r + 1);
    }

    method OuterOneLeft(ghost fs: seq<Filter>, eqLeft: seq<string>, ghost eqRight: seq<string>, r: nat,
                        ghost so: seq<Row>)
      requires WellFormed(leftTable) && WellFormed(rightTable) && Disjoint(leftTable, rightTable)
      requires r < leftTable.rowCount
      requires eqLeft == EqLeft(fs) && eqRight == EqRight(fs)
      requires InSchema(eqLeft, SchemaOf(leftTable))
      requires Indexes(hashTable, Rows(rightTable), eqRight) && NoEmptyBucket(hashTable)
      requires Represents(targetTable, SchemaOf(leftTable) + SchemaOf(rightTable), so)
      modifies this`targetTable
      ensures Represents(targetTable, SchemaOf(leftTable) + SchemaOf(rightTable),
        so + OuterRowAsWritten(RowAt(leftTable, r), Rows(rightTable), fs, NullRow(SchemaOf(rightTable))))
    {
      var key := HashKey(leftTable, eqLeft, r, false);
      ghost var l, rows, nulls := RowAt(leftTable, r), Rows(rightTable), NullRow(SchemaOf(rightTable));
      OuterCases(hashTable, l, rows, fs, nulls, key);
      if key in hashTable {
        WalkEntries(l, rows, hashTable[key], |hashTable[key]|);
        OuterMatches(hashTable[key], r, so, OuterRowAsWritten(l, rows, fs, nulls));
      } else {
        OuterNoMatch(r, so, OuterRowAsWritten(l, rows, fs, nulls));
      }
    }

    /** A matched left row beside every row of the bucket; the null flags of the
        right half are read at the bucket position (line 1501). */
    method OuterMatches(bucket: seq<nat>, r: nat, ghost so: seq<Row>, ghost emitted: seq<Row>)
      requires WellFormed(leftTable) && WellFormed(rightTable) && Disjoint(leftTable, rightTable)
      requires r < leftTable.rowCount
      requires |bucket| <= rightTable.rowCount
      requires forall k :: 0 <= k < |bucket| ==> bucket[k] < rightTable.rowCount
      requires Represents(targetTable, SchemaOf(leftTable) + SchemaOf(rightTable), so)
      requires IsWalk(emitted, RowAt(leftTable, r), Rows(rightTable), bucket)
      modifies this`targetTable
      ensures Represents(targetTable, SchemaOf(leftTable) + SchemaOf(rightTable), so + emitted)
    {
      assert so + [] == so;
      for i := 0 to |bucket|
        invariant Represents(targetTable, SchemaOf(leftTable) + SchemaOf(rightTable), so + emitted[..i])
      {
        OuterMatch(bucket, i, r, so + emitted[..i], emitted[i]);
        assert so + emitted[..i + 1] == so + emitted[..i] + [emitted[i]];
      }
      assert emitted[..|emitted|] == emitted;
    }

    method OuterMatch(bucket: seq<nat>, i: nat, r: nat, ghost so: seq<Row>, ghost emitted: Row)
      requires WellFormed(leftTable) && WellFormed(rightTable) && Disjoint(leftTable, rightTable)
      requires r < leftTable.rowCount
      requires i < |bucket| <= rightTable.rowCount && bucket[i] < rightTable.rowCount
      requires emitted == RowAt(leftTable, r) + RightAsWritten(Rows(rightTable), bucket, i)
      requires Represents(targetTable, SchemaOf(leftTable) + SchemaOf(rightTable), so)
      modifies this`targetTable
      ensures Represents(targetTable, SchemaOf(leftTable) + SchemaOf(rightTable), so + [emitted])
    {
      EmitPair(leftTable, r, r, rightTable, bucket[i], i, so);
      FlagsOfPosition(rightTable, bucket, i);
    }

    /** An unmatched left row beside nulls. */
    method OuterNoMatch(r: nat, ghost so: seq<Row>, ghost emitted: seq<Row>)
      requires WellFormed(leftTable) && WellFormed(rightTable) && Disjoint(leftTable, rightTable)
      requires r < leftTable.rowCount
      requires Represents(targetTable, SchemaOf(leftTable) + SchemaOf(rightTable), so)
      requires emitted == [RowAt(leftTable, r) + NullRow(SchemaOf(rightTable))]
      modifies this`targetTable
      ensures Represents(targetTable, SchemaOf(leftTable) + SchemaOf(rightTable), so + emitted)
    {
      OwnFlags(leftTable, r);
      RowsAreTyped(leftTable, r, r);
      var cols := PushColumns(targetTable.columns, leftTable, r, r);
      cols := PushNullColumns(cols, rightTable);
      JoinRow(targetTable, so, SchemaOf(leftTable), RowAt(leftTable, r), SchemaOf(rightTable),
        NullRow(SchemaOf(rightTable)));
      targetTable := TableData(cols, targetTable.rowCount + 1);
    }

    // ------------------------------------------------------------ semi joins

    /** `IN` (or `NOT IN`) against the finished right table, with a hash table. */
    method In(right: TableData, feed: seq<Snapshot>, ghost full: TableData, f: Filter)
      requires targetTable == EMPTY_TABLE && hashTable == map[]
      requires WellFormed(right) && GrowingFeed(feed, full)
      requires f.lv in full.columns && f.rv in right.columns
      modifies this
      ensures WellFormed(targetTable)
      ensures Rows(targetTable) == SemiJoin(Rows(full), Rows(right), HashRight([f.(op := EQ)]), f.op.NOTIN?)
    {
      ghost var test := HashRight([f.(op := EQ)]);
      var rowIndex, first, k := 0, true, 0;
      rightTable := right;
      hashTable := CreateHashTable(rightTable, [f.rv]);
      while true
        invariant k < |feed| && rightTable == right
        invariant 0 <= rowIndex <= full.rowCount && rowIndex == Seen(feed, k)
        invariant Indexes(hashTable, Rows(right), [f.rv]) && NoEmptyBucket(hashTable)
        invariant first <==> rowIndex == 0
        invariant Kept(targetTable, full, rowIndex, SemiJoin(Rows(full)[..rowIndex], Rows(right), test, f.op.NOTIN?))
        decreases |feed| - k
      {
        var done: bool;
        leftTable, done, k := NextBatch(feed, full, k, rowIndex);
        if rowIndex == leftTable.rowCount {
          break;
        }
        if first {
          StartKeeping();
          first := false;
        }
        InBatch(full, f, rowIndex);
        rowIndex := leftTable.rowCount;
        if done {
          break;
        }
      }
      assert Rows(full)[..full.rowCount] == Rows(full);
      KeptRows(targetTable, full, SemiJoin(Rows(full), Rows(right), test, f.op.NOTIN?));
    }

    method InBatch(ghost full: TableData, f: Filter, rowIndex: nat)
      requires WellFormed(rightTable) && Delivers(leftTable, full)
      requires rowIndex < leftTable.rowCount
      requires f.lv in leftTable.columns
      requires Indexes(hashTable, Rows(rightTable), [f.rv]) && NoEmptyBucket(hashTable)
      requires Represents(targetTable, SchemaOf(leftTable),
                          SemiJoin(Rows(full)[..rowIndex], Rows(rightTable), HashRight([f.(op := EQ)]), f.op.NOTIN?))
      modifies this`targetTable
      ensures Represents(targetTable, SchemaOf(leftTable),
                         SemiJoin(Rows(full)[..leftTable.rowCount], Rows(rightTable), HashRight([f.(op := EQ)]),
                           f.op.NOTIN?))
    {
      ghost var test, streamed, rows := HashRight([f.(op := EQ)]), Rows(full), Rows(rightTable);
      for r := rowIndex to leftTable.rowCount
        invariant Represents(targetTable, SchemaOf(leftTable), SemiJoin(streamed[..r], rows, test, f.op.NOTIN?))
      {
        InOneLeft(f, r, SemiJoin(streamed[..r], rows, test, f.op.NOTIN?));
        SemiJoinOneMore(streamed, r, rows, test, f.op.NOTIN?);
      }
    }

    method InOneLeft(f: Filter, r: nat, ghost so: seq<Row>)
      requires WellFormed(leftTable) && WellFormed(rightTable) && r < leftTable.rowCount
      requires f.lv in leftTable.columns
      requires Indexes(hashTable, Rows(rightTable), [f.rv]) && NoEmptyBucket(hashTable)
      requires Represents(targetTable, SchemaOf(leftTable), so)
      modifies this`targetTable
      ensures Represents(targetTable, SchemaOf(leftTable),
        so + if HasMatch(RowAt(leftTable, r), Rows(rightTable), HashRight([f.(op := EQ)])) != f.op.NOTIN?
             then [RowAt(leftTable, r)] else [])
    {
      var passed := true;
      var key := HashKey(leftTable, [f.lv], r, false);
      FoundIffMatch(hashTable, Rows(rightTable), f, RowAt(leftTable, r), key);
      if f.op.NOTIN? {
        passed := if key in hashTable then false else true;
      } else {
        passed := if key in hashTable then true else false;
      }
      if passed {
        EmitLeft(r, so);
      } else {
        assert so + [] == so;
      }
    }

    /** The column types, copied with the first rows. */
    method StartKeeping()
      requires WellFormed(leftTable) && targetTable == EMPTY_TABLE
      modifies this`targetTable
      ensures Represents(targetTable, SchemaOf(leftTable), [])
    {
      var types := CopyTypes(targetTable.columns, leftTable);
      targetTable := targetTable.(columns := types);
      TypesOfOne(leftTable);
    }

    /** The left row itself, appended to the target. */
    method EmitLeft(r: nat, ghost so: seq<Row>)
      requires WellFormed(leftTable) && r < leftTable.rowCount
      requires Represents(targetTable, SchemaOf(leftTable), so)
      modifies this`targetTable
      ensures Represents(targetTable, SchemaOf(leftTable), so + [RowAt(leftTable, r)])
    {
      OwnFlags(leftTable, r);
      RowsAreTyped(leftTable, r, r);
      var cols := PushColumns(targetTable.columns, leftTable, r, r);
      KeepRow(targetTable, SchemaOf(leftTable), so, RowAt(leftTable, r));
      targetTable := TableData(cols, targetTable.rowCount + 1);
    }

    /** Correlated EXISTS (NOT EXISTS when the snippet has filters): a nested
        loop over the finished right table that stops at the first match. The
        flag it reports is only set inside the loop; `unset` is what the
        variable happens to hold for each left row. */
    method DependencyExist(right: TableData, feed: seq<Snapshot>, ghost full: TableData, filtering: seq<Filter>,
                           fs: seq<Filter>, unset: seq<bool>)
      requires targetTable == EMPTY_TABLE
      requires WellFormed(right) && GrowingFeed(feed, full) && |unset| == full.rowCount
      requires DependencyColumns(fs, SchemaOf(full), SchemaOf(right))
      modifies this
      ensures WellFormed(targetTable)
      ensures Rows(targetTable) == ExistJoin(Rows(full), Rows(right), Correlated(fs), unset, filtering != [])
    {
      ghost var test := Correlated(fs);
      var rowIndex, first, k := 0, true, 0;
      rightTable := right;
      var isNot := |filtering| != 0;
      while true
        invariant k < |feed| && rightTable == right
        invariant 0 <= rowIndex <= full.rowCount && rowIndex == Seen(feed, k)
        invariant first <==> rowIndex == 0
        invariant Kept(targetTable, full, rowIndex, ExistJoin(Rows(full)[..rowIndex], Rows(right), test, unset, isNot))
        decreases |feed| - k
      {
        var done: bool;
        leftTable, done, k := NextBatch(feed, full, k, rowIndex);
        if rowIndex == leftTable.rowCount {
          break;
        }
        if first {
          StartKeeping();
          first := false;
        }
        ExistBatch(full, fs, isNot, rowIndex, unset);
        rowIndex := leftTable.rowCount;
        if done {
          break;
        }
      }
      assert Rows(full)[..full.rowCount] == Rows(full);
      KeptRows(targetTable, full, ExistJoin(Rows(full), Rows(right), test, unset, isNot));
    }

    method ExistBatch(ghost full: TableData, fs: seq<Filter>, isNot: bool, rowIndex: nat, unset: seq<bool>)
      requires WellFormed(rightTable) && Delivers(leftTable, full)
      requires rowIndex < leftTable.rowCount && |unset| == full.rowCount
      requires DependencyColumns(fs, SchemaOf(leftTable), SchemaOf(rightTable))
      requires Represents(targetTable, SchemaOf(leftTable),
                          ExistJoin(Rows(full)[..rowIndex], Rows(rightTable), Correlated(fs), unset, isNot))
      modifies this`targetTable
      ensures Represents(targetTable, SchemaOf(leftTable),
                         ExistJoin(Rows(full)[..leftTable.rowCount], Rows(rightTable), Correlated(fs), unset, isNot))
    {
      ghost var test, streamed, rows := Correlated(fs), Rows(full), Rows(rightTable);
      for r1 := rowIndex to leftTable.rowCount
        invariant Represents(targetTable, SchemaOf(leftTable), ExistJoin(streamed[..r1], rows, test, unset, isNot))
      {
        ExistOneLeft(fs, isNot, r1, unset[r1], ExistJoin(streamed[..r1], rows, test, unset, isNot));
        ExistOneMore(streamed, r1, rows, test, unset, isNot);
      }
    }

    method ExistOneLeft(fs: seq<Filter>, isNot: bool, r1: nat, unset: bool, ghost so: seq<Row>)
      requires WellFormed(leftTable) && WellFormed(rightTable)
      requires r1 < leftTable.rowCount
      requires DependencyColumns(fs, SchemaOf(leftTable), SchemaOf(rightTable))
      requires Represents(targetTable, SchemaOf(leftTable), so)
      modifies this`targetTable
      ensures Represents(targetTable, SchemaOf(leftTable),
        so + if Exists(RowAt(leftTable, r1), Rows(rightTable), Correlated(fs), unset) != isNot
             then [RowAt(leftTable, r1)] else [])
    {
      var exist := ScanRight(fs, r1, unset);
      var passed := if isNot then !exist else exist;
      if passed {
        EmitLeft(r1, so);
      } else {
        assert so + [] == so;
      }
    }

    /** The inner loop with its early exit. */
    method ScanRight(fs: seq<Filter>, r1: nat, unset: bool) returns (exist: bool)
      requires WellFormed(leftTable) && WellFormed(rightTable) && r1 < leftTable.rowCount
      requires DependencyColumns(fs, SchemaOf(leftTable), SchemaOf(rightTable))
      ensures exist == Exists(RowAt(leftTable, r1), Rows(rightTable), Correlated(fs), unset)
    {
      exist := unset;
      ghost var l, rows, test := RowAt(leftTable, r1), Rows(rightTable), Correlated(fs);
      for r2 := 0 to rightTable.rowCount
        invariant if r2 == 0 then exist == unset else !exist
        invariant forall j :: 0 <= j < r2 ==> !test(l, rows[j])
      {
        exist := TestDependency(fs, leftTable, r1, rightTable, r2);
        assert exist == test(l, rows[r2]);
        if exist {
          break;
        }
      }
    }

    // ------------------------------------------------------------- union all

    /** UNION ALL: the right table's new rows are appended column by column, columns
        matched by name. Values and null flags do not depend on the batches; the
        columns' own row counts do: every batch adds the whole count of its snapshot. */
    method UnionAll(left: TableData, feed: seq<Snapshot>, ghost full: TableData)
      requires targetTable == EMPTY_TABLE
      requires WellFormed(left) && GrowingFeed(feed, full)
      modifies this
      ensures targetTable.rowCount == left.rowCount + full.rowCount
      ensures GrownAll(targetTable.columns, left, full, full.rowCount)
      ensures WellFormed(Recounted(targetTable)) <==> ColumnsFit(left, full)
      ensures SameColumns(left, full) ==>
        && (forall c :: c in targetTable.columns ==>
              targetTable.columns[c].rowCount == left.rowCount + CountsAdded(feed, |feed|))
        && WellFormed(Recounted(targetTable))
        && Rows(Recounted(targetTable)) == Rows(left) + Rows(full)
    {
      leftTable := left;
      targetTable := targetTable.(columns := leftTable.columns);
      UnionBatches(feed, full);
      targetTable := targetTable.(rowCount := leftTable.rowCount + rightTable.rowCount);
      UnionedGrows(left, feed, full, |feed|);
      UnionIsTableIff(targetTable, left, full);
      if SameColumns(left, full) {
        SeenInFull(feed, full, |feed|);
        UnionedHolds(left, feed, full, |feed|);
        UnitedRows(targetTable, left, full, CountsAdded(feed, |feed|));
      }
    }

    /** The polling loop. */
    method UnionBatches(feed: seq<Snapshot>, ghost full: TableData)
      requires GrowingFeed(feed, full)
      modifies this`targetTable, this`rightTable
      ensures rightTable.rowCount == full.rowCount == Seen(feed, |feed|)
      ensures targetTable.columns == Unioned(old(targetTable.columns), feed, full, |feed|)
    {
      var rowIndex, k := 0, 0;
      ghost var cols := targetTable.columns;
      while true
        invariant k < |feed|
        invariant 0 <= rowIndex == Seen(feed, k)
        invariant targetTable.columns == Unioned(cols, feed, full, k)
        decreases |feed| - k
      {
        var done: bool;
        ghost var before := k;
        rightTable, done, k := NextBatch(feed, full, k, rowIndex);
        UnionSkips(cols, feed, full, before, k - 1);
        if rowIndex == rightTable.rowCount {
          break;
        }
        var out := AppendColumns(targetTable.columns, rightTable, rowIndex);
        targetTable := targetTable.(columns := out);
        rowIndex := rightTable.rowCount;
        if done {
          break;
        }
      }
    }
  }

  // ------------------------------------------------- states between snapshots

  /** The target after `n` rows of the streamed right table, holding `rows`. The
      columns of the right table appear with its first row. */
  ghost predicate Joined(target: TableData, left: TableData, full: TableData, n: nat, rows: seq<Row>)
    requires WellFormed(left) && WellFormed(full) && n <= full.rowCount
  {
    if n == 0 then rows == [] && target == TableData(SetTypes(map[], left), 0)
    else Represents(target, SchemaOf(full) + SchemaOf(left), rows)
  }

  /** What the inner join has emitted after `k` snapshots. */
  ghost function JoinOutput(left: TableData, full: TableData, feed: seq<Snapshot>, k: nat, fs: seq<Filter>): seq<Row>
    requires WellFormed(left) && WellFormed(full) && k <= |feed| && Within(feed, full.rowCount)
  {
    if EqLeft(fs) != [] then JoinRightMajor(Rows(left), Rows(full)[..Seen(feed, k)], HashLeft(fs))
    else Restarted(Rows(left), Rows(full), feed, k, HashLeft(fs))
  }

  /** ... and after one more that shows `n` rows, some of them new. */
  ghost function NextOutput(left: TableData, full: TableData, n: nat, so: seq<Row>, fs: seq<Filter>): seq<Row>
    requires WellFormed(left) && WellFormed(full) && n <= full.rowCount
  {
    if EqLeft(fs) != [] then JoinRightMajor(Rows(left), Rows(full)[..n], HashLeft(fs))
    else so + JoinLeftMajor(Rows(left), Rows(full)[..n], HashLeft(fs))
  }

  lemma {:induction false} OutputStep(left: TableData, full: TableData, feed: seq<Snapshot>, k: nat, next: nat,
                                      fs: seq<Filter>)
    requires WellFormed(left) && WellFormed(full) && k < next <= |feed| && Within(feed, full.rowCount)
    requires forall j :: k <= j < next - 1 ==> !NewRows(feed, j)
    ensures Seen(feed, next) == Seen(feed, k) && !NewRows(feed, next - 1) ==>
      JoinOutput(left, full, feed, next, fs) == JoinOutput(left, full, feed, k, fs)
    ensures NewRows(feed, next - 1) ==>
      JoinOutput(left, full, feed, next, fs)
      == NextOutput(left, full, Seen(feed, next), JoinOutput(left, full, feed, k, fs), fs)
  {
    if EqLeft(fs) == [] {
      SkippedAddNothing(Rows(left), Rows(full), feed, k, next - 1, HashLeft(fs));
    }
  }

  lemma {:induction false} SnapshotRows(t: TableData, full: TableData)
    requires Delivers(t, full)
    ensures Rows(t) == Rows(full)[..t.rowCount]
  {
  }

  lemma {:induction false} NoEqualities(fs: seq<Filter>)
    requires EqLeft(fs) == []
    ensures EqRight(fs) == []
  {
    if fs != [] {
      NoEqualities(fs[..|fs| - 1]);
    }
  }

  lemma {:induction false} WithoutEqualities(fs: seq<Filter>, l: Row, r: Row)
    requires EqLeft(fs) == []
    ensures HashLeft(fs)(l, r) == PassesNonEquality(fs, l, r)
  {
    NoEqualities(fs);
  }

  lemma {:induction false} LeftMajorOneMore(left: seq<Row>, r: nat, right: seq<Row>, t: Test, base: seq<Row>)
    requires r < |left|
    ensures base + JoinLeftMajor(left[..r + 1], right, t)
         == base + JoinLeftMajor(left[..r], right, t) + MatchesOfLeft(left[r], right, t)
  {
    assert left[..r + 1][..r] == left[..r];
  }

  /** The rows of a finished inner join. */
  lemma {:induction false} JoinedRows(target: TableData, left: TableData, full: TableData, rows: seq<Row>)
    requires WellFormed(left) && WellFormed(full)
    requires Joined(target, left, full, full.rowCount, rows)
    ensures WellFormed(target) && Rows(target) == rows
  {
    if full.rowCount == 0 {
      TypesOfOne(left);
      RepresentsRows(target, SchemaOf(left), []);
    } else {
      RepresentsRows(target, SchemaOf(full) + SchemaOf(left), rows);
    }
  }

  lemma {:induction false} RightMajorOneMore(left: seq<Row>, right: seq<Row>, n: nat, t: Test)
    requires 0 < n <= |right|
    ensures JoinRightMajor(left, right[..n], t)
      == JoinRightMajor(left, right[..n - 1], t) + MatchesOfRight(left, right[n - 1], t)
  {
    assert right[..n][..n - 1] == right[..n - 1];
  }

  /** `emit[r]` is the contribution of right row `r`. */
  ghost predicate JoinEmits(emit: seq<seq<Row>>, left: seq<Row>, right: seq<Row>, t: Test) {
    |emit| == |right| && forall r {:trigger MatchesOfRight(left, right[r], t)} :: 0 <= r < |right| ==>
      emit[r] == MatchesOfRight(left, right[r], t)
  }

  ghost function JoinEmit(left: seq<Row>, right: seq<Row>, t: Test): (emit: seq<seq<Row>>)
    ensures JoinEmits(emit, left, right, t)
  {
    seq(|right|, r requires 0 <= r < |right| => MatchesOfRight(left, right[r], t))
  }

  lemma {:induction false} JoinIsFlattened(left: seq<Row>, right: seq<Row>, n: nat, t: Test, emit: seq<seq<Row>>)
    requires n <= |right| && JoinEmits(emit, left, right, t)
    ensures JoinRightMajor(left, right[..n], t) == Flatten(emit[..n])
  {
    if n > 0 {
      JoinIsFlattened(left, right, n - 1, t, emit);
      RightMajorOneMore(left, right, n, t);
      FlattenOneMore(emit, n);
    }
  }

  lemma {:induction false} WalkBucketStep(left: seq<Row>, bucket: seq<nat>, i: nat, r: Row, fs: seq<Filter>,
                                          base: seq<Row>)
    requires i < |bucket|
    requires forall k :: 0 <= k < |bucket| ==> bucket[k] < |left|
    ensures base + WalkBucket(left, bucket[..i + 1], r, fs)
         == base + WalkBucket(left, bucket[..i], r, fs)
            + if PassesNonEquality(fs, left[bucket[i]], r) then [left[bucket[i]] + r] else []
  {
    assert bucket[..i + 1][..i] == bucket[..i];
  }

  lemma {:induction false} MatchesOneMore(l: Row, right: seq<Row>, r: nat, t: Test, base: seq<Row>)
    requires r < |right|
    ensures base + MatchesOfLeft(l, right[..r + 1], t)
         == base + MatchesOfLeft(l, right[..r], t) + if t(l, right[r]) then [l + right[r]] else []
  {
    assert right[..r + 1] == right[..r] + [right[r]];
    MatchesStep(l, right[..r], right[r], t);
  }

  /** The target after `n` rows of the streamed left table. */
  ghost predicate OuterJoined(target: TableData, full: TableData, right: TableData, n: nat, fs: seq<Filter>)
    requires WellFormed(right) && WellFormed(full) && n <= full.rowCount
  {
    if n == 0 then target == TableData(SetTypes(map[], right), 0)
    else Represents(target, SchemaOf(full) + SchemaOf(right),
                    OuterAsWritten(Rows(full)[..n], Rows(right), fs, NullRow(SchemaOf(right))))
  }

  /** Both tables are in place, and the hash table indexes the right one. */
  ghost predicate OuterReady(left: TableData, right: TableData, h: map<string, seq<nat>>, full: TableData,
                             fs: seq<Filter>,
                             eqLeft: seq<string>, eqRight: seq<string>) {
    && WellFormed(right) && Delivers(left, full) && Disjoint(left, right)
    && eqLeft == EqLeft(fs) && eqRight == EqRight(fs) && InSchema(eqLeft, SchemaOf(left))
    && Indexes(h, Rows(right), eqRight) && NoEmptyBucket(h)
  }

  lemma {:induction false} OuterJoinedRows(target: TableData, full: TableData, right: TableData, fs: seq<Filter>)
    requires WellFormed(right) && WellFormed(full)
    requires OuterJoined(target, full, right, full.rowCount, fs)
    ensures WellFormed(target) && Rows(target) == OuterAsWritten(Rows(full), Rows(right), fs, NullRow(SchemaOf(right)))
  {
    assert Rows(full)[..full.rowCount] == Rows(full);
    if full.rowCount == 0 {
      TypesOfOne(right);
      RepresentsRows(target, SchemaOf(right), []);
    } else {
      RepresentsRows(target, SchemaOf(full) + SchemaOf(right),
                     OuterAsWritten(Rows(full), Rows(right), fs, NullRow(SchemaOf(right))));
    }
  }

  /** `find` decides between the bucket and the null row. */
  lemma {:induction false} OuterCases(h: map<string, seq<nat>>, l: Row, right: seq<Row>, fs: seq<Filter>, nulls: Row,
                                      key: string)
    requires Indexes(h, right, EqRight(fs)) && NoEmptyBucket(h) && key == ProbeKey(l, EqLeft(fs))
    ensures key in h ==> |h[key]| <= |right| && forall k :: 0 <= k < |h[key]| ==> h[key][k] < |right|
    ensures key in h ==> OuterRowAsWritten(l, right, fs, nulls) == WalkAsWritten(l, right, h[key], |h[key]|)
    ensures key !in h ==> OuterRowAsWritten(l, right, fs, nulls) == [l + nulls]
  {
    assert Lookup(h, key) == Bucket(right, EqRight(fs), key);
  }

  lemma {:induction false} OuterOneMore(left: seq<Row>, n: nat, right: seq<Row>, fs: seq<Filter>, nulls: Row)
    requires 0 < n <= |left|
    ensures OuterAsWritten(left[..n], right, fs, nulls)
         == OuterAsWritten(left[..n - 1], right, fs, nulls) + OuterRowAsWritten(left[n - 1], right, fs, nulls)
  {
    assert left[..n][..n - 1] == left[..n - 1];
  }

  /** `emit[r]` is the contribution of left row `r`. */
  ghost predicate Emits(emit: seq<seq<Row>>, left: seq<Row>, right: seq<Row>, fs: seq<Filter>, nulls: Row) {
    |emit| == |left| && forall r {:trigger OuterRowAsWritten(left[r], right, fs, nulls)} :: 0 <= r < |left| ==>
      emit[r] == OuterRowAsWritten(left[r], right, fs, nulls)
  }

  ghost function OuterEmit(left: seq<Row>, right: seq<Row>, fs: seq<Filter>, nulls: Row): (emit: seq<seq<Row>>)
    ensures Emits(emit, left, right, fs, nulls)
  {
    seq(|left|, r requires 0 <= r < |left| => OuterRowAsWritten(left[r], right, fs, nulls))
  }

  lemma {:induction false} OuterIsFlattened(left: seq<Row>, n: nat, right: seq<Row>, fs: seq<Filter>, nulls: Row,
                                            emit: seq<seq<Row>>)
    requires n <= |left| && Emits(emit, left, right, fs, nulls)
    ensures OuterAsWritten(left[..n], right, fs, nulls) == Flatten(emit[..n])
  {
    if n > 0 {
      OuterIsFlattened(left, n - 1, right, fs, nulls, emit);
      OuterOneMore(left, n, right, fs, nulls);
      FlattenOneMore(emit, n);
    }
  }

  lemma {:induction false} FlagsOfPosition(right: TableData, bucket: seq<nat>, i: nat)
    requires WellFormed(right) && i < |bucket| <= right.rowCount && bucket[i] < right.rowCount
    ensures RowWithFlags(right, bucket[i], i) == RightAsWritten(Rows(right), bucket, i)
  {
  }

  /** The target of a semi join after `n` rows of the streamed left table. */
  ghost predicate Kept(target: TableData, full: TableData, n: nat, rows: seq<Row>)
    requires WellFormed(full) && n <= full.rowCount
  {
    if n == 0 then rows == [] && target == EMPTY_TABLE else Represents(target, SchemaOf(full), rows)
  }

  lemma {:induction false} KeptRows(target: TableData, full: TableData, rows: seq<Row>)
    requires WellFormed(full) && Kept(target, full, full.rowCount, rows)
    ensures WellFormed(target) && Rows(target) == rows
  {
    if full.rowCount != 0 {
      RepresentsRows(target, SchemaOf(full), rows);
    }
  }

  lemma {:induction false} ExistOneMore(left: seq<Row>, r: nat, right: seq<Row>, t: Test, unset: seq<bool>,
                                        negated: bool)
    requires r < |left| <= |unset|
    ensures ExistJoin(left[..r + 1], right, t, unset, negated)
         == ExistJoin(left[..r], right, t, unset, negated)
            + if Exists(left[r], right, t, unset[r]) != negated then [left[r]] else []
  {
    assert left[..r + 1][..r] == left[..r];
  }

  lemma {:induction false} SemiJoinOneMore(left: seq<Row>, r: nat, right: seq<Row>, t: Test, negated: bool)
    requires r < |left|
    ensures SemiJoin(left[..r + 1], right, t, negated)
         == SemiJoin(left[..r], right, t, negated) + if HasMatch(left[r], right, t) != negated then [left[r]] else []
  {
    assert left[..r + 1][..r] == left[..r];
  }

  /** `find` succeeds exactly when some right row matches. */
  lemma {:induction false} FoundIffMatch(h: map<string, seq<nat>>, right: seq<Row>, f: Filter, l: Row, key: string)
    requires Indexes(h, right, [f.rv]) && NoEmptyBucket(h)
    requires key == ProbeKey(l, [f.lv])
    ensures key in h <==> HasMatch(l, right, HashRight([f.(op := EQ)]))
  {
    var fs := [f.(op := EQ)];
    SingleColumn(fs);
    var b := Bucket(right, [f.rv], key);
    assert Lookup(h, key) == b;
    if key in h {
      assert b != [];
      assert HashRight(fs)(l, right[b[0]]);
    }
    if HasMatch(l, right, HashRight(fs)) {
      var j :| 0 <= j < |right| && HashRight(fs)(l, right[j]);
      BucketComplete(right, [f.rv], key, j);
    }
  }
}
