# A model of the storage-side query executor

The system executes SQL snippets next to computational storage devices (CSDs).
An offloading module assigns the sorted-string tables (SSTs) of a snippet to
replicas and sends each CSD its share. The CSDs return blocks of rows. A merging
module queues and decodes the blocks, and runs joins, grouping, aggregation,
expressions, ordering and limits on columnar tables. A library on the device
side filters rows of a data block and writes the survivors into chunks. This
project models those four parts and proves what they compute.

## How the model is organised

Tables are plain structs that the source copies by value, so `ColData` and
`TableData` are datatypes; `Tables.Rows` is the view of a column table as a
sequence of rows, and every operator is proved against a function on rows.
Objects that hold and update state are classes with the source's fields:
`MergeQueryManager`, `ResultPipeline`, `WorkBuffer`, `KQueue`, `Search`,
`ChunkList`. Loops stay loops, arrays that are filled in place stay arrays.

- `Tables`, `Keys`, `Rounding`, `Filters`, `HashTable`, `Streams`: columns, the
  `|`-joined key, conversion to 32-bit floats, filters, the hash table, and what a
  reader of a growing table sees.
- `Joins`, `Restarts`, `OuterJoin`, `Decorrelation`, `Unions`, `MergeQueryManager`:
  the operators, once as functions on rows and once as the streaming methods.
- `Expressions`, `Patterns`, `Projections`, `TypeInference`: the postfix machine of
  the merging module with its LIKE, CASE, SUBSTRING and EXTRACT on top of it, and the
  two-stack inference of the offloading module over the same tokens.
- `Trimming`, `Grouping`, `Aggregates`, `NullCells`, `Ungrouped`, `Ordering`,
  `ResultPipeline`, `Having`, `QueryRun`, `OrderIndependence`: from a finished table to
  the ordered and cut result.
- `RowCodec`, `Ieee`, `WorkBuffers`, `BufferManager`, `KQueues`, `EndToEnd`: the bytes
  of a row, the work-buffer protocol over all interleavings, the queue, and the
  theorem that the order in which blocks arrive is not visible in the result.
- `Scheduling`, `Dispatch`: replica assignment and the requests sent per CSD.
- `TmaxColumns`, `TmaxCompare`, `TmaxPushdown`: the pushdown library.
- `Permutations`, `Bytes`, `Snippets`, `Wrappers`: shared definitions.

## Main results

- Take any two runs of the work buffer in which the same blocks arrive in any two
  orders, each ending with a block that counts, and a query that groups by columns
  whose keys cannot be confused, projects group columns, counts, distinct counts,
  integer sums, averages, minima and maxima, and orders by every group column. The
  two results are equal, row by row (`EndToEnd.SameBlocksSameResult`).
- Every streaming operator computes, for every way of cutting its streamed table
  into growing snapshots, the same rows as on the whole table, the inner join
  without an equality filter excepted. When the hash joins compute what the nested
  loops compute, and IN keeps the rows that EXISTS keeps, is known exactly.
- Over every interleaving of pushes, pops and merges each block is queued, in the
  merger's hands, or merged, exactly once and in push order; a finished buffer
  has everything exactly when the last block counts for something (or there is
  one block only).
- Grouping, aggregation, HAVING, ORDER BY and LIMIT composed save the rows of the
  result as the code cuts it down (`QueryRun.RunGrouped`, `QueryRun.RunWhole`); that
  these are the rows the query asks for has an exact condition on HAVING and on LIMIT
  (`QueryRun.SavedIsAskedIff`), and so has the case of an empty table
  (`QueryRun.NothingIff`).
- CASE, expressions, LIKE and the types announced for expressions are right exactly
  under stated conditions, for all expressions, patterns and rows.
- The search over replica assignments returns the best score there is, within
  the bound the source states, and what it records along the way is known for all
  inputs; dispatch conserves blocks.
- What comparisons, ORDER BY, LIKE, CASE, SUBSTRING, arithmetic, aggregates, the bytes
  of a field and the count of a request mean is stated on the values themselves, apart
  from the functions that compute it: `Filters.OperatorsMean`, `Ordering.SortedMeans`,
  `Expressions.LikeMeans`, `Projections.CaseTakesBranch`, `Projections.SubstringMeans`,
  `NullCells.NumbersMean`, `WorkBuffers.BlockRoundTrip`, `TmaxCompare.BinaryCondition`,
  `Dispatch.CountMeans`.
- Pushdown over any sequence of blocks returns exactly the live rows that satisfy
  the filter, in order, and its chunks parse back to them; for rows narrower than
  what is wanted the exact condition is known.

## Where the code does not do what it is for

Each of these is kept as written and comes with the exact condition under which
the result is right.

- The left outer join reads the null flag of a matched right row at the row's
  position in its bucket instead of at the row
  (merging_module/merge_query_manager.cc:1501): `OuterJoin.OuterJoinIff`,
  `OuterJoin.OuterJoinTakesWrongFlag`. Its hash form also ignores filters other
  than equalities: `OuterJoin.OuterByFiltersIff`, `OuterJoin.OuterIgnoresFilter`.
- Floats go into keys with six decimals. So 0.0000001 and 0 have one key, in the hash
  joins, in IN and in GROUP BY: `Filters.FloatsPrintAlikeIff`,
  `Joins.HashJoinRefinesNestedLoop`, `Joins.HashJoinRoundsFloats`,
  `Decorrelation.InKeepsMembersIff`, `Grouping.SameGroupIff`.
- NULL takes part with its stored default value in joins (`Joins.NullsJoinIff`,
  `OuterJoin.OuterByFiltersIff`), IN (`Decorrelation.InNullsIff`), GROUP BY
  (`Grouping.SameGroupIff`), HAVING (`Having.MisjudgedIff`) and all aggregates but
  COUNT (`NullCells.SumRightIff`, `NullCells.AvgRightIff`, `NullCells.AvgOfPaddedIff`,
  `NullCells.ExtremeRightIff`, `NullCells.StringMinRightIff`,
  `NullCells.CountDistinctRightIff`,
  `NullCells.PaddedRowCounts`).
- A key tuple of two or more components is identified by its key exactly when no
  component contains `|`: `Keys.KeyIdentifiesIff`.
- The probe side has no DATE case. So a filter list with a DATE equality joins
  nothing when the other probe keys are free of `|`, and is right exactly when no
  pair passes: `Joins.DateKeyNeverMatches`. With a `|` in a string it can join rows
  of different dates: `Joins.DateKeyCanMatch`. The left outer join then pads every
  row, and on dates IN and EXISTS find nothing: `OuterJoin.OuterDatesIff`,
  `Decorrelation.DatesIff`.
- A date condition that comes first lets nothing through the nested loop, and a
  later one everything: `Joins.NestedLoopDatesIff`. The hash join treats them
  differently: `Joins.HashAndLoopIff`.
- The inner join without an equality filter joins every snapshot from row 0 again:
  `Restarts.RestartedIff`.
- EXISTS on an empty right table returns a flag that nobody set:
  `Joins.ExistJoinIff`.
- Correlated EXISTS compares integers narrowed to 32 bits, the hash form of IN
  does not: `Decorrelation.ExistsEqualsInIff`. It compares the default values of
  NULLs, too: `Decorrelation.ExistsNullsIff`.
- UNION ALL advances the columns' own row counts by the whole snapshot:
  `Unions.UnionCountsIff`. The cells and the table's count are right. It unites
  columns by name, not by position, and gives a table only if they fit:
  `Unions.UnionIsTableIff`.
- A float combined with an integer on its right loses its value, and a sum of an
  integer and a float drops the second operand: `Expressions.RightIffSupported`.
- `=` compares the types of its operands with STRING and `<>` never holds:
  `Expressions.EqualIgnoresValues`, `Expressions.EqualIsRightIff`.
- LIKE reads a `%` at the two ends of the pattern only, strips the blanks around
  column and pattern, and throws on a column shorter than the text after a leading
  `%`: `Patterns.LikeIsRightIff`, `Patterns.SuffixIsRightIff`,
  `Patterns.BlankPatternMatchesNothing`, `Patterns.LikeThrowsIff`.
- The condition of a CASE ends at a test that fails before AND, alternatives behind
  an OR unread: `Projections.ChainedIff`, `Projections.BranchIsRightIff`,
  `Projections.AlternativeCutOff`. A date as its result becomes 0:
  `Projections.CopiedIff`.
- AVG of integers divides as an integer and is kept as a 32-bit float:
  `Aggregates.AvgIsMeanIff`. COUNT DISTINCT tells integers apart by their low 32 bits
  and floats by rounding them to 32 bits, and does not count dates:
  `Aggregates.CountDistinctIff`, `NullCells.CountDistinctDatesIff`.
- Over no rows nothing is saved, though aggregates without GROUP BY have one row:
  `QueryRun.NothingIff`, `QueryRun.CountOfNothing`.
- Without GROUP BY, projections of different lengths give no table:
  `Ungrouped.WellFormedIff`.
- The announced type of an expression does not count DECIMAL and float literals. An
  integer plus a decimal is announced as a decimal and computed as an integer, and the
  announced length is too large as soon as two decimals are added or subtracted:
  `TypeInference.InferredAgreesIff`, `TypeInference.InferredScaleAgreesIff`,
  `TypeInference.LiteralIsNotCounted`, `TypeInference.IntegerPlusDecimal`.
- The comparator of ORDER BY ends without a return on rows that agree on all order
  columns: `Ordering.CompareRows`.
- `LIMIT offset, length` saves rows [offset, length) if length fits, and is
  undefined if the offset is behind it: `Ordering.SavedIsLimitIff`. A length of 0 is
  taken for no LIMIT: `QueryRun.SavedIsAskedIff`.
- A string of 1 to 255 characters in a column declared with 256 or more is
  decoded to the empty string: `RowCodec.SlotRoundTripIff`.
- A decimal of more than two fraction digits is read with its fraction lowest byte
  first, and a negative one with seven bytes flipped. What sends it is not part of the
  repository. From a sender that writes this, every decimal is recovered; from any
  other the lost ones are known: `RowCodec.SenderFitsIff`,
  `RowCodec.DecimalRoundTrip`, `RowCodec.DecimalRoundTripIff`,
  `RowCodec.NegativeDecimalLost`.
- A work item whose last blocks count zero can be declared done before they are
  merged: `WorkBuffers.LosslessIff`.
- Signalling only when the queue was empty forgets a sleeping consumer as soon as
  there are two: `KQueues.NoLostWakeUpIff`.
- A filter list with a connector other than AND forgets the test before it, tests on
  dates are skipped, integers are compared by their low 32 bits and floats rounded to
  32 bits, and the strings of the tested columns lose their outer blanks:
  `Having.ConjunctionIff`, `Having.MisjudgedIff`, `Having.FirstTestForgotten`,
  `Having.WideSumFails`, `Having.HundredthFails`, `Having.HavingRightIff`.
- The status-driven choice takes the last replica above -1, which is a best one
  only under a condition: `Scheduling.PickIsBestIff`.
- The search returns the best score, but its record of the selection may be too
  short, or complete and not the best: `Scheduling.RecordIsSelectionIff`,
  `Scheduling.RecordIsBestIff`, `Scheduling.RecordTooShort`,
  `Scheduling.RecordCanBeWorst`.
- A request names the partition of its first replica only:
  `Dispatch.PartitionFitsIff`. If its SSTs mix block lists and whole SSTs, the whole
  ones are dropped: `Dispatch.NothingDroppedIff`.
- The length macros treat first bytes 251 and 252 as long, the data macro as
  short: `TmaxColumns.DataEndsColumnIff`. The character comparison is PAD SPACE
  (section 8.2 of ISO/IEC 9075:1992) exactly when no control character decides:
  `TmaxCompare.CharIsPadSpaceIff`.
- With a column list a row with fewer columns than wanted shows its last column in
  place of the missing ones: `TmaxPushdown.NarrowRowIff`.

## Model

| member | source | states |
|---|---|---|
| Tables.PushColumns | merging_module/merge_query_manager.cc:1199-1233 | the column loops of an operator append exactly one row's cells, with the given null flags, to the columns of its schema and touch no other column |
| Tables.PushNullColumns | merging_module/merge_query_manager.cc:1524-1541 | an unmatched row is padded with default values flagged null |
| Tables.JoinRow | merging_module/merge_query_manager.cc:1199-1233 | pushing two rows onto disjoint columns extends the represented rows by the combined row |
| Tables.RepresentsRows | merging_module/buffer_manager.h:55-71 | aligned columns that hold the cells of some rows are a well-formed table with exactly those rows |
| Keys.ToStringInjective | merging_module/merge_query_manager.cc:860-881 | printed integers are equal only for equal integers and contain no separator |
| Keys.JoinKeyInjective | merging_module/merge_query_manager.cc:2275-2298 | same-arity key tuples, one of them free of the separator, have equal keys only if they are equal |
| Keys.KeyIdentifiesIff | merging_module/merge_query_manager.cc:2275-2298 | a tuple is the only one of its arity with its key exactly when it has at most one component or none contains the separator |
| Keys.PrintedIsRead | merging_module/merge_query_manager.cc:1094-1101 | of a number that is not negative its decimal digits are printed, with no zero in front |
| Keys.AmbiguousTuple | merging_module/merge_query_manager.cc:2275-2298 | for every other tuple a different one with the same key |
| Filters.OperatorsConsistent | merging_module/merge_query_manager.cc:2300-2319 | on two values of one type exactly one of LT, EQ, GT holds and GE, LE, NE are the complements |
| Filters.StrLessIff | merging_module/merge_query_manager.cc:2301-2320 | of two strings the smaller is the one with the smaller character where they differ first, or the one that is a proper prefix of the other |
| Filters.OperatorsMean | merging_module/merge_query_manager.cc:2301-2320 | the six operators compare integers, dates, floats and strings as their names say, the left value with the right one |
| Filters.ConditionMeans | merging_module/merge_query_manager.cc:1167-1195 | a condition compares the column of the left row with the column of the right row |
| Filters.ToInt32Is | merging_module/merge_query_manager.cc:2057-2059 | of an integer beyond 32 bits the one within them is kept that differs from it by a multiple of 2^32 |
| Filters.NarrowConditionMeans | merging_module/merge_query_manager.cc:2046-2079 | in a correlated EXISTS integers, floats, and dates beside them are compared as numbers as far as 24 bits go |
| Filters.NarrowedIsFilterTest | merging_module/merge_query_manager.cc:2034-2085 | on strings and integers within 32 bits the conditions of a correlated EXISTS are tested as the filter list means them, all of them |
| Filters.KeysAgree | merging_module/merge_query_manager.cc:1145-1163 | build and probe keys of a typed row pair agree exactly when all equality filters hold of the values as they are printed |
| Filters.FloatsPrintAlikeIff | merging_module/merge_query_manager.cc:1145-1163 | two floats print alike exactly when they have one sign and round to the same millionths |
| Filters.FloatsPrintAlike | merging_module/merge_query_manager.cc:1145-1163 | 0.0000001 and 0 are different and have one key |
| Filters.HashTestIsFilterTest | merging_module/merge_query_manager.cc:1145-1197 | without dates, equal keys and passed non-equality filters mean that the whole filter list holds, except exactly for pairs with different floats that print alike |
| Filters.HashTestIsLoopTest | merging_module/merge_query_manager.cc:1145-1197 | with date columns among the non-equality filters, and none in the first, they mean what the nested loop tests, with the same exception |
| HashTable.CreateHashTable | merging_module/merge_query_manager.cc:2275-2298 | the hash table has, for every key, exactly the indices of the rows with that key, ascending |
| HashTable.HashKey | merging_module/merge_query_manager.cc:1145-1163 | the probe key is built from the same parts as the build key, without a DATE part |
| HashTable.TestNonEquality | merging_module/merge_query_manager.cc:1165-1197 | the non-equality loop decides whether the non-equality filters hold of the row pair, those on a left date column aside |
| HashTable.TestConditions | merging_module/merge_query_manager.cc:1336-1358 | the condition loop of the nested join: a date condition fails if it comes first and passes otherwise |
| HashTable.TestDependency | merging_module/merge_query_manager.cc:2044-2085 | the dependency loop decides whether the filters hold of the row pair, integers and floats narrowed to 32 bits, an integer beside a float and a date beside a number converted, dates on the left as in the nested join |
| Streams.NextBatch | merging_module/merge_query_manager.cc:1124-1142 | polling skips exactly the snapshots without new rows; a finished table has then been seen in full |
| Streams.FeedIsShort | merging_module/buffer_manager.cc:469-475 | a reader of N rows processes at most floor(N / 1000000) + 1 snapshots |
| Joins.WalkBucketIsHashMatch | merging_module/merge_query_manager.cc:1165-1197 | walking the bucket of the probe key finds exactly the rows that match, in ascending order |
| Joins.LoopOrderIsImmaterial | merging_module/merge_query_manager.cc:1327-1403 | left-major and right-major joins have the same rows with the same multiplicities |
| Joins.HashJoinRefinesNestedLoop | merging_module/merge_query_manager.cc:1116-1237 | without dates the hash join emits the right-major sequence of the simple join, and the multiset of the nested loops, exactly when no joined pair has different floats that print alike |
| Joins.HashJoinRoundsFloats | merging_module/merge_query_manager.cc:1145-1163 | a pair with 0.0000001 and 0 in the key columns is joined by the hash join and not by the filter |
| Joins.NullsJoinIff | merging_module/merge_query_manager.cc:1327-1403 | a comparison with NULL compares its default value; the join is that of SQL exactly when no pair that passes the list has NULL in a compared column |
| Joins.DateKeyNeverMatches | merging_module/merge_query_manager.cc:1145-1163 | a filter list with a DATE equality joins nothing as long as the other probe keys are free of the separator; so it is right exactly when no pair passes the list, and agrees with the nested loop exactly when that joins nothing |
| Joins.DateKeyCanMatch | merging_module/merge_query_manager.cc:1145-1163 | with a separator in a string, rows with different dates and different strings get one key |
| Joins.NestedLoopDatesIff | merging_module/merge_query_manager.cc:1327-1403 | the nested loop joins the rows of the filter list exactly when, with a date condition first, no pair passes the list, and otherwise the pairs that pass the other conditions pass the date conditions |
| Joins.HashAndLoopIff | merging_module/merge_query_manager.cc:1116-1403 | hash join and nested loop join the same rows exactly when, with a date condition first, no pair has equal keys and passes the non-equality filters, and otherwise no joined pair has different floats that print alike |
| Joins.MatchesOfLeftMean | merging_module/merge_query_manager.cc:1327-1403 | the matches of a left row are it beside the right rows that pass the test, once each and in order |
| Joins.MatchesOfRightMean | merging_module/merge_query_manager.cc:1163-1237 | the matches of a right row are the left rows that pass the test, once each and in order, beside it |
| Joins.JoinsMean | merging_module/merge_query_manager.cc:1116-1403 | a join is the matches of one row of its outer loop after the other |
| Joins.SemiJoinSplits | merging_module/merge_query_manager.cc:1829-1849 | IN and NOT IN split the left table exactly |
| Joins.SemiJoinIff | merging_module/merge_query_manager.cc:1829-1849 | two tests, one implying the other, keep the same rows exactly when they agree on which left rows have a match |
| Joins.SemiJoinMeans | merging_module/merge_query_manager.cc:1829-1849 | the semi join keeps, once each and in order, the left rows for which some right row passes the test, and the anti join those for which none does |
| MergeQueryManager.MergeQueryManager.InnerJoinHash | merging_module/merge_query_manager.cc:1103-1325 | for every feed of the right table the output is the hash join of the left table with the whole right table, in right-major order; without an equality filter it is every snapshot joined anew |
| Restarts.RestartedIff | merging_module/merge_query_manager.cc:1239-1313 | joining every snapshot anew gives the join exactly when no row seen before the last snapshot that brought rows joins anything |
| MergeQueryManager.MergeQueryManager.InnerJoinNestedLoop | merging_module/merge_query_manager.cc:1327-1403 | the nested loops emit the left-major join on the filter list as the loop reads it |
| MergeQueryManager.MergeQueryManager.LeftOuterJoinHash | merging_module/merge_query_manager.cc:1405-1553 | for every feed of the left table the output is the left-major outer join as written, null flags at the bucket position |
| MergeQueryManager.MergeQueryManager.In | merging_module/merge_query_manager.cc:1772-1856 | for every feed the output is the semi join (anti join for NOT IN) of the streamed table, in its order |
| MergeQueryManager.MergeQueryManager.DependencyExist | merging_module/merge_query_manager.cc:2008-2113 | for every feed the nested loop with its early exit keeps the rows with (without) a correlated match; on an empty right table a row is kept by whatever the unset flag holds |
| Joins.ExistJoinIff | merging_module/merge_query_manager.cc:2034-2091 | that is the semi join (anti join) exactly when the right table has a row or the flag happens to be false for every left row |
| MergeQueryManager.MergeQueryManager.UnionAll | merging_module/merge_query_manager.cc:1707-1770 | for every feed the columns of both tables are united by name; if both have the same columns, the rows are the left ones followed by all right ones |
| Unions.UnionIsTableIff | merging_module/merge_query_manager.cc:1716-1754 | the result is a table exactly when the right one has no rows, or it has every left column and, unless the left one has no rows, no other column and none of another type |
| Unions.UnionCountsIff | merging_module/merge_query_manager.cc:1716-1754 | the columns' own row counts are right exactly when at most one snapshot brought rows |
| OuterJoin.OuterRowShape | merging_module/merge_query_manager.cc:1446-1543 | a left row appears max(1, matches) times and its right cells are null exactly when nothing matched |
| OuterJoin.OuterJoinSize | merging_module/merge_query_manager.cc:1446-1543 | the outer join has the sum of max(1, matches) rows, at least one per left row |
| OuterJoin.OuterJoinMeans | merging_module/merge_query_manager.cc:1446-1543 | the outer join takes one left row after the other |
| OuterJoin.OuterRowMeans | merging_module/merge_query_manager.cc:1446-1543 | a left row comes out beside the right rows that pass the test, in order, or beside nulls if there is none |
| Tables.NullRowMeans | merging_module/merge_query_manager.cc:1524-1541 | the nulls are empty strings and zeros with the null flag set |
| OuterJoin.OuterJoinIff | merging_module/merge_query_manager.cc:1416-1543 | the code emits the specified outer join exactly when, in every probed bucket, the flags of row i agree with those of the i-th bucketed row |
| OuterJoin.OuterJoinCorrect | merging_module/merge_query_manager.cc:1416-1543 | on a right table without nulls the hash form is the outer join on the equality filters, floats compared as they are printed |
| OuterJoin.OuterByFiltersIff | merging_module/merge_query_manager.cc:1416-1543 | and the outer join on the whole filter list exactly when every pair that passes the printed equality filters passes the list; and that of SQL, where no condition holds of NULL, exactly when such a pair has no NULL there either |
| OuterJoin.OuterDatesIff | merging_module/merge_query_manager.cc:1454-1543 | with a DATE equality and probe keys free of the separator every left row comes out beside nulls, which is right exactly when no pair passes the list |
| OuterJoin.OuterIgnoresFilter | merging_module/merge_query_manager.cc:1458-1503 | a pair with equal keys whose second filter fails is joined all the same |
| OuterJoin.OuterJoinTakesWrongFlag | merging_module/merge_query_manager.cc:1501 | a left row whose only match is the second right row gets the first row's null flag |
| Decorrelation.InKeepsMembersIff | merging_module/merge_query_manager.cc:1783-1849 | without dates, the hash form of IN (NOT IN) keeps exactly the rows whose value occurs (does not occur) on the right, exactly when every left value that prints like a right one equals some right one |
| Decorrelation.InKeepsMembers | merging_module/merge_query_manager.cc:1783-1849 | so always on strings and integers |
| Decorrelation.InNullsIff | merging_module/merge_query_manager.cc:1783-1849 | NULLs are compared by their default values: IN is right exactly when every row with an equal value on the right is not NULL and has an equal one there that is not; NOT IN exactly when every row that meets a NULL has an equal value |
| Decorrelation.DatesIff | merging_module/merge_query_manager.cc:1811-1849 | on date columns IN and EXISTS keep nothing, NOT IN and NOT EXISTS everything, which is right exactly when no left value equals a right one |
| Decorrelation.ExistsEqualsInIff | merging_module/merge_query_manager.cc:2034-2105 | on strings and integers EXISTS and IN (NOT EXISTS and NOT IN) keep the same rows in the same order exactly when narrowing to 32 bits creates no match |
| Decorrelation.ExistsNullsIff | merging_module/merge_query_manager.cc:2034-2105 | on strings and integers EXISTS keeps the rows with a value known to be equal, and NOT EXISTS the others, exactly when every row with a narrowed match is not NULL and has an equal value that is not NULL |
| Decorrelation.ExistsEqualsInOnInt32 | merging_module/merge_query_manager.cc:2034-2105 | on values within 32 bits they always agree |
| Decorrelation.ExistsConfusesWideValues | merging_module/merge_query_manager.cc:2044-2085 | values 2^32 apart exist for each other but are not in each other's table |
| Expressions.Postfix | merging_module/merge_query_manager.cc:631-858 | the stack loop on a row of a table is the stack machine on that row; it faults exactly where C++ throws or is undefined |
| Expressions.RightIffSupported | merging_module/merge_query_manager.cc:691-771 | an operator is right on all operands of two kinds exactly for the combinations the code computes fully |
| Expressions.IntegersMean | merging_module/merge_query_manager.cc:660-771 | an operator between two integers yields their sum, difference, product or truncated quotient, the left one first, and a division by 0 faults |
| Expressions.FloatsMean | merging_module/merge_query_manager.cc:660-771 | the same of two floats, and of an integer on the left of a float but for sums |
| Expressions.DecimalPlacesAre | merging_module/merge_query_manager.h:23-29 | the scale of a float literal is the number of its digits behind the point |
| Expressions.MachineComputesTree | merging_module/merge_query_manager.cc:631-771 | on the flattening of any arithmetic tree of numbers, supported or not, the machine pushes what the branches make of it on an untouched stack, or faults exactly on a division by zero |
| Expressions.MachineEvaluatesTree | merging_module/merge_query_manager.cc:631-771 | on the flattening of any supported tree the machine pushes exactly the tree's value on an untouched stack |
| Expressions.TreeThenRest | merging_module/merge_query_manager.cc:631-771 | whatever tokens follow, they run on that value on top of the untouched rest |
| Expressions.PostfixIsEval | merging_module/merge_query_manager.cc:631-858 | the result on a flattened tree is the direct evaluation of the tree |
| Expressions.HasValueIff | merging_module/merge_query_manager.cc:631-771 | a tree of numbers has such a value exactly if all its operators are computed fully and the machine does not fault on it |
| Expressions.EqualIgnoresValues | merging_module/merge_query_manager.cc:772-793 | whatever the two topmost operands are, `=` pushes whether both are strings and `<>` pushes false |
| Expressions.EqualIsRightIff | merging_module/merge_query_manager.cc:772-793 | so `=` is right on two strings exactly if they are equal, on other values of one type exactly if they differ, and `<>` exactly on equal values |
| Expressions.LikeMeans | merging_module/merge_query_manager.cc:794-820 | LIKE on a column and a pattern has the meaning of SQL on trimmed columns and trimmed simple patterns, the column on the left, and faults exactly on the empty pattern and on a column shorter than the text after a leading `%` |
| Patterns.LikeIsRightIff | merging_module/merge_query_manager.cc:794-820 | on the columns without outer blanks LIKE has the meaning of SQL exactly for the patterns `%s%`, `s%` and `s` without outer blanks and further wildcards; on all columns exactly for `%s%` where `s` has no outer blanks either |
| Patterns.SuffixIsRightIff | merging_module/merge_query_manager.cc:805-808 | for a pattern `%s` with a plain `s` it is right exactly on the columns that, stripped, are not shorter than `s`, and do not end with it if they have trailing blanks |
| Patterns.BlankPatternMatchesNothing | merging_module/merge_query_manager.cc:794-800 | a pattern with outer blanks, which the code strips, matches no column without them in SQL |
| Patterns.LikeThrowsIff | merging_module/merge_query_manager.cc:802-812 | it throws exactly on the empty pattern and, for `%s`, on a shorter column |
| Patterns.UnderscoreMeans | merging_module/merge_query_manager.cc:794-820 | `_` stands for any one character in the meaning that SQL gives a pattern |
| TypeInference.InferColumn | offloading_module/snippet_manager.cc:204-256 | the two-stack loop is the inference machine, including where it would pop an empty stack |
| TypeInference.MachineInfersTree | offloading_module/snippet_manager.cc:204-248 | on a flattened tree the machine pushes the tree's type and, for decimal trees only, one size entry: the number of decimal leaves |
| TypeInference.InferredKind | offloading_module/snippet_manager.cc:204-256 | an expression is decimal exactly when a leaf is a decimal column, with length 6 plus the number of such leaves |
| TypeInference.ScaleOfTree | merging_module/merge_query_manager.cc:704-736 | of any arithmetic tree of numbers the computed value is a float exactly if one comes out of the tree (of a sum, out of its first operand), with the scales of the leaves that reach it |
| TypeInference.InferredAgreesIff | offloading_module/snippet_manager.cc:204-256 | kind and scale announced for any arithmetic over integer, float and decimal columns and literals that does not divide by zero are those computed exactly when a float comes out just if there is a decimal column, and the scales that reach the result are two per decimal column |
| TypeInference.InferredScaleAgreesIff | merging_module/buffer_manager.h:197-200 | where all floats are decimal columns of scale 2, that is exactly when no sum has a decimal in its second operand and no difference in both; else an integer is computed for a decimal, or the announced scale is too large |
| TypeInference.IntegerPlusDecimal | merging_module/merge_query_manager.cc:660-663 | 1 plus a decimal column is announced as a decimal and computed as an integer |
| TypeInference.DecimalTimesInteger | merging_module/merge_query_manager.cc:722-727 | a decimal column times 2 is computed as announced |
| TypeInference.LiteralIsNotCounted | offloading_module/snippet_manager.cc:217-243 | a decimal column times a DECIMAL literal is announced with scale 2 and computed with 4; an integer column times one is announced as an INT32 and computed as a float |
| Trimming.TrimIdempotent | merging_module/merge_query_manager.h:13-21 | trimming twice is trimming once |
| Trimming.BlanksAre | merging_module/merge_query_manager.h:13-21 | the blanks that trimming removes are space, tab, newline, return, form feed and vertical tab |
| Trimming.TrimMeans | merging_module/merge_query_manager.h:13-21 | trimming takes nothing but blanks from the two ends and leaves none there |
| Grouping.SameKeyIff | merging_module/merge_query_manager.cc:860-881 | two rows share a key exactly when their group values print alike, strings trimmed; without floats, when their trimmed values agree |
| Grouping.SameGroupIff | merging_module/merge_query_manager.cc:860-881 | rows of one key are rightly one group exactly when no group column has NULL beside a value or two different floats; rows of different keys are rightly apart exactly when one has, or shows different values and not two NULLs |
| Grouping.KeysOfRows | merging_module/merge_query_manager.cc:883-906 | the keys in order of first appearance are distinct and are exactly the keys of the rows |
| Grouping.KeysInOrder | merging_module/merge_query_manager.cc:883-906 | the groups come in the order in which the rows show their keys first |
| Grouping.GroupOfMeans | merging_module/merge_query_manager.cc:883-935 | a group holds the trimmed rows with its key, once each and in order |
| Grouping.TrimRowMeans | merging_module/merge_query_manager.cc:860-881 | of a row of a group the strings in the group columns have lost the blanks around them, and nothing else has changed |
| Grouping.GroupsArePartition | merging_module/merge_query_manager.cc:883-935 | the groups together are the table's trimmed rows: none lost, none copied |
| Grouping.GroupSumsConserve | merging_module/merge_query_manager.cc:219-255 | per-group sums and counts add up to the whole table's |
| Grouping.GroupMinsConserve | merging_module/merge_query_manager.cc:332-376 | no group minimum is below the table's minimum and some group attains it |
| Grouping.GroupPermuted | merging_module/merge_query_manager.cc:883-935 | a group has the same rows whatever the order of the table |
| ResultPipeline.ResultPipeline.MakeGroupbyKey | merging_module/merge_query_manager.cc:860-881 | the key of a row; the row's string group columns are trimmed in the table itself |
| ResultPipeline.ResultPipeline.GroupBy | merging_module/merge_query_manager.cc:883-935 | the group tables hold the groups in order of first appearance, the key map is a bijection onto their indices, an empty table stays one group |
| ResultPipeline.ResultPipeline.AggregateGroups | merging_module/merge_query_manager.cc:68-78 | one result row per key, in the order of the keys |
| ResultPipeline.ResultPipeline.GroupAndAggregate | merging_module/merge_query_manager.cc:68-78 | grouping and aggregation leave one result row per key, in the order of the keys; an empty table gives no row |
| QueryRun.Finish | merging_module/merge_query_manager.cc:15-133 | the saved table is what LIMIT, if its length is not 0, leaves of the rows that pass HAVING, sorted if there is an ORDER BY and else in the order they had |
| QueryRun.RunGrouped | merging_module/merge_query_manager.cc:68-133 | the same of the result rows of the groups, for every combination of HAVING, ORDER BY and LIMIT; over an empty table no row is saved |
| QueryRun.RunWhole | merging_module/merge_query_manager.cc:79-133 | the same without GROUP BY, for projections that yield equally many rows, and over an empty table |
| QueryRun.ArrangedIff | merging_module/merge_query_manager.cc:88-120 | the rows before LIMIT are the ones asked for, in their order, exactly when HAVING is right on every row |
| QueryRun.SavedIsAskedIff | merging_module/merge_query_manager.cc:15-133 | without LIMIT the saved rows answer the query exactly when HAVING is right on every row; where it is, with LIMIT exactly when LIMIT fits the number of rows that pass, which a length of 0 does only for no row |
| QueryRun.OrderedAnswer | merging_module/merge_query_manager.cc:112-120 | with ORDER BY alone a grouped snippet saves a sorted permutation of its result rows |
| QueryRun.NothingIff | merging_module/merge_query_manager.cc:145-151 | over no rows, where none is saved, the number is what the query asks for exactly when it is grouped, or has no aggregate, or HAVING or LIMIT drops the row of the aggregates |
| QueryRun.CountOfNothing | merging_module/merge_query_manager.cc:145-151 | COUNT(*) over no rows saves nothing, where one row with 0 is asked for |
| Aggregates.Select | merging_module/merge_query_manager.cc:158-437 | the switch over the select type computes the projection's value of the group |
| Aggregates.CountsMean | merging_module/merge_query_manager.cc:304-420 | COUNT(*) is the number of rows of the group, COUNT DISTINCT the number of values told apart, and a plain column that of the first row |
| Projections.Project | merging_module/merge_query_manager.cc:461-629 | CASE, SUBSTRING, EXTRACT or the postfix expression on a row, and where that throws or reads what was never set |
| Projections.DecideWhen | merging_module/merge_query_manager.cc:487-520 | the tests of a WHEN are taken from left to right: one that fails before AND ends it, one that holds before OR or THEN passes it |
| Projections.ChainedIff | merging_module/merge_query_manager.cc:487-520 | tests connected so have the value of SQL, where AND binds closer than OR, exactly when no failing AND cuts off an alternative that holds |
| Projections.BranchIsRightIff | merging_module/merge_query_manager.cc:487-520 | a WHEN is decided as SQL decides it exactly under that condition on its tests |
| Projections.AlternativeCutOff | merging_module/merge_query_manager.cc:490-498 | false AND true OR true fails |
| Projections.OneConnector | merging_module/merge_query_manager.cc:487-520 | with ANDs only, or ORs only, all tests or some test must hold, and nothing is cut off |
| Projections.BoundMeans | merging_module/merge_query_manager.cc:466-534 | the conjunction with which the tests are compared is that of SQL, where AND binds closer than OR |
| Projections.CaseTakesBranch | merging_module/merge_query_manager.cc:466-575 | where no branch cuts alternatives off, CASE yields the result of the first branch whose condition holds |
| Projections.CaseTakesElse | merging_module/merge_query_manager.cc:466-575 | where no condition holds it yields ELSE, and without one nothing that is defined |
| Projections.SubstringMeans | merging_module/merge_query_manager.cc:578-597 | SUBSTRING is defined exactly if the start, counted from 0, is in the text or at its end, and yields as many characters from there as asked for, or the rest if they are fewer or the length is negative |
| Projections.CopiedIff | merging_module/merge_query_manager.cc:535-565 | CASE keeps the value of its result exactly if that is not a date |
| Projections.UnitIsExtract | merging_module/merge_query_manager.cc:587-621 | on packed dates EXTRACT gives the part of that name |
| Projections.ExtractInvertsPack | merging_module/merge_query_manager.cc:603-620 | the parts are year, month and day that were packed |
| Projections.ExtractMeans | merging_module/merge_query_manager.cc:598-624 | EXTRACT on a column of packed dates yields year, month and day |
| Projections.PackedOrderIsChronological | merging_module/merge_query_manager.cc:603-620 | packed dates sort chronologically |
| Aggregates.AvgIsMeanIff | merging_module/merge_query_manager.cc:256-290 | AVG of integers is the mean of all cells, NULLs with their default value, exactly if the row count divides their sum and the mean is a 32-bit float, which a mean of 24 bits is |
| Aggregates.CountDistinctIff | merging_module/merge_query_manager.cc:305-328 | COUNT DISTINCT counts the distinct values of all cells exactly if no two of them become one in 32 bits, integers by their low bits and floats by rounding |
| NullCells.SumRightIff | merging_module/merge_query_manager.cc:219-255 | SUM is the sum of the values that are not NULL exactly when there is one and the stored values of the NULLs add up to nothing |
| NullCells.AvgRightIff | merging_module/merge_query_manager.cc:256-290 | AVG rounds the mean of the values that are not NULL exactly when, of floats, the stored values of the NULLs have the same mean, and of integers, the mean is an integer and what the stored values add beyond it is truncated away |
| NullCells.AvgOfPaddedIff | merging_module/merge_query_manager.cc:256-290 | beside NULLs stored as 0 that is exactly when the total is 0, or there is no NULL and, for integers, the row count divides the total |
| NullCells.ExtremeRightIff | merging_module/merge_query_manager.cc:332-436 | MIN (MAX) is the least (greatest) value that is not NULL exactly when one of those is at most (at least) every stored value of a NULL |
| NullCells.StringMinRightIff | merging_module/merge_query_manager.cc:332-376 | MIN of strings is the first value that is not NULL exactly when no stored string of a NULL comes before some such value |
| NullCells.CountIsRight | merging_module/merge_query_manager.cc:291-304 | COUNT of a column counts its values that are not NULL |
| NullCells.NumbersMean | merging_module/merge_query_manager.cc:158-437 | for a group of integers or floats SUM is their total, AVG their mean rounded to 32 bits, MIN one of them that none is below, and MAX one that none is above |
| NullCells.StringMinMeans | merging_module/merge_query_manager.cc:332-376 | MIN of strings is one of them that none comes before in the order of dictionaries |
| NullCells.CountDistinctRightIff | merging_module/merge_query_manager.cc:305-328 | COUNT DISTINCT counts the distinct values that are not NULL exactly when as many of them become one in 32 bits as the stored values of NULLs add |
| NullCells.CountDistinctDatesIff | merging_module/merge_query_manager.cc:305-328 | on dates it counts nothing, which is right exactly when all are NULL |
| NullCells.PaddedRowCounts | merging_module/merge_query_manager.cc:256-376 | of 4 and a NULL stored as 0 the average is 2 and the minimum 0 |
| Aggregates.Aggregate | merging_module/merge_query_manager.cc:140-459 | one more row, with the projections' values under their aliases |
| Aggregates.AggPermuted | merging_module/merge_query_manager.cc:219-437 | counts, integer sums, averages, minima and maxima and constant columns do not depend on the order of a group's rows |
| Aggregates.AggRowSame | merging_module/merge_query_manager.cc:824-857 | a result row depends on the column scales of float cells only |
| Ungrouped.AggregateWhole | merging_module/merge_query_manager.cc:140-459 | without GROUP BY every projection yields its own column: copied, computed row by row, or one value; the table takes the length of the first; an empty table leaves untyped columns without rows |
| Ungrouped.WellFormedIff | merging_module/merge_query_manager.cc:184-216 | the result is a table exactly if all projections yield equally many rows |
| Ungrouped.ProjectedRow | merging_module/merge_query_manager.cc:184-216 | then each result row has the cells of its source row under the aliases, NULLs of copied columns kept |
| Ungrouped.WholeIsOneGroup | merging_module/merge_query_manager.cc:140-459 | aggregates only: the one result row is that of the table taken as a single group |
| Ordering.StrictWeakOrder | merging_module/merge_query_manager.cc:943-995 | the mixed ascending and descending comparator is irreflexive, transitive, and its ties are transitive |
| Ordering.CompareRows | merging_module/merge_query_manager.cc:943-995 | the comparator's column loop decides the lexicographic order of two rows, and ends without an answer exactly on rows that agree on all order columns |
| Ordering.RowLessMeans | merging_module/merge_query_manager.cc:947-995 | a row is less than another exactly if in the first order column on which they differ it has the smaller value and the column is ascending, or the larger one and the column is descending |
| Ordering.SortedMeans | merging_module/merge_query_manager.cc:943-995 | rows are sorted by the comparator exactly if of any two the earlier has the smaller value, or in a descending column the larger one, in the first order column on which they differ |
| Ordering.Sort | merging_module/merge_query_manager.cc:947-995 | the contract of `std::sort`: a sorted permutation of the indices |
| Ordering.GatherTable | merging_module/merge_query_manager.cc:1006-1034 | all columns are gathered along one common permutation |
| Ordering.OrderBy | merging_module/merge_query_manager.cc:937-1035 | the result holds the input rows, permuted, sorted, and of any two the earlier has the smaller value, or in a descending column the larger one, in the first order column on which they differ |
| Ordering.SaveRows | merging_module/buffer_manager.cc:559-586 | saved are rows [offset, length) when length fits, else all; undefined exactly when length fits and the offset is behind it |
| Ordering.SavedIsLimitIff | merging_module/buffer_manager.cc:559-586 | these are the rows of LIMIT offset, length exactly when the offset is not behind a length that fits, and offset is 0, or length is the row count, or there is no row |
| Having.Filtering | merging_module/merge_query_manager.cc:1037-1101 | the result holds exactly the rows that pass, in order, with the strings of the tested columns trimmed |
| Having.KeptMeans | merging_module/merge_query_manager.cc:1035-1088 | the rows that pass come out once each, in order, with trimmed tested columns |
| Having.MeantIs | merging_module/merge_query_manager.cc:1056-1080 | a test is meant to compare the value of the cell on the left with the constant on the right, and never to hold of NULL |
| Having.TestRow | merging_module/merge_query_manager.cc:1042-1076 | the clause loop, which stops at an AND after a failed test, computes the verdict on the row |
| Having.VerdictIff | merging_module/merge_query_manager.cc:1042-1076 | a row passes exactly when every test that is the last one before an AND or the end holds as coded; tests on dates are skipped |
| Having.ConjunctionIff | merging_module/merge_query_manager.cc:1042-1076 | the verdict is the conjunction of the tests as they are meant, on the exact value and never of NULL, unless some test errs, all the others are meant to pass, and those that err are meant all to pass or all to fail; a deciding test errs where it is misjudged, a forgotten one where it is meant to fail |
| Having.MisjudgedIff | merging_module/merge_query_manager.cc:1054-1076 | a test goes wrong exactly on NULL if it passes, on an integer outside 32 bits if its low bits tell otherwise, on a float that rounds to the same 32-bit float as the constant if the operator tells them apart, and on a string if the blanks around it make a difference |
| Having.WideSumFails | merging_module/merge_query_manager.cc:1068-1070 | 2^32 does not pass > 5 |
| Having.HundredthFails | merging_module/merge_query_manager.cc:1062-1065 | 16777216.01 does not pass > 16777216 |
| Rounding.ToFloat32IsClosest | merging_module/merge_query_manager.cc:1062-1065 | no 32-bit float is closer to a number within their range than the one it is converted to |
| Rounding.HalvesToEven | merging_module/merge_query_manager.cc:1062-1065 | an odd integer of 25 bits, halfway between two 32-bit floats, becomes the one that is a multiple of 4 |
| Rounding.Monotone | merging_module/merge_query_manager.cc:1062-1065 | the conversion never reverses an order |
| Rounding.FloatsStay | merging_module/merge_query_manager.cc:1062-1065 | it changes no value of a FLOAT32 column |
| Rounding.TruncRealMeans | merging_module/merge_query_manager.cc:2301-2320 | a conversion to an integer truncates toward zero |
| Having.AndsAreConjunction | merging_module/merge_query_manager.cc:1042-1076 | joined by AND only, without dates and with no test misjudged, it is |
| Having.FirstTestForgotten | merging_module/merge_query_manager.cc:1046-1052 | with any other connector the first of two tests has no say, so the verdict is their disjunction exactly when the first implies the second, or, the second misjudged, exactly when only the first is meant to pass |
| Having.HavingRightIff | merging_module/merge_query_manager.cc:1037-1101 | HAVING keeps the rows that it is asked for, as a sequence or as a multiset, exactly when it is right on every row: right verdict, and no blanks to lose in the tested columns of a row that is kept |
| OrderIndependence.SortedIsUnique | merging_module/merge_query_manager.cc:943-995 | a sorted sequence without ties is determined by its rows |
| OrderIndependence.ResultHasNoTies | merging_module/merge_query_manager.cc:883-935 | if every group column is projected and ordered by, result rows of different keys never tie |
| OrderIndependence.SameResultRows | merging_module/merge_query_manager.cc:68-78 | tables with the same rows in any two orders have the same result rows |
| OrderIndependence.ArrivalOrderIsImmaterial | merging_module/merge_query_manager.cc:68-126 | and one and the same ordered result |
| OrderIndependence.IntegerPartsAreBarFree | merging_module/merge_query_manager.cc:860-881 | integer group columns never confuse keys |
| RowCodec.GetColOffset | merging_module/buffer_manager.cc:647-674 | the offset list holds the start of every column, computed from declared lengths and a running correction |
| RowCodec.StartsAreTrue | merging_module/buffer_manager.cc:647-674 | on an encoded row these are the true column starts |
| RowCodec.ReadDecimal | merging_module/buffer_manager.cc:296-344 | undoing the sign of the first seven bytes in place and reversing the integer bytes reads the decimal, its fraction lowest byte first |
| RowCodec.ReadSlot | merging_module/buffer_manager.cc:257-376 | the switch over the column type reads the value of a slot |
| RowCodec.SignedRoundTrip | merging_module/buffer_manager.cc:258-285 | little-endian two's complement integers of any width are recovered |
| Ieee.BinaryRoundTrip | merging_module/buffer_manager.cc:282-295 | every finite FLOAT32 and DOUBLE is recovered from its bytes |
| Ieee.CodesAre | merging_module/buffer_manager.cc:282-295 | the codes of 1 and -1.5 in both widths |
| RowCodec.DecimalRoundTripIff | merging_module/buffer_manager.cc:296-344 | for every sender, a decimal of magnitude below 2^47 is recovered exactly when it has one fraction byte, or it is not a negative one from a sender that flips all bytes, and its fraction is written lowest byte first or has the same first and last byte |
| RowCodec.DecimalRoundTrip | merging_module/buffer_manager.cc:296-344 | from a sender that writes the fraction lowest byte first and flips seven bytes of a negative decimal, all decimals of either sign are recovered |
| RowCodec.SenderFitsIff | merging_module/buffer_manager.cc:296-344 | a sender loses no decimal exactly if there is one fraction byte or it is that sender |
| RowCodec.NegativeDecimalLost | merging_module/buffer_manager.cc:302-308 | from a sender that flips all bytes no negative decimal with more than two fraction digits is recovered |
| RowCodec.SlotRoundTripIff | merging_module/buffer_manager.cc:257-376 | a column of any type is decoded to its value exactly when it is not a string of 1 to 255 characters declared with 256 or more, and not a decimal that the sender writes otherwise |
| RowCodec.IntegersMean | merging_module/buffer_manager.cc:258-275 | integers of one, two and four bytes have their lowest byte first and their sign in the highest bit; dates have three bytes and no sign |
| RowCodec.LongIntegersMean | merging_module/buffer_manager.cc:276-281 | the same of integers of eight bytes |
| RowCodec.DecimalsMean | merging_module/buffer_manager.cc:296-340 | a decimal with its first bit set is six bytes highest first and two, four or six digits behind the point lowest byte first |
| RowCodec.NegativesMean | merging_module/buffer_manager.cc:302-308 | one without it is the negative of the one whose first seven bytes are the complements |
| RowCodec.StringsMean | merging_module/buffer_manager.cc:354-360 | of a string the characters up to the first NUL are kept |
| RowCodec.VariableStringsMean | merging_module/buffer_manager.cc:361-372 | of a variable string one byte in front is left out if the column has less than 258 bytes, else two |
| RowCodec.RowRoundTripIff | merging_module/buffer_manager.cc:238-376 | a whole row is recovered exactly when none of its columns is of those kinds, for every sender |
| WorkBuffers.BlockRoundTrip | merging_module/buffer_manager.cc:226-376 | every row of a block of encoded rows laid one after the other is cut out and decoded again, each value under the name of its column, unless one of its columns is of those kinds |
| RowCodec.ShortStringLost | merging_module/buffer_manager.cc:366-376 | the string "a" in a column declared with 300 is decoded to the empty string |
| WorkBuffers.InvStep | merging_module/buffer_manager.cc:200-232 | each step keeps: pushed blocks are merged, in flight or queued, in order; the count is the merged blocks' count; done means the total was reached |
| WorkBuffers.RunInv | merging_module/buffer_manager.cc:200-410 | this holds in every state of every interleaving |
| WorkBuffers.RunExtends | merging_module/buffer_manager.cc:200-410 | over any run the status only rises, merged and pushed blocks only grow, and a finished buffer merges nothing more |
| WorkBuffers.DoneMeansAll | merging_module/buffer_manager.cc:388-410 | done means that every promised block has been merged and the queue is empty |
| WorkBuffers.LosslessIff | merging_module/buffer_manager.cc:388-410 | no run loses a block exactly when there is one block only or the last one counts for something |
| WorkBuffers.ReaderSeesFeed | merging_module/buffer_manager.cc:449-487 | what a polling reader sees in any run is a growing, throttled feed of the finished table |
| BufferManager.WorkBuffer.PushResult | merging_module/buffer_manager.cc:200-225 | a push is the push step; the first block names and types the columns |
| BufferManager.WorkBuffer.SaveTableColumnType | merging_module/buffer_manager.h:174-217 | column types and decimal scales follow the declared types and lengths |
| WorkBuffers.ScaleFits | merging_module/buffer_manager.h:174-217 | the scale of a decimal column is the number of digits behind the point of what is decoded from it |
| BufferManager.WorkBuffer.WaitAndPop | merging_module/buffer_manager.cc:230-231 | the pop takes the oldest block |
| BufferManager.WorkBuffer.MergeResult | merging_module/buffer_manager.cc:227-410 | merging a block is the merge step, and the aligned columns hold the rows of the merged blocks in order |
| BufferManager.WorkBuffer.GetTableData | merging_module/buffer_manager.cc:449-487 | a read returns the rows merged so far with the status, once enough are unread or the work is done |
| BufferManager.MergeRow | merging_module/buffer_manager.cc:238-384 | one decoded row is appended to all columns |
| EndToEnd.SameBlocksSameResult | merging_module/buffer_manager.cc:227-410 | the same blocks in any two arrival orders, each ending with a block that counts, give the same ordered result, row by row |
| KQueues.InvStep | include/internal_queue.h:16-39 | each step keeps: pushed items are popped or queued in order, and a non-empty queue has a notify on its way or a consumer awake |
| KQueues.FirstInFirstOut | include/internal_queue.h:16-39 | items leave in push order, each exactly once |
| KQueues.NeverAllAsleep | include/internal_queue.h:16-39 | the consumers never all sleep on a non-empty queue without a notify on its way |
| KQueues.NoLostWakeUpIff | include/internal_queue.h:16-39 | every consumer asleep on a non-empty queue is going to be notified exactly when there is at most one consumer |
| KQueues.SecondSleeperForgotten | include/internal_queue.h:16-27 | with two consumers and two pushes one of them sleeps on a non-empty queue with no notify to come |
| KQueues.KQueue.Push | include/internal_queue.h:16-27 | the locked part of a push, and whether the producer owes a notify |
| KQueues.KQueue.TryPop | include/internal_queue.h:29-39 | one turn of the waiting loop: sleep on an empty queue, else pop the oldest item |
| Scheduling.Search.Dfs | offloading_module/snippet_scheduler.cc:151-190 | the result is the best score over all assignments completing the stack, -1 if there are none, 0/0 without SSTs; the stack is restored |
| Scheduling.BestOfIsBest | offloading_module/snippet_scheduler.cc:175-189 | the recursion over levels and replicas finds the largest score of all completions, -1 if there are none |
| Scheduling.VarianceScore | offloading_module/snippet_scheduler.cc:152-173 | the leaf score is the number of distinct CSDs per largest multiplicity |
| Scheduling.DuplicationIsLargest | offloading_module/snippet_scheduler.cc:166-170 | the duplication is the largest multiplicity, attained by some CSD |
| Scheduling.NoAssignmentIff | offloading_module/snippet_scheduler.cc:176-189 | the search fails exactly when some SST has no replica; else its result is positive |
| Scheduling.SearchBound | offloading_module/snippet_scheduler.cc:125-127 | the result never exceeds the number of CSDs per ceiling of SSTs per CSD |
| Scheduling.RecordIsSelectionIff | offloading_module/snippet_scheduler.cc:138-189 | the recorded stack is a selection exactly when, on every level before the last along the path of last replicas, the last replica does not beat those before it |
| Scheduling.RecordIsBestIff | offloading_module/snippet_scheduler.cc:138-189 | it is a selection with the returned score exactly when, along the same path, the last replica ties with the best before it |
| Scheduling.RecordTooShort | offloading_module/snippet_scheduler.cc:138-146 | if the first of several SSTs has one replica, the record is that one entry, though one per SST is popped |
| Scheduling.RecordCanBeWorst | offloading_module/snippet_scheduler.cc:138-189 | with replicas on a and b for one SST and on b for the other, b twice is recorded, scored 0.5, where a and b score 2 |
| Scheduling.DcsAlgorithm | offloading_module/snippet_scheduler.cc:44-82 | the assignment, with the burden of CSDs that hold single-replica SSTs |
| Scheduling.PickIsLast | offloading_module/snippet_scheduler.cc:64-77 | the chosen replica is the last whose burdened score is above -1, or none |
| Scheduling.DcsAssignsIff | offloading_module/snippet_scheduler.cc:50-79 | an SST gets one of its replicas exactly when it has only one or one with a burdened score above -1 |
| Scheduling.DcsAssigns | offloading_module/snippet_scheduler.cc:50-79 | replica lists that are not empty and scores above -1 are enough |
| Scheduling.PenalisedMeans | offloading_module/snippet_scheduler.cc:50-79 | the score of a CSD is divided by one more than it has single-replica SSTs before this one |
| Scheduling.PickIsBestIff | offloading_module/snippet_scheduler.cc:64-77 | the choice has the largest burdened score exactly when no replica before the last qualifying one has a larger score than it |
| Scheduling.LaterReplicaWins | offloading_module/snippet_scheduler.cc:64-77 | of two replicas scored 5 and 1 the second is chosen |
| Dispatch.Serialize | offloading_module/snippet_manager.cc:42-89 | selecting and counting for one CSD collects, per target SST, its replica's block list or the whole SST, and names the partition of the first |
| Dispatch.CountMeans | offloading_module/snippet_manager.cc:65-83 | the announced block count is one per length of the collected entries with one offset, one per other entry, and the counts of the SSTs that are taken whole |
| Dispatch.PartMeans | offloading_module/snippet_manager.cc:45-89 | an SST contributes the blocks of its first replica on the CSD or, if it has none there, its name, and nothing without such a replica |
| Dispatch.CollectMeans | offloading_module/snippet_manager.cc:45-89 | a request collects what its SSTs contribute, one after the other |
| Dispatch.SetupSnippet | offloading_module/snippet_manager.cc:4-15 | one request per chosen CSD, for exactly the SSTs assigned to it |
| Dispatch.DispatchConserves | offloading_module/snippet_manager.cc:4-89 | the groups partition the SSTs and the block counts of all requests add up to the assigned total |
| Dispatch.WeightIsReplicas | offloading_module/snippet_manager.cc:56-83 | under a valid assignment an SST counts with its replica on the chosen CSD |
| Dispatch.OnlyOwnReplicas | offloading_module/snippet_manager.cc:56-76 | a CSD is asked only for blocks of its own replicas of SSTs assigned to it |
| Dispatch.NothingDroppedIff | offloading_module/snippet_manager.cc:91-95 | everything selected is sent exactly when the group does not mix block lists with whole SSTs |
| Dispatch.PartitionFitsIff | offloading_module/snippet_manager.cc:60-62 | the one partition of a request is right for all its SSTs exactly when their replicas on the CSD are on one partition |
| TmaxColumns.DataEndsColumnIff | include/tmax-lib/include/ex.h:10-23 | the data macro fits the length macros exactly when the first byte is not 251 or 252 |
| TmaxColumns.MakeColumnRoundTrip | include/tmax-lib/include/ex.h:10-23 | a value written with one or three header bytes is read back |
| TmaxColumns.LongValue | include/tmax-lib/include/ex.h:10-23 | the size of a long value is read from the two bytes behind its first, the high byte first |
| TmaxColumns.ParseConcat | include/tmax-lib/include/ex.h:10-13 | columns written one after the other are found again by their lengths |
| TmaxColumns.ParseRowsBack | include/tmax-lib/include/ex.h:10-13 | so are rows written one after the other |
| TmaxCompare.EvalCondition | include/tmax-lib/ex.cc:141-224 | the code decides the condition: false on an empty side, else the operator on the comparison |
| TmaxCompare.BinaryCondition | include/tmax-lib/ex.cc:141-221 | a binary condition holds exactly if neither side is NULL and the bytes of the left one are lexicographically equal, unequal, greater, less, not less, or not greater than those of the right one |
| TmaxCompare.CharCondition | include/tmax-lib/ex.cc:141-221 | on printable bytes a character condition asks the same of the PAD SPACE comparison |
| TmaxCompare.PadCompareMeans | include/tmax-lib/ex.cc:160-183 | which the first position decides at which the values, filled up with blanks, differ |
| TmaxCompare.BinaryTotalOrder | include/tmax-lib/ex.cc:155-160 | the binary comparison is antisymmetric, transitive, and equal only for equal values |
| TmaxCompare.BinaryIsLexicographic | include/tmax-lib/ex.cc:155-160 | it is the lexicographic order of byte strings |
| TmaxCompare.CharEqualIffStripped | include/tmax-lib/ex.cc:161-185 | the character comparison equates exactly the values that agree without trailing blanks |
| TmaxCompare.CharIsPadSpaceIff | include/tmax-lib/ex.cc:161-185 | it is the PAD SPACE comparison exactly when no control character after the common length decides |
| TmaxCompare.CharTotalPreorder | include/tmax-lib/ex.cc:161-185 | on bytes from 0x20 up it is a total preorder |
| TmaxCompare.ControlCharacterBreaksOrder | include/tmax-lib/ex.cc:161-185 | with a tab it is not even transitive |
| TmaxCompare.OperatorsConsistent | include/tmax-lib/ex.cc:187-224 | exactly one of LT, EQ, GT holds of two non-NULL values; GE, LE, NE are the complements |
| TmaxPushdown.BuildAll | include/tmax-lib/ex.cc:90-107 | without a column list the pointers are the column starts, null beyond the row's last column |
| TmaxPushdown.BuildUsed | include/tmax-lib/ex.cc:108-124 | with a list the used columns' pointers are their starts (at most the last column's), the others keep their old value |
| TmaxPushdown.EvalAndCheckTrue | include/tmax-lib/ex.cc:228-263 | all conditions hold, each constant being the one at the number of constant operands before it |
| TmaxPushdown.SetColOut | include/tmax-lib/ex.cc:418-455 | unwanted columns become NULL and the total is the length of the row that is sent |
| TmaxPushdown.ChunkList.Serialize | include/tmax-lib/ex.cc:381-401 | a row goes to the last chunk if it fits there, else to a new one |
| TmaxPushdown.ChunkList.FilterAndEvalOut | include/tmax-lib/ex.cc:516-557 | the surviving rows of the block are appended to the chunks, in order; a piece of a chained row that has all used columns counts as the row |
| TmaxPushdown.SurvivorsIff | include/tmax-lib/data_blk.cc:33-47 | a row is sent exactly when it is live and satisfies the filter as its column pointers show it |
| TmaxPushdown.BinaryFilter | include/tmax-lib/ex.cc:228-263 | a filter of binary conditions holds exactly if of each condition both operands have bytes, and these are in the order that the operator asks for |
| TmaxPushdown.ConstantsInOrder | include/tmax-lib/ex.cc:228-252 | an operand is a column or, for -1, the constant at the number of such operands before it, of the earlier conditions and, for the right one, of its own |
| TmaxPushdown.RangeSurvives | include/tmax-lib/ex.cc:228-263 | with the filter `col > a AND col <= b` exactly the live rows are sent back whose value comes after `a` and not after `b` |
| TmaxPushdown.SentColumns | include/tmax-lib/ex.cc:418-455 | the columns that a list marks are sent, without a list all, or none if their number is 0, and NULL in place of the others |
| TmaxPushdown.NarrowRowIff | include/tmax-lib/ex.cc:108-124 | a row with fewer columns than wanted, which shows its last column in place of the missing ones, is answered like its form filled up with NULL exactly when that column is NULL or the filter rejects both forms |
| TmaxPushdown.SurvivingIsAsked | include/tmax-lib/ex.cc:516-557 | where every live row has all wanted columns or ends in NULL, the surviving rows are the live rows that satisfy the filter, missing columns as NULL |
| TmaxPushdown.ChunkList.SpreadElsewhere | include/tmax-lib/ex.cc:478-508 | a row piece is taken as part of a spread row exactly when it is not the only piece and a used column is not whole in it |
| TmaxPushdown.HereMeans | include/tmax-lib/ex.cc:478-557 | a piece is taken for itself exactly if two bits of its flags say that it is the first and the last of its row, or all used columns end before its last one where a third bit says that this goes on elsewhere |
| TmaxPushdown.ChunksAreBounded | include/tmax-lib/include/ex.h:67 | no chunk exceeds 65533 bytes |
| TmaxPushdown.ChunksAreFull | include/tmax-lib/ex.cc:381-401 | a chunk is begun only for a row that does not fit the one before |
| TmaxPushdown.ChunksAreGroups | include/tmax-lib/ex.cc:381-401 | chunks consist of whole rows, all of them, in order |
| TmaxPushdown.FilterBlocks | include/tmax-lib/ex.cc:516-557 | blocks filtered one after the other into one chunk list add their surviving rows to it, block after block |
| TmaxPushdown.PushdownCorrect | include/tmax-lib/ex.cc:516-557 | for any sequence of blocks, parsing the chunks by column length gives exactly the live rows that satisfy the filter, in order, unwanted columns as NULL |

## Left out

- Sockets, HTTP, gRPC, JSON and protobuf, logging, monitoring counters: a
  snippet, a block or an SST list is taken as already parsed.
- Integers are unbounded except where the code narrows to 32 bits
  (`Filters.ToInt32`), keeps lengths in 16 bits, or reads bytes; doubles are reals,
  converted to 32-bit floats where the code does (`Rounding.ToFloat32`, in which all
  numbers beyond the range become one); a FLOAT key goes through its printed form.
- `Ordering.Sort`: is an insertion sort behind the contract of `std::sort`; which
  order ties get is not stated, and a comparison without an answer is taken as
  "not less".
- `Ordering.SaveRows`: a table without columns is not modelled apart.
- `Streams.NextBatch`: the polling loops wait for data; the model takes the
  snapshots as a given sequence, and `WorkBuffers.ReaderSeesFeed` shows that
  every run of a work buffer produces such a sequence.
- `HashTable.TestDependency`: pairs of columns for which the code indexes an empty
  vector, which is undefined (a FLOAT on the right, a STRING beside another type), are
  not modelled; the same holds of
  `MergeQueryManager.MergeQueryManager.DependencyExist`.
- `Patterns.LikeIsRightIff`: strings are sequences of characters; multi-byte
  encodings and escapes are not modelled.
- `Having.Filtering`: an integer constant beyond 32 bits makes `stoi` throw, which is
  not modelled apart; constants are taken as parsed.
- `Aggregates.Select`: TOP, which the code only logs, and maxima of strings, which it
  logs too, are not modelled.
- `Projections.Project`: a CASE ends in END and its tests and results are postfix
  expressions; other token lists are not modelled.
- `QueryRun.RunWhole`: takes projections that yield equally many rows; what others
  leave is no table (`Ungrouped.WellFormedIff`) and is not carried further.
- `RowCodec.ReadSlot`: infinities and NaN of FLOAT32 and DOUBLE are not modelled.
- `RowCodec.DecimalRoundTripIff`: the sender of decimals is not part of the
  repository; it is taken to write a 48-bit integer part, which is what is read, and
  the order and flipping of its bytes are parameters.
- `MergeQueryManager.MergeQueryManager.UnionAll`: matching by position, which SQL
  asks for, is not stated, since a table has no order of columns.
- `Dispatch.SetupSnippet`: the order in which the requests are sent is not modelled.
- `TmaxPushdown.ChunkList.FilterAndEvalOut`: chained rows whose used columns are
  spread over several pieces, the framing of chunk lists in the outer buffer, rows so
  narrow that without a column list a null pointer is followed, and rows too long for
  a chunk are not modelled; the same holds of `TmaxPushdown.FilterBlocks`.
- `KQueues.InvStep`: spurious wake-ups are not modelled; they only wake consumers.
- `RightOuterJoin_hash`, `DependencyInnerJoin`, `DependencyIn` and
  `DFA_Algorithm`, whose code looks up a column in the wrong table or tests the
  wrong loop variable; `CrossJoin`, deduplicating `Union` and automatic
  algorithm selection.
- `formatTable` and other presentation code; memory management.
