# Powder: verified model

A Dafny model of Powder's engine and of the proofs that its fast paths agree with its simple ones.
`dafny verify dfyconfig.toml` checks the whole project. Each module is one file; code that updates things step by step
(the scan columns, the encoder's buffers, the caches, the client, the registry) is imperative here too, and every such
method is held to a specification function about which the theorems are proved.

**Columnar scan.** `AdaptiveColumn` is the column a scan streams rows into: it promotes Int64 to Float64 to Utf8 in
place, and `Serial` (in `ScanCells`) is what it holds as a function of its cells. Two fast paths must give the same wire
bytes: chunks merged by `merge_col` (`ParallelMerge`, `MergeAgreement`, `ParallelQuery`) and chunks written straight to
the wire by `encode_parts` (`PcbParts`, `DirectEncode`, `DirectScan`). `Pcb` says what the PCB image of a batch is as a
tiling of regions, `PcbLayout` what the format prescribes byte by byte, `PcbEncode` and `PcbDecode` are the two codecs,
`WireReadBack` closes the trip. `RowidRanges` splits the table among workers, `SortKeys` and `SortPullUp` order rows,
`KeyOrder` and `ScanOrder` say what that order is of the values themselves. `Utf8Text` scans text as the standard library
does, `Utf8Spec` holds it to the definition of UTF-8. An f64 is its 64-bit pattern; the
conversion from i64 and the text of a float are functions (`Conversions`) of which only `Sane` is assumed: 0 converts
to +0.0 and numbers print in ASCII.

**Where trees and relations.** `SqlExpr` lexes, parses and evaluates search conditions in three-valued logic
(section 8.12 of ISO/IEC 9075:1992). `WhereTree` states what a where tree says about a row; `WhereRender` is
the Rust printer, `WhereMeaning` proves its text means the tree, `WhereSpelled` gives small clauses letter by letter. `TsWhere`, `WhereMemo`, `TsTable` are the TypeScript
twin with its shape-keyed cache, `ShapeKeys` and `ShapeReads` decide when the keys can be trusted, `TwinBindings`,
`TwinAgree` and `TwinCounts` compare the twins. `RelationNames` derives relations, `RelationRows` attaches them row by
row, `RelationBatch` and `JsonText` load and group them in batches, `RelationLoad` holds the loops, and `RelationAgree`
proves that the batch is the row-by-row result and says when it is not.

**Result cache.** `QueryCache` and `CacheKey` are the cache and its keys, `CacheProtocol` every interleaving of
queries, probes, writes and commits by others, `CachedClient` the client methods as steps of it.

**Transactions.** `Transactions` runs any tree of nested bodies against a pure semantics; `TxRewrite` is the rewriting for SQL Server.

**SQL scanners.** `SqlTokens` gives a grammar of literals, comments and single characters and proves that the scanner
decides it; `Placeholders`, `StackGuard` and `NamedSql` are the three users. **Ownership and order.** `Ownership` is the registry of buffers handed to C hosts, `TableOrder` and `DumpOrder` the two topological orders.

## What turned out conditional

Each condition is a theorem with both directions or comes with a concrete counterexample.

- A parallel scan equals the serial one for every cut exactly when integers that share a text-free run with a real
  print the same after the hop through a float, and the text is well-formed or the whole column is repaired anyway
  (`MergeAgreement.AllCutsAgreeIff`): repair is decided per range.
- Rowid ranges read every row once exactly when `max - min + 1` fits i64 or the wrapped arithmetic happens not to
  align the lowest rowid on a whole step (`RowidRanges.RangesCover`); over all of i64 two ranges are two full reads
  (`RowidRanges.TwoRowsReadTwice`).
- The boundary check of the direct route skips both sides of an empty chunk; sortedness is exactly the gate plus the
  skipped boundaries (`SortKeys.SortedIffGate`, `SortKeys.GateMisses`). Only an Int64 key can have such a chunk, and
  then its rows can leave out of order (`DirectEncode.GatedOutOfOrder`).
- Decoding returns the batch exactly for well-formed batches with a row count below 2^32; a Bool column can exceed
  that inside a buffer below 2^32 bytes (`WireReadBack.DecodeEncode`).
- The where cache of a table can be trusted for every predicate exactly when no two runs of its columns are written
  alike around the undelimited marker `null` (`TsTable.FaithfulIff`); no name containing `null` suffices.
- Placeholders and collected values differ by exactly the null operands under operators other than eq and ne
  (`TwinCounts.MarksCounted`).
- Cache keys are injective for NUL-free SQL and values below 2^32 bytes; both limits are needed
  (`CacheKey.NulCollides`, `CacheKey.LongTextCollides`). Coherence holds exactly when writes that skip the clear change
  no cacheable result and requests that share a key share their answer (`CacheProtocol.CoherentIff`), which within those
  two limits they always do (`CacheProtocol.PlainTellable`).
- The two compilers bind the same values exactly when no null is loose and every value already has its column's
  declared type (`TwinAgree.TwinBindIff`); an integer for a float column does not (`TwinBindings.IntegerForFloat`).
- Batched loading equals per-row loading exactly when the database finds for a key only rows that show that very key
  text (`RelationBatch.GroupsAreLookupsIff`, and entry by entry `RelationAgree.ListExactIff` and
  `RelationAgree.SingleExactIff`); an integer key into a column declared float loses rows
  (`RelationBatch.MixedTypesMiss`), and a case-insensitive collation attaches nothing to keys spelled otherwise.
- `compile_named_sql` followed by `translate_placeholders` numbers the names correctly exactly when the code holds no
  `?` of its own, given that it holds no double quote and no comment (`NamedSql.NamedThenNumbered`).
- `dependency_order` ends exactly when no table is asked for twice (`DumpOrder.EndsIff`).

## Model

| member | source | states |
|---|---|---|
| Columns.BitmapBuilder.Push | crates/powder-core/src/array.rs:107-117 | one flag more: the builder's bytes stay the packed flags, least significant bit first |
| Columns.ColumnBuilder.PushI64 | crates/powder-core/src/array.rs:179-193 | the cell is appended, or a type mismatch leaves the column as it was |
| Columns.ColumnBuilder.PushF64 | crates/powder-core/src/array.rs:195-205 | the cell is appended, or a type mismatch leaves the column as it was |
| Columns.ColumnBuilder.PushBool | crates/powder-core/src/array.rs:207-217 | the cell is appended, or a type mismatch leaves the column as it was |
| Columns.ColumnBuilder.PushStr | crates/powder-core/src/array.rs:219-234 | the cell is appended, or a type mismatch leaves the column as it was |
| Columns.ColumnBuilder.PushNull | crates/powder-core/src/array.rs:236-260 | a NULL is appended to a column of any type |
| Columns.ColumnBuilder.Finish | crates/powder-core/src/array.rs:262-322 | the finished column is the column of the cells pushed, in every field |
| Columns.ReadBack | crates/powder-core/src/array.rs:37-97 | any mix of values and NULLs pushed into a builder reads back cell by cell |
| Columns.NullSlots | crates/powder-core/src/array.rs:236-260 | a null slot holds zero, false or an empty text; a bitmap of a byte for eight rows is there and the field says so |
| Columns.NoNullSlots | crates/powder-core/src/array.rs:262-322 | with no null there is no bitmap and the field is not nullable |
| Columns.NothingBeyond | crates/powder-core/src/array.rs:37-97 | past the last row no reader answers |
| Bitmaps.UnpackPack | crates/powder-core/src/array.rs:87-97 | reading a packed bitmap gives the flags back |
| Bitmaps.PacksUnique | crates/powder-core/src/array.rs:100-122 | a validity bitmap is determined by its flags, unused bits included |
| AdaptiveColumn.AdaptiveCol.Push | crates/powder-core/src/client.rs:1528-1598 | one cell more, whatever the column held: it stays the serial build of its cells, promoted where the cell demands it |
| AdaptiveColumn.AdaptiveCol.PromoteToFloat | crates/powder-core/src/client.rs:1600-1606 | promotion rewrites the buffer to what the same cells give as Float64 |
| AdaptiveColumn.AdaptiveCol.PromoteToStr | crates/powder-core/src/client.rs:1608-1619 | promotion rewrites the buffer to what the same cells give as Utf8 |
| AdaptiveColumn.AdaptiveCol.ValidateText | crates/powder-core/src/client.rs:1478-1487 | the flags say whether the text is well-formed and whether it is ASCII |
| AdaptiveColumn.AdaptiveCol.Permute | crates/powder-core/src/client.rs:1490-1525 | values, placeholders and the ascending null list move together, row r being old row idx[r] |
| AdaptiveColumn.AdaptiveCol.Finish | crates/powder-core/src/client.rs:1621-1657 | the finished column: payload, clear-bits validity bitmap, repaired text and ASCII flag |
| AdaptiveColumn.NullBitmap | crates/powder-core/src/client.rs:1621-1635 | clearing the null bits of an all-ones template gives the packed validity flags |
| AdaptiveColumn.RepairUtf8 | crates/powder-core/src/client.rs:1659-1674 | every slice is repaired on its own and offsets are rebuilt |
| AdaptiveColumn.Stringify | crates/powder-core/src/client.rs:1676-1690 | one pass along the ascending null list renders values and leaves null rows empty |
| AdaptiveColumn.StreamRows | crates/powder-core/src/client.rs:1181-1292 | streaming rows leaves every column the serial build of its own cells |
| ScanCells.PushedCell | crates/powder-core/src/client.rs:1528-1598 | how class, values, nulls, promotion and blob flags of a serial build change with one more cell |
| ScanCells.PromotedTexts | crates/powder-core/src/client.rs:1608-1619 | the texts a promoted buffer shows, integers already turned to floats printing as floats |
| Utf8Text.LossyChanges | crates/powder-core/src/client.rs:1659-1674 | lossy repair changes exactly the ill-formed texts |
| Utf8Text.ValidConcat | crates/powder-core/src/client.rs:1478-1487 | well-formed texts concatenate to well-formed text, so one check over the buffer decides all rows |
| Utf8Spec.ValidIff | crates/powder-core/src/client.rs:1478-1487 | well-formed are exactly the encodings of sequences of scalar values, as RFC 3629 defines them |
| Utf8Spec.RepairIs | crates/powder-core/src/client.rs:1659-1674 | where no encoding stands, U+FFFD replaces the longest stretch that still begins one, or one byte |
| Utf8Spec.KeptIs | crates/powder-core/src/client.rs:1659-1674 | an encoding is kept by the repair |
| Decimal.IntTextReads | crates/powder-core/src/client.rs:1676-1690 | an integer renders as its decimal numeral without leading zeros, a minus sign before it when negative |
| ParallelMerge.ClassConcat | crates/powder-core/src/client.rs:1073-1092 | the storage class of concatenated rows is the highest class of a part holding a value |
| ParallelMerge.TargetClass | crates/powder-core/src/client.rs:1072-1105 | the target class and the promoted flag found from the parts are those of all rows together |
| ParallelMerge.MergeCol | crates/powder-core/src/client.rs:1072-1144 | the accumulator ends as the merge of the chunks: payload moved behind, nulls shifted, offsets rebased, flags joined |
| MergeAgreement.NumericCutsAgree | crates/powder-core/src/client.rs:1057-1144 | without text, merging any cut gives the serial column in every field |
| MergeAgreement.CutsAgreeAnySize | crates/powder-core/src/client.rs:1057-1144 | without text, or with a harmless float hop and a harmless repair, merging any cut gives the serial column in every field, at any size |
| MergeAgreement.AllCutsAgreeIff | crates/powder-core/src/client.rs:1057-1144 | below 2^32 bytes, every cut finishes to the serial column if and only if the hop is harmless and repair cannot differ by range |
| MergeAgreement.HopCut | crates/powder-core/src/client.rs:1556-1571 | a range around an integer and a real near it sends the integer through a float |
| RowidRanges.RangesCover | crates/powder-core/src/client.rs:985-994 | in wrapping i64 arithmetic the ranges read every row once and in order if and only if none of the overflowed ones reads twice |
| RowidRanges.PlainPrefix | crates/powder-core/src/client.rs:985-994 | when the span fits i64 the ranges tile [min, max] |
| RowidRanges.WholeSpanReadTwice | crates/powder-core/src/client.rs:985-994 | between the lowest and the highest i64, cut in two, both ranges read every row |
| RowidRanges.TwoRowsReadTwice | crates/powder-core/src/client.rs:985-994 | so a table of the lowest and the highest rowid is scanned to four rows |
| ParallelQuery.RangesCutColumns | crates/powder-core/src/client.rs:985-1026 | what the workers read is a contiguous cut of every column |
| ParallelQuery.MergeChunks | crates/powder-core/src/client.rs:1057-1070 | column by column, the merge of that column of every chunk |
| ParallelQuery.MergeAndEncode | crates/powder-core/src/client.rs:652-654 | merged without an order, the answer is the encoding of the serial scan |
| ParallelQuery.MergeAndSort | crates/powder-core/src/client.rs:655-662 | merged with an order: refused exactly when the key needs the other sorter, otherwise the encoding of the serial rows permuted so that the key ends in the asked order |
| ParallelQuery.ScanBytes | crates/powder-core/src/client.rs:640-663 | either route, any cut, any schedule of the column writers: the bytes of the serial scan; with an order, those bytes, sorted exactly when no skipped boundary is out of order, or the sorted rows of the serial scan, or nothing when the other sorter is needed |
| ScanOrder.AnswerOrder | crates/powder-core/src/client.rs:640-663 | an ORDER BY is answered exactly when a column has that name and its cells are of one storage class without NULL or blob; merged rows come out in SQLite's order of those cells, directly written ones exactly when no skipped boundary is out of order |
| SortKeys.OrderedIsTotalOrder | crates/powder-core/src/client.rs:1401-1434 | the comparison of keys is a total order in both directions, ties being equal keys |
| KeyOrder.FloatOrderIsNumeric | crates/powder-core/src/client.rs:1375-1382 | the order of float keys is that of the numbers their bit patterns stand for, a negative zero before a positive one |
| KeyOrder.TextLeqMeans | crates/powder-core/src/client.rs:1383-1391 | the order of text keys is decided at the first difference, a proper prefix coming first |
| KeyOrder.KeysMean | crates/powder-core/src/client.rs:1401-1434 | keys are in the asked order exactly when the rows of the buffer are, by those orders |
| SortKeys.AdjacentIsAll | crates/powder-core/src/client.rs:1401-1434 | checking neighbours decides the order of all rows |
| SortKeys.SortedIffGate | crates/powder-core/src/client.rs:705-727 | the concatenation is sorted if and only if the gate passes and no skipped boundary is out of order |
| SortKeys.GateSuffices | crates/powder-core/src/client.rs:705-727 | with no empty interior chunk the gate alone decides |
| SortKeys.GateMisses | crates/powder-core/src/client.rs:718-726 | any out-of-order pair passes the gate once an empty chunk separates it |
| SortPullUp.IsSorted | crates/powder-core/src/client.rs:1401-1434 | answers whether the rows in the buffer are in order: integers by size, floats by their numbers, texts byte by byte |
| SortPullUp.SortBuilt | crates/powder-core/src/client.rs:1348-1399 | refuses exactly the keys it cannot prove; otherwise one permutation moves every column, and the key column ends in order: integers by size, floats by their numbers, texts byte by byte |
| SortPullUp.SameNameMeans | crates/powder-core/src/client.rs:1354-1354 | the key names the column whose letters differ from it at most in case |
| SortPullUp.MovedRows | crates/powder-core/src/client.rs:1490-1525 | a permutation moves whole rows and leaves a well-formed column |
| DirectScan.BoundariesOrdered | crates/powder-core/src/client.rs:765-785 | the check between neighbouring chunks, empty ones passing on both sides |
| DirectScan.EncodeChunksDirect | crates/powder-core/src/client.rs:671-763 | answers exactly when its gates pass, and then with the encoding of the serial scan |
| DirectEncode.GatedIsSerial | crates/powder-core/src/client.rs:690-703 | through the gate, merging the chunks would give the serial column in every field, with no NULL |
| DirectEncode.ColumnGateMeans | crates/powder-core/src/client.rs:690-703 | a column passes the gate when every chunk holds only integers, or every chunk is not empty and holds only reals, or only text well-formed as a whole |
| DirectEncode.PartsAreSerial | crates/powder-core/src/client.rs:729-761 | the parts handed to the encoder concatenate to the finished serial column |
| DirectEncode.DirectSortedIff | crates/powder-core/src/client.rs:705-727 | rows that went out directly are in the asked order if and only if no skipped boundary is out of order |
| DirectEncode.GatedOutOfOrder | crates/powder-core/src/client.rs:718-726 | two integers out of order around an empty chunk pass both gates, and the rows leave out of order |
| DirectEncode.NothingSkipped | crates/powder-core/src/client.rs:690-703 | a key that is not Int64 has no chunk to skip |
| Pcb.RegionsTile | crates/powder-core/src/codec.rs:86-239 | header, directory, names, pads and payloads cover the buffer, each byte once, ending 8-aligned |
| Pcb.TilingDetermines | crates/powder-core/src/codec.rs:86-239 | a buffer that shows every region of a tiling is that tiling's bytes |
| PcbEncode.Encode | crates/powder-core/src/codec.rs:86-239 | appending regions and patching header and directory gives the image, and under the u32 limits the bytes the format prescribes: magic, version, counts, type codes, flags, slots, payloads |
| PcbLayout.ImageLaid | crates/powder-core/src/codec.rs:10-36 | the image byte by byte: "PCB1", version 1, counts, a directory of 40-byte entries with type codes 0 to 3 and flag bits 0 and 1, aligned slots, little-endian payloads, bits from the lowest |
| PcbEncode.PackBools | crates/powder-core/src/codec.rs:166-183 | eight flags to a byte with a partial last byte are the packed flags |
| PcbEncode.PatchDirectory | crates/powder-core/src/codec.rs:223-236 | every entry shows in its slot and nothing else changes |
| PcbParts.PlanParts | crates/powder-core/src/codec.rs:262-319 | start, total, pads and every offset are those of the image, before anything is written |
| PcbParts.AllPadsRight | crates/powder-core/src/codec.rs:271-280 | the recorded pads are zero in the image and no gap is missed |
| PcbParts.FillPayloads | crates/powder-core/src/codec.rs:355-412 | the column tasks in any order leave every payload right and undo nothing |
| PcbParts.MoveOffsets | crates/powder-core/src/codec.rs:374-403 | offset runs of the chunks, rebased in u32 arithmetic |
| PcbParts.EncodeParts | crates/powder-core/src/codec.rs:257-415 | whatever the fresh buffer held and whatever order the tasks ran in, every byte is the encoding of the concatenated chunks, and under the u32 limits the bytes the format prescribes |
| PcbDecode.Decode | crates/powder-core/src/codec.rs:476-571 | the batch the bytes hold, the first error in directory order, or the panic of an index out of range |
| PcbLayout.LaidDecodes | crates/powder-core/src/codec.rs:476-571 | any bytes laid out so decode to that batch, wherever its parts lie |
| PcbLayout.DecodeRefuses | crates/powder-core/src/codec.rs:476-486 | too short, another magic, another version: refused for that, in this order |
| PcbLayout.EntryRefused | crates/powder-core/src/codec.rs:491-510 | a truncated entry, a type code above 3, a name outside the buffer or not UTF-8: refused for that, in this order |
| PcbLayout.ShortPayload | crates/powder-core/src/codec.rs:518-557 | a buffer too short for the rows is indexed past its end |
| PcbDecode.RoundTrip | crates/powder-core/src/codec.rs:476-571 | under the u32 limits, decoding an encoded batch gives it back for exactly the well-formed batches |
| PcbDecode.DecodedWellFormed | crates/powder-core/src/codec.rs:476-571 | whatever decodes is well-formed, with a row count below 2^32 |
| WireReadBack.DecodeEncode | crates/powder-core/src/codec.rs:476-571 | below 2^32 bytes: the batch comes back if and only if it is well-formed and its rows fit a u32 |
| WireReadBack.BuiltReadsBack | crates/powder-core/src/array.rs:179-322 | typed pushes and NULLs read back cell by cell after the wire trip |
| WireReadBack.ScanBitmapIsBuilders | crates/powder-core/src/client.rs:1621-1635 | the clear-bits bitmap of a scan is the set-bits bitmap of a builder for the same NULL pattern |
| WireReadBack.ScanReads | crates/powder-core/src/array.rs:37-97 | the readers over a scanned column give every cell as the scan holds it |
| WireReadBack.ScanShows | crates/powder-core/src/client.rs:1181-1292 | what comes back for each cell: NULL, the integer or its float among reals, the real, the text, the repaired blob, and numerals once there is text |
| WireReadBack.ScanField | crates/powder-core/src/client.rs:1621-1657 | the field is nullable, with a bitmap, exactly when some cell is NULL |
| SqlExpr.LexConcat | crates/powder-core/src/orm.rs:388-486 | two texts whose boundary no token crosses lex as their tokens in turn |
| SqlExpr.TruthTables | crates/powder-core/src/orm.rs:388-486 | AND is the less true, OR the more true of two, NOT turns the order round |
| SqlExpr.AllTruths | crates/powder-core/src/orm.rs:388-486 | a conjunction is true when all are and false when one is; a disjunction the other way |
| SqlExpr.NullTests | crates/powder-core/src/orm.rs:388-430 | a test for NULL is never unknown and is true of exactly the NULLs, or of exactly the others |
| WhereRender.RenderGroup | crates/powder-core/src/orm.rs:388-486 | the loops append exactly the parts and values of the tree, or stop at its first fault |
| WhereRender.CompileWhere | crates/powder-core/src/orm.rs:488-506 | the WHERE clause of the tree with its values; a missing or null where gives neither, any other non-object is refused |
| WhereParse.FragMeans | crates/powder-core/src/orm.rs:388-486 | a printed fragment parses with OR weaker than AND weaker than NOT and evaluates to its parts' truth |
| WhereMeaning.TextMeansTree | crates/powder-core/src/orm.rs:388-486 | for every tree that renders: the text is empty exactly when the tree says nothing, else it parses, binds one placeholder per value in order, and has the tree's three-valued meaning |
| WhereRender.ClauseMeansTree | crates/powder-core/src/orm.rs:488-506 | for every call: no where, or null, keeps every row; an object keeps exactly the rows its tree is true of, columns read through the qualifier; anything else is refused |
| WhereSpelled.OperatorSpelled | crates/powder-core/src/orm.rs:370-383 | the seven comparison operators by name and sign: the clause and the one value bound |
| WhereSpelled.BareSpelled | crates/powder-core/src/orm.rs:388-486 | a value alone asks for equality, a null for IS NULL, ne null for IS NOT NULL |
| WhereSpelled.InSpelled | crates/powder-core/src/orm.rs:388-486 | a list asks for IN with a mark for every item |
| WhereSpelled.NothingSpelled | crates/powder-core/src/orm.rs:388-486 | an empty list asks for 1 = 0 |
| WhereSpelled.AndSpelled | crates/powder-core/src/orm.rs:388-486 | two groups under AND, in parentheses, joined by AND |
| WhereSpelled.OrSpelled | crates/powder-core/src/orm.rs:452-475 | two groups under OR, in parentheses, joined by OR, in parentheses |
| WhereSpelled.NotSpelled | crates/powder-core/src/orm.rs:476-486 | two groups under NOT, each negated, joined by AND |
| WhereSpelled.EmptySpelled | crates/powder-core/src/orm.rs:452-475 | OR of nothing is 1 = 0, AND and NOT of nothing say nothing |
| WhereSpelled.OneGroup | crates/powder-core/src/orm.rs:431-446 | one object stands for a list of one |
| WhereSpelled.ValueBound | crates/powder-core/src/orm.rs:289-321 | which value is bound for which operand and column type |
| WhereSpelled.ConditionRefused | crates/powder-core/src/orm.rs:388-430 | an unknown column and an array as a value are refused for that |
| WhereSpelled.OperandRefused | crates/powder-core/src/orm.rs:388-430 | in without an array, and an array or object as an operand, are refused for that |
| WhereSpelled.UnknownOperator | crates/powder-core/src/orm.rs:381-383 | an operator nobody knows says nothing |
| WhereSpelled.GroupsRefused | crates/powder-core/src/orm.rs:431-475 | logical keys that hold no groups are refused for that |
| WhereFaults.RendersIff | crates/powder-core/src/orm.rs:388-486 | a tree renders if and only if it is well shaped: known columns, bindable values, arrays and objects where they belong |
| WhereMemo.WhereShape | crates/powder-node/ts/orm.ts:270-310 | the accumulated key is the key of the predicate's shape |
| WhereMemo.CollectWhereParams | crates/powder-node/ts/orm.ts:313-348 | the collected values are the predicate's, in order |
| ShapeKeys.NoMarkerUnique | crates/powder-node/ts/orm.ts:275-277 | when no column name contains the marker, runs of columns read back |
| ShapeKeys.MarkerAmbiguous | crates/powder-node/ts/orm.ts:275-277 | a column named like two others around the marker reads two ways |
| ShapeReads.KeyInjective | crates/powder-node/ts/orm.ts:270-310 | equal keys come from the same qualifier and the same shape |
| TsTable.RenderWhere | crates/powder-node/ts/orm.ts:353-408 | the TypeScript printer prints the parts of the shape, or stops exactly at an unknown column |
| TsTable.PowderTable.CompileWhere | crates/powder-node/ts/orm.ts:419-433 | on every call, whatever was compiled before: the clause is the uncached one and the values are this predicate's; a miss is remembered under its key, in an emptied cache when 256 are there |
| TsTable.FaithfulIff | crates/powder-node/ts/orm.ts:419-433 | equal keys always mean equal clauses if and only if no two runs of the table's columns are written alike |
| TwinAgree.TwinRenders | crates/powder-node/ts/orm.ts:353-408 | both compilers print the same parts; where the TypeScript one sends a value as given, the Rust one binds it nudged to its column's declared type, one value per placeholder |
| TwinAgree.TwinBindIff | crates/powder-core/src/orm.rs:305-321 | the two bind the same values if and only if no null is loose and every value already has its column's type |
| TwinBindings.BindingsSent | crates/powder-node/ts/orm.ts:313-348 | what the collector gathers is the value of every placeholder that is sent one, in order |
| TwinBindings.IntegerForFloat | crates/powder-core/src/orm.rs:309-316 | an integer for a float column is bound as a float by one and as an integer by the other |
| TwinAgree.TwinMeans | crates/powder-node/ts/orm.ts:353-433 | so, where both bind the same values, the twin's text has the tree's three-valued meaning too |
| TwinAgree.TwinMeansUntyped | crates/powder-node/ts/orm.ts:188-191 | under the TypeScript reading, where values are sent as given, the text has the tree's meaning as soon as no null is loose |
| TwinAgree.TwinClause | crates/powder-node/ts/orm.ts:419-433 | the two compile the same clause text, WHERE included |
| TwinCounts.MarksCounted | crates/powder-node/ts/orm.ts:313-408 | placeholders are as many as collected values plus the loose nulls |
| RelationNames.ClaimName | crates/powder-core/src/orm.rs:225-231 | the loop ends, with the fewest underscores that make the name free |
| RelationNames.OneTaken | crates/powder-core/src/orm.rs:225-231 | a free base is the name; a taken one gets an underscore |
| RelationNames.DeriveRelations | crates/powder-core/src/orm.rs:222-266 | first one relation for each of the table's keys, named after the stem of a lone column `<stem>_id` and after the target otherwise, then one for each key of another table, named after its owner, each name the first that is free |
| RelationNames.ClaimedUnique | crates/powder-core/src/orm.rs:222-266 | the same foreign keys and columns always give the same relations under the same names |
| RelationNames.DerivedApart | crates/powder-core/src/orm.rs:222-266 | no relation is named like a column, another relation, or a key column |
| JsonText.KeyTextInjective | crates/powder-core/src/orm.rs:939-949 | two key tuples have the same JSON text exactly when they are the same values |
| RelationRows.RowKeeps | crates/powder-core/src/orm.rs:1000-1010 | attaching never overwrites a column |
| RelationRows.EntryPuts | crates/powder-core/src/orm.rs:1000-1010 | under the relation's name goes the first row found or null, or the list of all found, and nothing else changes |
| RelationRows.TupleIs | crates/powder-core/src/orm.rs:918-930 | a row has a key exactly when every key column is there and not null, and then the key is those values |
| RelationBatch.LoadBucket | crates/powder-core/src/orm.rs:956-998 | over all chunks of distinct keys, the group of a key is what that key finds alone, in table order |
| RelationBatch.FiveHundredEach | crates/powder-core/src/orm.rs:956-980 | up to 500 keys are one query, more are one for the first 500 and then the rest |
| RelationBatch.GroupsAreLookupsIff | crates/powder-core/src/orm.rs:956-998 | every group is its key's own lookup if and only if the database finds for a key only rows showing that key |
| RelationBatch.MixedTypesMiss | crates/powder-core/src/orm.rs:309-322 | for an integer key into a float column, the row showing the equal float is found by the key alone and is missing from its group |
| RelationBatch.FirstSeen | crates/powder-core/src/orm.rs:932-942 | distinct keys stand in the order in which the rows first show them |
| RelationLoad.CollectKeys | crates/powder-core/src/orm.rs:939-949 | comparing key texts collects each key tuple once, in the order first seen |
| RelationLoad.LoadChunks | crates/powder-core/src/orm.rs:956-980 | one query per 500 keys, in order, stopping at the first value that cannot be bound |
| RelationLoad.GroupRows | crates/powder-core/src/orm.rs:989-998 | looking a key up in the hash map gives its bucket of loaded rows in order |
| RelationLoad.AttachOne | crates/powder-core/src/orm.rs:913-1012 | the loops do to the rows what the batch functions say, whatever the database answers, and fail exactly when those do |
| RelationLoad.AttachRelations | crates/powder-core/src/orm.rs:907-1015 | the same for a whole include tree, entry after entry and nested entries first |
| RelationLoad.LoadIncludes | crates/powder-core/src/orm.rs:907-1015 | for a schema derived from foreign keys, where the entries asked for are exact: every row ends, at every depth, as if it had been looked up alone |
| RelationAgree.DerivedGood | crates/powder-core/src/orm.rs:222-266 | a schema derived from foreign keys over declared columns keeps key columns apart from relation names, table by table |
| RelationAgree.EntryIsPerRow | crates/powder-core/src/orm.rs:913-1012 | one entry of the include tree does to all rows what it does to each row alone, if the keys it follows are exact |
| RelationAgree.BatchIsPerRow | crates/powder-core/src/orm.rs:907-1015 | batched loading attaches to every row, at every depth, what looking up that row alone would, and fails exactly when some entry is unknown or some row fails alone; exactness is asked only along the entries |
| RelationAgree.ListExactIff | crates/powder-core/src/orm.rs:956-1010 | for a list relation every row is right if and only if the database finds for the rows' keys only rows that show those keys |
| RelationAgree.SingleExactIff | crates/powder-core/src/orm.rs:956-1010 | for a relation to one row, found by a key no other row shows, every row is right if and only if the first row found for each key shows it |
| QueryCache.Cache.Insert | crates/powder-core/src/client.rs:103-122 | the eviction loop ends and leaves the oldest entries out, the new one in |
| QueryCache.EvictedIs | crates/powder-core/src/client.rs:103-122 | eviction keeps the cache sound, drops only oldest entries and ends with room |
| QueryCache.InsertedKeeps | crates/powder-core/src/client.rs:99-122 | a result of up to 64 MiB goes in behind the fewest evictions that leave it room among 32 entries and 128 MiB, a larger one changes nothing |
| QueryCache.InsertedSoundIff | crates/powder-core/src/client.rs:84-122 | order, map, total and limits survive an insertion if and only if the result is too large to keep or its key was not there |
| CacheKey.MakeKey | crates/powder-core/src/client.rs:125-153 | the buffer ends as SQL, separator and tagged values |
| CacheKey.KeySql | crates/powder-core/src/client.rs:125-153 | the key of NUL-free SQL shows the SQL, whatever the values and their sizes |
| CacheKey.KeyInjective | crates/powder-core/src/client.rs:125-153 | equal keys mean equal SQL and equal values, for NUL-free SQL and values below 2^32 bytes |
| CacheKey.SameLookupIff | crates/powder-core/src/client.rs:125-153 | against a NUL-free statement's key, an equal key is the same lookup if and only if its SQL is NUL-free |
| CacheKey.NulCollides | crates/powder-core/src/client.rs:125-153 | a NUL at the end of the SQL passes for the separator and a NULL value |
| CacheKey.LongTextCollides | crates/powder-core/src/client.rs:125-153 | a text of 2^32 zero bytes keys like an empty one followed by NULLs |
| CacheProtocol.StepKeepsInv | crates/powder-core/src/client.rs:448-545 | every step of every interleaving keeps every entry equal to running its statement now |
| CacheProtocol.CoherentIff | crates/powder-core/src/client.rs:448-545 | locked hits equal fresh runs and a racing probe returns at most the state just before, in every run of the requests callers ask, if and only if bypassing writes change no cacheable result and no two requests asked share a key and differ in their answer |
| CacheProtocol.AskedAgain | crates/powder-core/src/client.rs:493-545 | a kept result is answered when asked again, in memory to a probe as well |
| CacheProtocol.PlainTellable | crates/powder-core/src/client.rs:125-153 | callers who send no NUL in SQL and no value of 2^32 bytes are never answered from another request's entry |
| CacheProtocol.NoBypassCoherent | crates/powder-core/src/client.rs:448-470 | requests without NUL in SQL and without values of 2^32 bytes, all writes through execute, no failing one leaving anything: coherent |
| CacheProtocol.NulLookupHits | crates/powder-core/src/client.rs:493-503 | a lookup whose SQL ends in a NUL hits another statement's result where running it is an error, so a caller who asks both is not served coherently |
| CacheProtocol.ReachableSound | crates/powder-core/src/client.rs:84-122 | in every state reachable from an empty cache order is duplicate-free with the map's keys, the total is the sum, the limits hold, and no insertion is due for a key already there |
| CachedClient.Client.QueryBytesShared | crates/powder-core/src/client.rs:505-545 | check, run, insert are steps of the protocol with the connection held |
| CachedClient.Client.ProbeCache | crates/powder-core/src/client.rs:493-503 | a probe answers what the cache holds at its own data version |
| CachedClient.Client.Execute | crates/powder-core/src/client.rs:448-470 | the clear follows a write that worked and not one that failed |
| Transactions.Client.Transact | crates/powder-node/ts/index.ts:106-132 | begin or savepoint, body, commit or release, rollback and release, depth restored: the protocol on the session |
| Transactions.Client.Run | crates/powder-node/ts/index.ts:106-132 | a body of writes, throws, catches and nested calls leaves the depth as it found it |
| Transactions.OwnSavepoint | crates/powder-node/ts/index.ts:107-110 | the newest savepoint of a depth's name is the current call's own |
| Transactions.ProtocolMeans | crates/powder-node/ts/index.ts:106-132 | for every body tree on every server: the state and error of the semantics that discards exactly each failing call's own work |
| Transactions.CaughtCallUndone | crates/powder-node/ts/index.ts:106-132 | a nested call that throws and is caught leaves the enclosing transaction as it was, committable |
| Transactions.ReleaseMayBeDropped | crates/powder-core/src/ms.rs:177-195 | dropping every RELEASE changes neither state nor error, whichever way the server treats savepoints it rolls back to |
| TxRewrite.ClientStatementsRewritten | crates/powder-core/src/ms.rs:177-205 | what each statement the client sends becomes in T-SQL, RELEASE nothing |
| TxRewrite.CallsSpelled | crates/powder-node/ts/index.ts:107-128 | what the client sends, letter by letter: BEGIN IMMEDIATE and COMMIT outside, savepoints named powder_sp_ and the numeral of the depth inside |
| TxRewrite.AnyCase | crates/powder-core/src/ms.rs:177-205 | keywords are read whatever their case |
| TxRewrite.LongSpellings | crates/powder-core/src/ms.rs:177-195 | BEGIN alone and SAVEPOINT before a name are rewritten too |
| TxRewrite.BlankAround | crates/powder-core/src/ms.rs:177-182 | white space around a statement is no part of it |
| TxRewrite.RewrittenApplies | crates/powder-core/src/ms.rs:177-205 | each statement the client sends, rewritten and run by SQL Server, changes the session as the protocol takes it to; the dropped RELEASE is the swallowed one |
| TxRewrite.OthersUntouched | crates/powder-core/src/ms.rs:177-195 | a statement that starts with no such keyword goes through as it is |
| SqlTokens.LexReads | crates/powder-core/src/pg.rs:87-144 | what the scanner finds is a reading the grammar allows, unterminated literals and comments included |
| SqlTokens.LexUnique | crates/powder-core/src/pg.rs:87-144 | and it is the only one |
| SqlTokens.LiteralsOpen | crates/powder-core/src/guard.rs:58-90 | which characters open a literal, in each reading, and which end it |
| SqlTokens.CommentsRun | crates/powder-core/src/pg.rs:103-127 | two dashes run to the end of the line, a slash and a star to the next star and slash |
| Placeholders.TranslatePlaceholders | crates/powder-core/src/pg.rs:87-144 | the index loop translates token by token, for Postgres and for SQL Server |
| Placeholders.MarkNumbered | crates/powder-core/src/ms.rs:207-264 | each code-level mark becomes the parameter counting the marks up to it; everything around it stands |
| Placeholders.MarkSpelled | crates/powder-core/src/pg.rs:132-136 | for Postgres a mark becomes $ and for SQL Server @P, before the decimal numeral of how many marks there are up to it |
| Placeholders.OutputTokens | crates/powder-core/src/pg.rs:87-144 | the output falls into the same tokens, each mark replaced by its parameter's characters |
| Placeholders.TranslatedOnce | crates/powder-core/src/pg.rs:87-144 | translating again, for either server, changes nothing |
| StackGuard.HasStackedStatements | crates/powder-core/src/guard.rs:18-94 | true exactly when some code-level semicolon comes before a token that is neither space nor comment |
| StackGuard.StackedIs | crates/powder-core/src/guard.rs:44-56 | white space is the blank, tab, line feed, form feed and carriage return |
| StackGuard.QuotedIsOne | crates/powder-core/src/guard.rs:58-90 | a value quoted by doubling is one token whatever it contains |
| StackGuard.QuotingHides | crates/powder-core/src/guard.rs:18-94 | so the guard's answer does not depend on the quoted value |
| NamedSql.PiecesSource | crates/powder-cli/src/schema.rs:147-199 | the pieces put together are the source: nothing but the names changes |
| NamedSql.NameIsPiece | crates/powder-cli/src/schema.rs:175-182 | a colon before a letter or underscore names the run of letters, digits and underscores that follows |
| NamedSql.ColonIsPiece | crates/powder-cli/src/schema.rs:171-174 | two colons are a cast, a colon before anything else is itself |
| NamedSql.TextIsPieces | crates/powder-cli/src/schema.rs:157-170 | inside single quotes nothing is a name, and the next single quote ends the text |
| NamedSql.NameCompiled | crates/powder-cli/src/schema.rs:183-191 | a name compiles to a question mark and takes its turn in the order |
| NamedSql.CompileNamedSql | crates/powder-cli/src/schema.rs:147-207 | the compiled text and the order of names, exactly when the names used are the names declared; otherwise the first undeclared name, or the first unused parameter |
| NamedSql.NamedThenNumbered | crates/powder-core/src/pg.rs:87-144 | after translation the k-th parameter stands where the source has its k-th name, exactly when the code holds no question mark |
| Ownership.Ffi.ReleaseSharedBuf | crates/powder-ffi/src/lib.rs:74-86 | one reference fewer at a registered address, no empty entry left |
| Ownership.Ffi.HandOut | crates/powder-ffi/src/lib.rs:226-248 | the reference goes into the registry under the address given to the host |
| Ownership.Ffi.PowderFreeBuffer | crates/powder-ffi/src/lib.rs:302-313 | a registered address drops a reference, any other gives its box back, an empty buffer is ignored |
| Ownership.StepKeeps | crates/powder-ffi/src/lib.rs:66-86 | every step keeps one reference per pointer, live distinct addresses and no unreferenced buffer |
| Ownership.HandedOutIsLive | crates/powder-ffi/src/lib.rs:302-313 | in every run, memory behind a pointer is live and as long as reported, counted once per pointer, and freed by the branch of its kind |
| Ownership.NothingLeaks | crates/powder-ffi/src/lib.rs:444-449 | once everything is freed, registry and boxes are empty and buffers live only where they are held |
| Ownership.FreedTwice | crates/powder-ffi/src/lib.rs:302-313 | after the last free of a shared buffer its address is neither registered nor boxed |
| TableOrder.TablesInDependencyOrder | crates/powder-cli/src/schema.rs:406-428 | a permutation: referenced tables first as far as possible, the rest as declared |
| TableOrder.FallbackIff | crates/powder-cli/src/schema.rs:406-428 | the fallback takes exactly the tables from which references reach a cycle |
| TableOrder.ReferencedFirst | crates/powder-cli/src/schema.rs:404-428 | every table that reaches no cycle comes after all the tables it refers to |
| DumpOrder.EndsIff | crates/powder-cli/src/tools.rs:116-133 | the loop ends exactly when no table is asked for twice |
| DumpOrder.DependencyOrder | crates/powder-cli/src/tools.rs:106-134 | every table once, parents first, those that reach a cycle last and as declared |
| DumpOrder.ParentsFirst | crates/powder-cli/src/tools.rs:106-134 | every table that reaches no cycle comes after all the tables of the dump its foreign keys name |

## Left out

- Floating-point arithmetic and number formatting: floats are bit patterns, conversions are functions of which only `Sane` is assumed.
- AdaptiveColumn.AdaptiveCol.Permute: row numbers of 2^32 and more, whose null indices the source keeps as u32, are not modelled; nor is text beyond 2^32 bytes being sorted, where slicing by wrapped offsets panics (`Sliceable`).
- DirectScan.EncodeChunksDirect: with an ORDER BY, the keys must slice (`AllSliceable`), for the same reason.
- ParallelQuery.ScanBytes: asks of every column the condition of `MergeAgreement.AllCutsAgreeIff`, and that finishing it does not panic: a repair, or an ORDER BY, slices text by offsets that wrap at 2^32 bytes. What SQLite's own sorter answers when the scan answers nothing is not modelled.
- SortPullUp.SortBuilt: the unstable sort is an insertion sort here; only that it permutes and orders is used.
- PcbParts.EncodeParts: parallel writers are tasks run in an arbitrary order, each writing its own region.
- RowidRanges.RangesCover: the arithmetic is that of a release build, which wraps; a debug build panics instead.
- TsTable.FaithfulIff: names the client renders bare must not be SQL keywords, and operator objects hold only known operators of the declared types; untyped callers (an OR that is not an array, null groups, operators named like members of `Object.prototype`) are outside `Typed`.
- TsTable.PowderTable.CompileWhere: a predicate with an unknown column throws on a miss but can be answered from the cache on a hit, as in the source; the contract says so.
- WhereMeaning.TextMeansTree: column names must not be words the parser reserves, since they are printed bare, and comparison with NULL must be Unknown (`Lawful`).
- RelationLoad.LoadIncludes: asks that foreign keys name declared columns, one for one (`RelationNames.Declared`), so that no relation takes the name of a key column, and that a query returns matching rows in table order; the TypeScript twin shares row objects between rows where the Rust one clones, which is not modelled.
- RelationAgree.SingleExactIff: says it for keys that at most one row of the target shows and that find the row showing them, as a referenced key does; for other keys `RelationAgree.EntryIsPerRow` gives one direction.
- RelationAgree.ListExactIff: is for entries without nested ones; through nested entries one direction is proved.
- JsonText.KeyTextInjective: the text of a float is a function assumed to show a point or an exponent and to tell floats apart.
- CacheProtocol.CoherentIff: the database is a function from requests to answers; SQLite's snapshot visibility and page cache are not modelled. That SQLite prepares no statement with a NUL in it (`Proper`) is taken as a fact.
- CacheProtocol.NoBypassCoherent: a limit on callers, not a fact about SQLite: the code binds a value of 2^32 bytes with its length cast to a C int, so such a request runs, under a key another request may have (`CacheKey.LongTextCollides`).
- Transactions.ProtocolMeans: bodies run one statement at a time; failing to open or close is modelled, a failing ROLLBACK is not.
- TxRewrite.ClientStatementsRewritten: trimming is that of ASCII white space.
- NamedSql.NamedThenNumbered: nothing is said of sources with double quotes or comments, which the two scanners read differently.
- Ownership.HandedOutIsLive: rests on the allocator never reusing a live address and on the host freeing each pointer once; the thread-local error slot and raw memory copies are not modelled.
- DumpOrder.DependencyOrder: reading foreign keys from the database is a function; duplicate tables are refused because the loop would not end.
- Placeholders.TranslatePlaceholders: characters stand for bytes; every character the scanners look at is ASCII, so no byte of a longer UTF-8 sequence is one of them.
- The text gates `split_simple_order_by`, `parse_parallel_shape` and `is_cache_safe`, the row-by-row fallback sorter, connection handling, drivers, URL parsing and thread scheduling.
- JSON parsing; the fluent query builders, joins, aggregates, GROUP BY and the mutations of the ORM.
- DDL dialects, introspection, migrations, code generation, the CLI and its rendering, and the language wrappers, which repeat the layout and the protocol.
- Schema parsing apart from relation names; `check_references`, of which only the fact that references name existing tables (`TableOrder.Closed`) is used.
