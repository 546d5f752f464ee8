# Verified core of UltraSQL

A Dafny model of the parts of UltraSQL whose correctness rests on state, encodings or scanning, with
proofs of what they promise. Check everything with `dafny verify dfyconfig.toml`.

**The in-memory catalog.** `InMemoryCatalog.dfy` is the catalog as a class over its four maps and its OID
counter. `CatalogModel.dfy` says what each call means on a single map from OIDs to tables with their
indexes, and `CatalogEffects.dfy` what later lookups find after each of them; `CatalogMaps.dfy` shows that
the four maps stay views of that one map. `ConcurrentCatalog.dfy`
splits `create_table`, `drop_table` and `lookup_table` into their atomic accesses, holds the by-name shard
entry across `install_table` as the source does, and quantifies over every list of calls and every
schedule. `Linearizability.dfy` shows that runs on undotted names are linearizable, and `DottedNames.dfy`
shows for which names exactly that is so; `AtomicCalls.dfy` ties the sequential executions to the catalog
itself. `Winners.dfy` says who wins a race, and `Progress.dfy` that every
fair run ends. `FreshOids.dfy` ties runs to the OID counter. `LookupKeys.dfy` covers the map keys and
`KeyCollisions.dfy` which relations share one.

**The catalog row codec.** Types and rows are encoded in front of a given suffix, so that "decoding the
encoding leaves exactly the suffix" needs no slicing. `TypeCodec.dfy` covers data types of any nesting,
`FieldCodec.dfy` rows described by a layout, `RowCodec.dfy` nine row kinds and `IndexRowCodec.dfy` the
tenth, with its older short form. `RowBytes.dfy` and `TypeBytes.dfy` say which bytes those are, field by
field and tag by tag, and `Utf8Scalars.dfy` which texts pass as UTF-8. `ReaderWriter.dfy` has the byte buffer and the cursor as classes, with
the recursive type encoder and decoder proved against the specification. `SchemaRebuild.dfy` stores a
schema, shuffles the rows and rebuilds it.

**CSV.** `CsvParser.dfy` is the parser's loop and `CsvRoundTrip.dfy` a printer of the format in section 2
of RFC 4180 that it undoes. `CsvInference.dfy`, `CsvSniff.dfy` and `CsvRead.dfy` are type inference, the
choice of a dialect, sniffing and reading. `LeastTypes.dfy` shows that inferred types are the least that
fit, `DialectChoice.dfy` which delimiter wins, and `CsvEdges.dfy` how the parser treats texts no printer
would write. `Wildcard.dfy` is the file-name matcher.

**Bit strings.** `BitBytes.dfy` and `BitStrings.dfy` relate packed bytes to sequences of booleans;
`BitOperations.dfy` and `BitNumbers.dfy` prove every operation equal to one on such sequences, and
`BitWeights.dfy` says which numbers bytes, bits and shifts stand for.

**Smaller cores.** `DecimalKey.dfy` is the hash key of a decimal, over exact rationals. `SqlScanner.dfy`,
`BindSql.dfy`, `LiteralScan.dfy` and `Rescan.dfy` are the statement scanner of the npm package, binding, and
what a second scan makes of the bound statement. `SqlRegions.dfy` is the same binding told in whole strings,
identifiers, comments and dollar-quoted bodies, and `LiteralReader.dfy` reads literals back.

Text in the catalog is a string of UTF-8 bytes, one `char` per byte; in CSV and in the npm package it is a
string of characters. Unicode lower-casing, trimming and the standard library's number parsing are
parameters.

Where the code and its comments differ, the model follows the code:

- `next_oid` promises never to return the invalid OID (crates/ultrasql-catalog/src/memory.rs:94-105). The
  counter wraps: `AllocatedOidsAreFreshIff` gives the number of calls up to which OIDs are valid and
  distinct.
- `install_table` promises `AlreadyExists` when the OID is taken
  (crates/ultrasql-catalog/src/memory.rs:107-108). Two racing creates with one OID and different names can
  both succeed: `RacingCreatesBreakCatalog`, with `AllRunsConsistentIff` as the exact condition.
- `create_index` promises `AlreadyExists` on a used index OID (crates/ultrasql-catalog/src/traits.rs:109-115)
  and does not look at it. `ApplyKeepsOidsIff` and `DropIndexAgreesIff` say exactly when OIDs stay distinct
  and when dropping an index keeps the maps in agreement.
- A table name with a dot is looked up under two keys in two accesses, so such a call is not atomic:
  `NameIsAtomicIff`.
- A length-encoded key can equal a plain one. `TableKeysAgreeIff` names for each pair the one other pair it
  meets: a dotted pair collides exactly when it has a single dot (`DottedPairOwnsKeyIff`).
- A literal that `bindSql` writes can run into its neighbours: `RescansIff` says exactly when.
- The binary form of a bit string cuts the length off at 2^31 - 1: `PgBinaryRoundTripIff`.

## Model

| member | source | states |
|---|---|---|
| LookupKeys.DecodeUndoesEncodedKey | crates/ultrasql-catalog/src/entry.rs:57-70 | decoding recovers both parts of every length-encoded key, whatever digits, colons and dots the names hold |
| LookupKeys.DecodeUndoesTableLookupKey | crates/ultrasql-catalog/src/entry.rs:36-50 | the key of a dotted pair decodes to the folded pair |
| LookupKeys.TypeKeysAgreeIff | crates/ultrasql-catalog/src/entry.rs:78-82 | two types share a key exactly when their folded schemas and names agree |
| Text.FoldAgreesIff | crates/ultrasql-catalog/src/entry.rs:28-32 | two names fold alike exactly when they differ in the case of ASCII letters only |
| KeyCollisions.TableKeysAgreeIff | crates/ultrasql-catalog/src/entry.rs:36-50 | two tables share a key exactly when they are meant to share a slot or one is the other's twin, the plain pair got by cutting the encoded key at its only dot |
| KeyCollisions.DottedPairOwnsKeyIff | crates/ultrasql-catalog/src/entry.rs:37-44 | a dotted pair has its key to itself exactly when it has at least two dots |
| KeyCollisions.PlainPairOwnsKeyIff | crates/ultrasql-catalog/src/entry.rs:45-49 | an undotted pair has its key to itself exactly when its schema is bare or its key does not read as a length-encoded one |
| KeyCollisions.ColonFreeTableKeysAgreeIff | crates/ultrasql-catalog/src/entry.rs:36-50 | with colon-free schemas keys are injective up to the three namespaces that share the bare key |
| KeyCollisions.ColonNamesCollide | crates/ultrasql-catalog/src/entry.rs:45-49 | ("a.b","c") and ("3:a","b1:c") get one key |
| LookupKeys.PublicKeyIsBareIff | crates/ultrasql-catalog/src/memory.rs:149-160 | an unqualified name has a second key exactly when it contains a dot |
| LookupKeys.DottedTableKeyIff | crates/ultrasql-catalog/src/entry.rs:36-50 | a decidable test for the dotted keys some relation can have |
| CatalogEntries.AllocatedOidsAreFreshIff | crates/ultrasql-catalog/src/memory.rs:94-105 | `next_oid` hands out valid, distinct OIDs exactly for the first 2^32 - 16384 calls |
| CatalogModel.ApplyKeepsWellFormed | crates/ultrasql-catalog/src/memory.rs:235-479 | every operation keeps table keys, index keys and OIDs consistent, and a failed one changes nothing |
| CatalogModel.ApplyKeepsOidsIff | crates/ultrasql-catalog/src/memory.rs:259-306 | index OIDs stay distinct exactly when an index that passes the checks of its creation brings an OID its table does not use |
| CatalogModel.ApplyKeepsAttnumsIff | crates/ultrasql-catalog/src/memory.rs:259-395 | indexed columns stay in range exactly when a replaced schema still covers the table's indexes |
| CatalogModel.RunKeepsOids | crates/ultrasql-catalog/src/memory.rs:259-319 | over whole runs with fresh index OIDs they stay distinct |
| FreshOids.NewOidsAreFresh | crates/ultrasql-catalog/src/memory.rs:259-319 | a run whose created indexes bring pairwise different OIDs, none in use, is fresh throughout, whatever else it does |
| FreshOids.AllocatedRunsAreFresh | crates/ultrasql-catalog/src/memory.rs:101-105 | from the empty catalog, index OIDs taken from `next_oid` before it wraps stay distinct in every run |
| CatalogModel.RunKeepsAttnums | crates/ultrasql-catalog/src/memory.rs:259-395 | over whole runs that cover their indexes, attribute numbers stay in range |
| CatalogEffects.OthersUntouched | crates/ultrasql-catalog/src/memory.rs:236-479 | a table that an operation does not name keeps its entry and its indexes, or stays absent |
| CatalogEffects.ApplyKeepsAttributes | crates/ultrasql-catalog/src/memory.rs:321-479 | each attribute of a table is changed by the one operation made for it (columns by two) and by no other |
| CatalogEffects.ColumnsKeepPositions | crates/ultrasql-catalog/src/memory.rs:339-371 | no operation but a schema replacement changes which column a position names |
| CatalogEffects.RunKeepsPositions | crates/ultrasql-catalog/src/memory.rs:235-479 | nor does any run without one, as long as the table stays |
| CatalogEffects.AddColumnAppends | crates/ultrasql-catalog/src/memory.rs:339-371 | the name then finds the table with the new column last and all else as before; fails exactly on a missing table or a name used twice |
| CatalogEffects.ReplaceSchemaWrites | crates/ultrasql-catalog/src/memory.rs:373-395 | the name then finds the table with the new schema and all else as before; fails exactly on a missing table |
| CatalogEffects.SetOptionsWrites | crates/ultrasql-catalog/src/memory.rs:397-418 | the name then finds the table with the new options and all else as before; fails exactly on a missing table |
| CatalogEffects.UpdateTableSizeWrites | crates/ultrasql-catalog/src/memory.rs:321-337 | every name finds what it found, with the new block count for that OID; fails exactly on an unknown OID |
| CatalogEffects.RenameMoves | crates/ultrasql-catalog/src/memory.rs:420-448 | the new key then finds the table under its new name with all else as before, and the old key nothing; fails exactly on a missing table or a bound key |
| CatalogEffects.SetSchemaMoves | crates/ultrasql-catalog/src/memory.rs:450-479 | the same for the folded namespace, which may leave the key as it is |
| CatalogEffects.CreateTableBinds | crates/ultrasql-catalog/src/memory.rs:112-138 | succeeds exactly on a valid, unused OID and an unbound key, and the key then finds the table, without indexes |
| CatalogEffects.SearchPathFinds | crates/ultrasql-catalog/src/entry.rs:45-49 | a table created under an undotted name in `public`, `pg_catalog` or `information_schema` is found by its name alone |
| CatalogEffects.DropTableUnbinds | crates/ultrasql-catalog/src/memory.rs:245-257 | succeeds exactly when the name finds a table; that OID goes, no other, and its key is unbound |
| CatalogEffects.CreateIndexLists | crates/ultrasql-catalog/src/memory.rs:259-306 | lists the index last exactly when it has a valid OID, its table's namespace, columns the table has and an unbound key, with the two errors told apart |
| CatalogEffects.DropIndexUnlists | crates/ultrasql-catalog/src/memory.rs:308-319 | takes exactly the named index off its table's list and unbinds its key |
| CatalogEffects.DropMissingIndexFails | crates/ultrasql-catalog/src/memory.rs:308-319 | dropping an unbound index name changes nothing and fails |
| CatalogMaps.AgreeIsWellFormed | crates/ultrasql-catalog/src/memory.rs:112-138 | four maps that agree are the views of one well-formed model |
| CatalogMaps.AddTableAgrees | crates/ultrasql-catalog/src/memory.rs:112-138 | installing a table keeps the maps in agreement and adds exactly it |
| CatalogMaps.MoveTableAgrees | crates/ultrasql-catalog/src/memory.rs:420-479 | storing a renamed or moved entry under its new key keeps them in agreement |
| CatalogMaps.UpdateTableAgrees | crates/ultrasql-catalog/src/memory.rs:321-418 | overwriting an entry under an unchanged key keeps them in agreement |
| CatalogMaps.RemoveTableAgrees | crates/ultrasql-catalog/src/memory.rs:141-147 | dropping a table removes it and exactly its own indexes |
| CatalogMaps.AddIndexAgrees | crates/ultrasql-catalog/src/memory.rs:259-306 | adding an index appends it to its table's list and to no other |
| CatalogMaps.DropIndexAgreesIff | crates/ultrasql-catalog/src/memory.rs:308-319 | dropping an index by OID keeps the maps in agreement exactly when no other index of the table has that OID |
| CatalogMaps.OrphanedIndex | crates/ultrasql-catalog/src/memory.rs:308-319 | with a second index of the same OID the maps end in disagreement |
| InMemory.InMemoryCatalog.constructor | crates/ultrasql-catalog/src/memory.rs:60-92 | a new catalog is empty and its counter at the first user OID |
| InMemory.InMemoryCatalog.NextOid | crates/ultrasql-catalog/src/memory.rs:101-105 | the n-th call returns the n-th allocated OID |
| InMemory.InMemoryCatalog.TableKeyForUnqualified | crates/ultrasql-catalog/src/memory.rs:149-160 | the key an unqualified name resolves to |
| InMemory.InMemoryCatalog.IndexKeyForUnqualified | crates/ultrasql-catalog/src/memory.rs:162-173 | the same for index names |
| InMemory.InMemoryCatalog.LookupTable | crates/ultrasql-catalog/src/memory.rs:177-189 | finds the one table of the resolved key, and nothing exactly when there is none |
| InMemory.InMemoryCatalog.LookupTableByOid | crates/ultrasql-catalog/src/memory.rs:197-199 | finds the table of an OID |
| InMemory.InMemoryCatalog.ListIndexesForTable | crates/ultrasql-catalog/src/memory.rs:228-232 | lists a table's indexes in creation order |
| InMemory.InMemoryCatalog.CreateTable | crates/ultrasql-catalog/src/memory.rs:236-243 | acts as the model's create on all four maps, keeps their agreement, changes nothing on error |
| InMemory.InMemoryCatalog.DropIndexesForTable | crates/ultrasql-catalog/src/memory.rs:141-147 | the loop removes exactly the listed keys |
| InMemory.InMemoryCatalog.DropTable | crates/ultrasql-catalog/src/memory.rs:245-257 | acts as the model's drop: the table and exactly its indexes go |
| InMemory.InMemoryCatalog.CreateIndex | crates/ultrasql-catalog/src/memory.rs:259-306 | acts as the model's index creation with its error cases in order |
| InMemory.InMemoryCatalog.DropIndex | crates/ultrasql-catalog/src/memory.rs:308-319 | acts as the model's index drop, and leaves the maps in agreement exactly when the OID is the table's only one |
| InMemory.InMemoryCatalog.UpdateTableSize | crates/ultrasql-catalog/src/memory.rs:321-337 | changes the block count in both views of the table |
| InMemory.InMemoryCatalog.AlterTableAddColumn | crates/ultrasql-catalog/src/memory.rs:339-371 | acts as the model does, and afterwards the name finds the same table with the column last |
| InMemory.InMemoryCatalog.AlterTableReplaceSchema | crates/ultrasql-catalog/src/memory.rs:373-395 | acts as the model does, and afterwards the name finds the same table with that schema |
| InMemory.InMemoryCatalog.AlterTableOptions | crates/ultrasql-catalog/src/memory.rs:397-418 | acts as the model does, and afterwards the name finds the same table with those options |
| InMemory.InMemoryCatalog.AlterTableRename | crates/ultrasql-catalog/src/memory.rs:420-448 | moves the table to its new key, or rejects a taken one |
| InMemory.InMemoryCatalog.AlterTableSetSchema | crates/ultrasql-catalog/src/memory.rs:450-479 | moves the table to its key in the new schema |
| InMemory.InMemoryCatalog.Run | crates/ultrasql-catalog/src/memory.rs:235-479 | every sequential run with fresh index OIDs keeps the four maps the views of the model run |
| ConcurrentCatalog.StepKeepsInv | crates/ultrasql-catalog/src/memory.rs:112-138 | every atomic access of every call keeps the invariant of the shared maps |
| ConcurrentCatalog.RunKeepsInv | crates/ultrasql-catalog/src/memory.rs:101-138 | in every schedule a visible name has its entry under its OID, and an entry without a name belongs to a call in flight |
| ConcurrentCatalog.RacingCreatesBreakCatalog | crates/ultrasql-catalog/src/memory.rs:112-138 | any two creates with one OID and different keys have a schedule that breaks the maps |
| ConcurrentCatalog.AllRunsConsistentIff | crates/ultrasql-catalog/src/memory.rs:112-138 | all schedules of a list of calls are consistent exactly when creates that share an OID share a key |
| ConcurrentCatalog.QuiescentMapsAgree | crates/ultrasql-catalog/src/memory.rs:245-257 | once all calls have returned both table maps hold the same entries and no shard entry is held |
| Progress.SomeCallProgresses | crates/ultrasql-catalog/src/memory.rs:112-138 | no reachable state is a deadlock, for all calls |
| Progress.FairRunsFinish | crates/ultrasql-catalog/src/memory.rs:112-257 | after six rounds per call, each giving every thread a turn in any order, every call has returned |
| Linearizability.AllocatorGivesOwnOids | crates/ultrasql-catalog/src/memory.rs:101-105 | creates with OIDs from `next_oid` meet the premise of the following theorems |
| Linearizability.SimpleMeansOneKey | crates/ultrasql-catalog/src/memory.rs:149-160 | the decidable test for a simple name holds exactly when only one of its two keys can ever be bound |
| Linearizability.StepRefines | crates/ultrasql-catalog/src/memory.rs:112-138 | each access either leaves the atomic name map alone or does there what the whole call does |
| Linearizability.RunsRefineAtomicMap | crates/ultrasql-catalog/src/memory.rs:177-189 | in every schedule, outcomes and bindings are those of the atomic calls in the order of their by-name accesses |
| Linearizability.DecisionOrderIsRealTime | crates/ultrasql-catalog/src/memory.rs:245-257 | that order never puts a call before one that had returned before it began |
| Linearizability.SimpleRunsAreLinearizable | crates/ultrasql-catalog/src/memory.rs:177-189 | every schedule of calls on simple names is linearizable |
| AtomicCalls.AtomicIsApply | crates/ultrasql-catalog/src/memory.rs:177-257 | a call made atomically on the name map is the catalog's own operation: same reply, same table for every key |
| AtomicCalls.SequentialRunsAreCatalogRuns | crates/ultrasql-catalog/src/memory.rs:177-257 | so every sequential execution of calls with their own OIDs is a run of the catalog seen by name |
| AtomicCalls.SequentialOutcomesAreReplies | crates/ultrasql-catalog/src/memory.rs:177-257 | and every outcome in it is the catalog's reply at that point |
| Winners.OneWinnerUntilDrop | crates/ultrasql-catalog/src/memory.rs:112-138 | in every run, between two creates that won one key a drop of that key took effect |
| Winners.ExactlyOneWinner | crates/ultrasql-catalog/src/memory.rs:112-138 | once all calls have returned, a key with a valid create and no drop has exactly one winner |
| DottedNames.SceneIsNotLinearizable | crates/ultrasql-catalog/src/memory.rs:149-160 | a run of five calls on a dotted name, with OIDs from `next_oid`, that no order of atomic calls explains |
| DottedNames.NameIsAtomicIff | crates/ultrasql-catalog/src/memory.rs:149-189 | all runs that use a name are linearizable exactly when the name is simple |
| CodecPrimitives.UintRoundTrip | crates/ultrasql-catalog/src/encoding.rs:143-145 | an unsigned integer of any width reads back and leaves the suffix |
| CodecPrimitives.TextRoundTrip | crates/ultrasql-catalog/src/encoding.rs:158-163 | length-prefixed text reads back and leaves the suffix |
| CodecPrimitives.TextCanonical | crates/ultrasql-catalog/src/encoding.rs:293-299 | text that was read re-encodes to the bytes it used |
| Utf8Scalars.Utf8Iff | crates/ultrasql-catalog/src/encoding.rs:293-299 | text is accepted exactly when it is the UTF-8 encoding of scalar values, as section 3 of RFC 3629 defines it |
| Utf8Scalars.ScalarIff | crates/ultrasql-catalog/src/encoding.rs:937-946 | one character is accepted exactly when it is the encoding of one scalar value |
| TypeBytes.LittleEndianByte | crates/ultrasql-catalog/src/encoding.rs:134-154 | byte `i` of a stored integer is its digit of weight `256^i` |
| TypeBytes.SignedBytes | crates/ultrasql-catalog/src/encoding.rs:137-148 | negative integers are stored in two's complement |
| TypeBytes.ScalarBytes | crates/ultrasql-catalog/src/encoding.rs:155-190 | the bytes of flags, texts and optional numbers |
| TypeCodec.TagAtIsExact | crates/ultrasql-catalog/src/encoding.rs:326-369 | a code names at most one type tag |
| TypeBytes.ScalarTypeBytes | crates/ultrasql-catalog/src/encoding.rs:326-369 | each of the 29 types without a parameter is stored as its one tag byte and no other |
| TypeBytes.SizedTypeBytes | crates/ultrasql-catalog/src/encoding.rs:371-490 | sized types and decimals are their tag and their optional numbers |
| TypeBytes.RangeTypeBytes | crates/ultrasql-catalog/src/encoding.rs:597-606 | range types are two bytes, the second counting from one |
| TypeBytes.GeometryTypeBytes | crates/ultrasql-catalog/src/encoding.rs:623-633 | geometric types likewise |
| TypeBytes.EnumTypeBytes | crates/ultrasql-catalog/src/encoding.rs:397-405 | an enum is its tag, OID, name, label count and labels |
| TypeBytes.CompositeTypeBytes | crates/ultrasql-catalog/src/encoding.rs:406-415 | a composite is its tag, OID, name, field count and fields |
| TypeBytes.DomainTypeBytes | crates/ultrasql-catalog/src/encoding.rs:416-427 | a domain is its tag, OID, name, null flag and base type |
| TypeBytes.ArrayTypeBytes | crates/ultrasql-catalog/src/encoding.rs:478-481 | an array is its tag and its element type |
| TypeCodec.FaultFreeIff | crates/ultrasql-catalog/src/encoding.rs:371-491 | encoding a type fails exactly when some part of it cannot be stored |
| TypeCodec.TypeRoundTrip | crates/ultrasql-catalog/src/encoding.rs:493-595 | for every persistable type of any depth, decoding its encoding before any suffix gives the type and leaves exactly the suffix |
| TypeCodec.TypeCanonical | crates/ultrasql-catalog/src/encoding.rs:493-595 | every decoded type is persistable and re-encodes to the bytes it consumed |
| TypeCodec.TypeAppends | crates/ultrasql-catalog/src/encoding.rs:371-491 | encoding in front of a suffix is encoding and appending the suffix |
| ReaderWriter.Reader.Finish | crates/ultrasql-catalog/src/encoding.rs:204-211 | accepts exactly when every byte was read |
| ReaderWriter.Reader.Take | crates/ultrasql-catalog/src/encoding.rs:233-249 | advances by the bytes asked for, or fails and stays |
| ReaderWriter.Reader.Str | crates/ultrasql-catalog/src/encoding.rs:293-299 | reads what the text parser reads and advances past it |
| ReaderWriter.Reader.DecodeDataType | crates/ultrasql-catalog/src/encoding.rs:493-595 | the recursive decoder on a cursor equals the parser on the remaining bytes, and terminates |
| ReaderWriter.Writer.Str | crates/ultrasql-catalog/src/encoding.rs:158-163 | appends the length and bytes of a text, or fails when it is too long |
| ReaderWriter.Writer.EncodeDataType | crates/ultrasql-catalog/src/encoding.rs:371-491 | the recursive encoder appends exactly the specified bytes, or fails with the specified fault |
| FieldCodec.ValRoundTrip | crates/ultrasql-catalog/src/encoding.rs:127-320 | a field of any kind reads back and leaves the suffix |
| FieldCodec.ValCanonical | crates/ultrasql-catalog/src/encoding.rs:127-320 | a field that was read re-encodes to the bytes it used |
| FieldCodec.DecodesIff | crates/ultrasql-catalog/src/encoding.rs:698-759 | for any row layout, bytes decode to a row exactly when they are its encoding |
| FieldCodec.AppendedBytesRejected | crates/ultrasql-catalog/src/encoding.rs:204-211 | an encoded row with bytes appended is rejected as trailing bytes |
| FieldCodec.StrictPrefixRejected | crates/ultrasql-catalog/src/encoding.rs:204-249 | every strict prefix of an encoded row is rejected |
| RowCodec.RelAtUndoes | crates/ultrasql-catalog/src/encoding.rs:655-692 | relation kinds come back from their codes |
| RowCodec.ConAtUndoes | crates/ultrasql-catalog/src/encoding.rs:1045-1068 | constraint kinds come back from their codes |
| RowCodec.ValsFitIff | crates/ultrasql-catalog/src/encoding.rs:698-1285 | a row's fields fit its layout exactly when the row is encodable |
| RowCodec.RowDecodesIff | crates/ultrasql-catalog/src/encoding.rs:698-1285 | for each of nine row kinds, bytes decode to a row exactly when encoding the row gives those bytes; `RowBytes.RowIsItsParts` says which they are |
| RowCodec.RowAppendedRejected | crates/ultrasql-catalog/src/encoding.rs:698-1285 | appended bytes are rejected for each row kind |
| RowCodec.RowPrefixRejected | crates/ultrasql-catalog/src/encoding.rs:698-1285 | strict prefixes are rejected for each row kind |
| RowBytes.RowIsItsParts | crates/ultrasql-catalog/src/encoding.rs:698-1285 | the bytes of every row are the primitive encodings of its fields in the order the source writes them, lists counted first |
| RowBytes.IndexRowIsItsParts | crates/ultrasql-catalog/src/encoding.rs:958-989 | the same of index rows, head and tail |
| RowBytes.RelLetter | crates/ultrasql-catalog/src/encoding.rs:655-677 | the letter each relation kind is stored as |
| RowBytes.ConLetter | crates/ultrasql-catalog/src/encoding.rs:1045-1055 | the letter each constraint type is stored as |
| IndexRowCodec.IndexRoundTrip | crates/ultrasql-catalog/src/encoding.rs:958-1039 | index rows decode to themselves, and with bytes appended are rejected |
| IndexRowCodec.IndexPrefixDecodesIff | crates/ultrasql-catalog/src/encoding.rs:1008-1009 | exactly one strict prefix of an index row decodes, the one ending after the keys, as a b-tree row without opclasses or options |
| IndexRowCodec.ShortFormReads | crates/ultrasql-catalog/src/encoding.rs:1008-1009 | the old short form of a row reads as that row with access method `btree`, no opclass for any key and no options |
| IndexRowCodec.IndexDecodesIff | crates/ultrasql-catalog/src/encoding.rs:958-1039 | bytes decode to an index row exactly when they are its encoding or its old short form |
| SchemaRebuild.SortSorts | crates/ultrasql-catalog/src/encoding.rs:847-861 | a stable sort by attribute number: sorted, no column lost, equal numbers in their old order |
| SchemaRebuild.LiveColumnsComeBack | crates/ultrasql-catalog/src/encoding.rs:847-861 | the live columns come back in order from any shuffle with any dropped ones |
| SchemaRebuild.StoredSchemaComesBack | crates/ultrasql-catalog/src/encoding.rs:781-861 | encoding a schema's columns, shuffling them with dropped ones, decoding and rebuilding gives the schema |
| Wildcard.WildcardMatch | crates/ultrasql-core/src/csv.rs:863-913 | the greedy matcher that remembers its last star says yes exactly when the pattern matches, and terminates |
| Wildcard.NewStarSuffices | crates/ultrasql-core/src/csv.rs:863-913 | once a later star is reached, earlier stars need no more text |
| Wildcard.MismatchAdvances | crates/ultrasql-core/src/csv.rs:863-913 | after a mismatch only longer stretches of the last star remain |
| CsvParser.ParseCsvRecords | crates/ultrasql-core/src/csv.rs:210-284 | the loop equals the step-by-step machine that the round-trip theorems are about |
| CsvRoundTrip.ParseUndoesPrint | crates/ultrasql-core/src/csv.rs:210-284 | for every dialect whose special characters differ and every choice of quoting and line ends, parsing gives back the printed records |
| CsvRoundTrip.LayoutDoesNotMatter | crates/ultrasql-core/src/csv.rs:210-284 | line ends and needless quotes do not change the records |
| CsvRoundTrip.RecordsRoundTrip | crates/ultrasql-core/src/csv.rs:210-284 | all lists of non-empty records print, with quotes where needed, and parse back |
| CsvRoundTrip.ParsedRecordsAreNonEmpty | crates/ultrasql-core/src/csv.rs:819-835 | no text parses to an empty record |
| CsvRoundTrip.ReprintingIsStable | crates/ultrasql-core/src/csv.rs:210-284 | whatever was parsed, printing and parsing again gives the same records |
| CsvEdges.UnclosedQuoteFails | crates/ultrasql-core/src/csv.rs:277-279 | a quote that is never closed is an error, whatever follows it |
| CsvEdges.EmptyLinesAreSkipped | crates/ultrasql-core/src/csv.rs:824-835 | a line end before a record leaves no record, whichever it is |
| CsvEdges.TextAfterQuoteJoins | crates/ultrasql-core/src/csv.rs:221-275 | text after a closing quote joins the field |
| CsvEdges.LoneEscapeIsText | crates/ultrasql-core/src/csv.rs:236-247 | an escape before anything but a quote or an escape stands for itself |
| CsvInference.MergeIsLeastUpperBound | crates/ultrasql-core/src/csv.rs:719-732 | merging two types is their join in the order of types |
| CsvInference.MergeColumnIsJoin | crates/ultrasql-core/src/csv.rs:704-732 | a column's merged type is the join of the types of its cells |
| CsvInference.RowOrderDoesNotMatter | crates/ultrasql-core/src/csv.rs:704-717 | column types depend only on which rows there are |
| CsvInference.CellsFitColumnTypes | crates/ultrasql-core/src/csv.rs:757-770 | every cell is accepted by the type reported for its column, given that integer text is also float text |
| CsvInference.InferColumnTypes | crates/ultrasql-core/src/csv.rs:704-717 | the nested loops compute the merged type of each column, text where no cell is filled |
| LeastTypes.IsoDateIff | crates/ultrasql-core/src/csv.rs:780-788 | dates are four, two and two digits around dashes |
| LeastTypes.IsoTimestampIff | crates/ultrasql-core/src/csv.rs:790-804 | timestamps by position: a date, a space or a `T`, a clock; after a `T` no space may follow anywhere |
| LeastTypes.AcceptedIff | crates/ultrasql-core/src/csv.rs:734-770 | a filled cell is accepted by exactly the types above its own, given that the standard library's numbers are neither boolean words nor dates |
| LeastTypes.LeastAcceptingType | crates/ultrasql-core/src/csv.rs:704-770 | a column with a filled cell is accepted by exactly the types above the one reported, which is therefore the least |
| LeastTypes.BlankColumnIsText | crates/ultrasql-core/src/csv.rs:713-716 | a column without a filled cell is text |
| LeastTypes.SniffedTypesAreLeast | crates/ultrasql-core/src/csv.rs:327-350 | the same of every column of a sniffed text |
| LeastTypes.HasHeaderIff | crates/ultrasql-core/src/csv.rs:671-689 | there is a header exactly when the names are usable and some type fits a name's column but not the name; for a lone record, when only text fits a name |
| CsvSniff.ModeWidth | crates/ultrasql-core/src/csv.rs:643-657 | the loop finds the most frequent width, the largest on a tie, and nothing only for no widths |
| CsvSniff.ScoreDialect | crates/ultrasql-core/src/csv.rs:617-641 | a dialect's standing, with saturating arithmetic |
| CsvSniff.ChooseDialect | crates/ultrasql-core/src/csv.rs:586-615 | the first best candidate, or commas when none stands |
| CsvSniff.BestIsFirstBest | crates/ultrasql-core/src/csv.rs:586-609 | the chosen dialect has the highest score and is the first with it; none is chosen only if none stands |
| DialectChoice.StandsIffTable | crates/ultrasql-core/src/csv.rs:617-641 | a delimiter stands exactly when it parses the text and most records have the same two or more cells |
| DialectChoice.SomeTableIsChosen | crates/ultrasql-core/src/csv.rs:586-606 | as soon as one of the four delimiters gives a table, one that does is chosen |
| DialectChoice.ChosenIsHeaviest | crates/ultrasql-core/src/csv.rs:586-641 | no delimiter weighs more than the chosen one, by 10000 times the width, 100 times the records of that width and the records; on a tie the earlier one is chosen |
| DialectChoice.ShortTextsPreferWidth | crates/ultrasql-core/src/csv.rs:632-635 | up to 98 records that order is by width, then by records of that width, then by records |
| DialectChoice.CommaIsTheFallback | crates/ultrasql-core/src/csv.rs:607-614 | without a table the comma is taken, with the width of the first record or its parse error |
| CsvRead.HeaderNamesAreUsable | crates/ultrasql-core/src/csv.rs:691-702 | yes exactly when no name is blank and none repeats, ignoring ASCII case |
| CsvRead.DetectHeader | crates/ultrasql-core/src/csv.rs:671-689 | yes exactly when the first record has usable names and does not fit the data below |
| CsvRead.SniffCsvText | crates/ultrasql-core/src/csv.rs:305-358 | sniffing as a whole: path, dialect, newline, header and columns, with its errors in order |
| CsvRead.SniffedRecords | crates/ultrasql-core/src/csv.rs:305-326 | after a successful sniff all records have one cell per column; names are those of the header row, or `column0`, `column1` and so on |
| CsvRead.SniffedTypesFit | crates/ultrasql-core/src/csv.rs:327-350 | every data cell of a sniffed text is accepted by its column's type |
| CsvRead.SniffedNamesAreDistinct | crates/ultrasql-core/src/csv.rs:333-342 | column names are distinct ignoring ASCII case, read or generated |
| CsvRead.NoColumnsNeverReported | crates/ultrasql-core/src/csv.rs:312-315 | no text is reported as having no columns |
| CsvRead.ReadCsvData | crates/ultrasql-core/src/csv.rs:526-555 | reading succeeds exactly when sniffing does, never fails on a row width, and its header and rows are exactly the parsed records |
| BitBytes.SetRawBit | crates/ultrasql-core/src/bit_string.rs:339-351 | changes one bit in place and no other, or fails beyond the end |
| BitStrings.BitsOfPack | crates/ultrasql-core/src/bit_string.rs:26-33 | every sequence of booleans is the bits of a valid bit string |
| BitStrings.EqualIffSameBits | crates/ultrasql-core/src/bit_string.rs:11-16 | valid bit strings are structurally equal exactly when their bits are |
| BitStrings.MaskUnusedBits | crates/ultrasql-core/src/bit_string.rs:353-365 | clears the bits after the last logical one and no other |
| BitStrings.New | crates/ultrasql-core/src/bit_string.rs:26-33 | accepts exactly payloads of the right length, and the result is valid |
| BitOperations.Bit | crates/ultrasql-core/src/bit_string.rs:109-114 | the bit at an index, or nothing beyond the end |
| BitOperations.ToBitText | crates/ultrasql-core/src/bit_string.rs:92-105 | the text of the bits |
| BitOperations.BitCountCounts | crates/ultrasql-core/src/bit_string.rs:209-218 | the count is the number of true bits |
| BitOperations.SetBit | crates/ultrasql-core/src/bit_string.rs:118-125 | equals updating the sequence |
| BitOperations.BitNot | crates/ultrasql-core/src/bit_string.rs:129-136 | complementing bytes and masking equals complementing the bits |
| BitOperations.ZipBits | crates/ultrasql-core/src/bit_string.rs:307-319 | equals zipping the sequences, and fails exactly on different lengths |
| BitOperations.BitAnd | crates/ultrasql-core/src/bit_string.rs:140-142 | conjunction bit by bit |
| BitOperations.BitOr | crates/ultrasql-core/src/bit_string.rs:146-148 | disjunction bit by bit |
| BitOperations.BitXor | crates/ultrasql-core/src/bit_string.rs:152-154 | exclusive or bit by bit |
| BitOperations.BitShiftLeft | crates/ultrasql-core/src/bit_string.rs:158-170 | drops bits on the left and adds zeros on the right |
| BitOperations.BitShiftRight | crates/ultrasql-core/src/bit_string.rs:174-185 | drops bits on the right and adds zeros on the left |
| BitOperations.Concat | crates/ultrasql-core/src/bit_string.rs:189-205 | equals concatenation, and fails exactly when the length leaves 32 bits |
| BitOperations.ResizeFixed | crates/ultrasql-core/src/bit_string.rs:291-301 | cuts or pads at the right |
| BitOperations.CoerceTo | crates/ultrasql-core/src/bit_string.rs:254-282 | what storing in a `bit` or `varbit` column gives, with and without a cast |
| BitOperations.CoercionSettles | crates/ultrasql-core/src/bit_string.rs:254-288 | a coerced value matches its type and coerces to itself |
| BitOperations.Parse | crates/ultrasql-core/src/bit_string.rs:37-49 | reads exactly texts of zeros and ones |
| BitOperations.TextRoundTrip | crates/ultrasql-core/src/bit_string.rs:37-105 | text reads back as the value, and only its text does |
| BitOperations.DeMorgan | crates/ultrasql-core/src/bit_string.rs:129-154 | De Morgan's laws and double negation as structural equalities |
| BitOperations.ShiftsCompose | crates/ultrasql-core/src/bit_string.rs:158-185 | shifts by two amounts are a shift by their sum |
| BitOperations.ShiftsClear | crates/ultrasql-core/src/bit_string.rs:158-185 | shifting there and back clears exactly the bits that left |
| BitNumbers.FromI64 | crates/ultrasql-core/src/bit_string.rs:54-70 | the loop writes the copied bits of the value |
| BitNumbers.IntBitsAreDigits | crates/ultrasql-core/src/bit_string.rs:54-70 | at any width those are the two's-complement digits of the value modulo 2 to the width |
| BitNumbers.SignedReadsBackIff | crates/ultrasql-core/src/bit_string.rs:54-70 | reading them as signed gives the value exactly when the width has room for it |
| BitNumbers.SignedReadsBack | crates/ultrasql-core/src/bit_string.rs:54-70 | from 64 bits on it always does |
| BitNumbers.FromPgBinary | crates/ultrasql-core/src/bit_string.rs:239-250 | decodes the binary form, rejecting negative lengths and wrong payloads |
| BitNumbers.PgBinaryRoundTripIff | crates/ultrasql-core/src/bit_string.rs:229-250 | the binary form reads back exactly up to 2^31 - 1 bits; one more loses the last bit, longer ones fail |
| BitNumbers.PgBinaryCanonicalIff | crates/ultrasql-core/src/bit_string.rs:229-250 | what decodes is the encoding of the result exactly when no unused bit was set |
| BitWeights.ByteIsItsBits | crates/ultrasql-core/src/bit_string.rs:332-337 | a byte is the number its bits denote, bit 0 weighing 128 |
| BitWeights.PackedByteIs | crates/ultrasql-core/src/bit_string.rs:339-351 | byte `i` of a packed value is the number of its bits `8i` to `8i + 7`, zeros where there are none |
| BitWeights.BytesWeighTheirBits | crates/ultrasql-core/src/bit_string.rs:332-337 | a byte string read as a big-endian number is the number its bits denote |
| BitWeights.BigEndianWeighs | crates/ultrasql-core/src/bit_string.rs:229-235 | the four length bytes weigh 2^24, 2^16, 2^8 and 1 |
| BitWeights.ShiftRightDivides | crates/ultrasql-core/src/bit_string.rs:174-185 | shifting right by n divides by 2^n |
| BitWeights.ShiftLeftMultiplies | crates/ultrasql-core/src/bit_string.rs:158-170 | shifting left by n multiplies by 2^n, modulo 2 to the width |
| BitWeights.NotSubtracts | crates/ultrasql-core/src/bit_string.rs:129-136 | complementing subtracts from all ones |
| BitWeights.ResizeKeepsTheLeft | crates/ultrasql-core/src/bit_string.rs:291-301 | resizing keeps the bits on the left and pads with zeros |
| BitWeights.TextIsBinaryNumeral | crates/ultrasql-core/src/bit_string.rs:92-105 | the text of a value is the binary numeral of its number |
| BitWeights.TextReadsAsNumeral | crates/ultrasql-core/src/bit_string.rs:37-49 | and texts are read as binary numerals |
| DecimalKey.CanonicalIsUnique | crates/ultrasql-executor/src/value_key.rs:3-15 | equal rationals have one canonical key |
| DecimalKey.CanonicalDecimalKey | crates/ultrasql-executor/src/value_key.rs:3-15 | the loop gives the canonical key of the same rational, lowering the scale by at most 38 |
| DecimalKey.DecimalValuesEqual | crates/ultrasql-executor/src/value_key.rs:17-24 | decimals compare equal exactly when they are the same rational |
| SqlScanner.TokensCover | packages/npm/index.js:124-184 | the scanner's tokens cover the statement, character for character |
| BindSql.BindStatement | packages/npm/index.js:118-191 | the loop, state by state, gives what `SqlRegions.BindsByRegion` describes region by region |
| BindSql.BoundIsWhole | packages/npm/index.js:118-191 | the outcome as a whole: which error comes first, or the statement with the literals in order and all else copied |
| BindSql.BindSucceedsIff | packages/npm/index.js:118-191 | binding succeeds exactly when the placeholders in plain SQL are as many as the values and all can be bound |
| SqlRegions.ScannerFindsPlaceholders | packages/npm/index.js:118-191 | the placeholders the scanner finds are those between strings, quoted identifiers, comments and dollar-quoted bodies, each found whole by its closing text |
| SqlRegions.BindsByRegion | packages/npm/index.js:118-191 | binding one character and state at a time is copying such regions whole and filling the placeholders between them, with the same errors |
| SqlRegions.IdentifierIsCopied | packages/npm/index.js:138-140 | a quoted identifier of any content has no placeholder, whatever follows but a quote |
| SqlRegions.StringIsCopied | packages/npm/index.js:135-137 | nor has a string |
| SqlRegions.LineCommentIsCopied | packages/npm/index.js:141-143 | nor a line comment up to its newline |
| SqlRegions.BlockCommentIsCopied | packages/npm/index.js:144-146 | nor a block comment up to the first `*/`, which may share the opening `*` |
| SqlRegions.DollarBodyIsCopied | packages/npm/index.js:129-134 | nor a dollar-quoted body up to its tag |
| SqlRegions.OpenRegionHasNoHoles | packages/npm/index.js:118-191 | a region that is never closed hides the rest of the statement |
| SqlRegions.DollarTagIff | packages/npm/index.js:193-196 | a tag is found exactly when the text starts with it: two dollars, or a name between dollars |
| LiteralScan.LiteralScansIff | packages/npm/index.js:198-218 | every literal scans back to plain SQL without a placeholder, whatever follows, unless it is quoted and a quote follows, and then never |
| LiteralScan.LiteralsAreLiterals | packages/npm/index.js:198-218 | every bound value is written as such a literal |
| LiteralReader.LiteralReadsBack | packages/npm/index.js:198-218 | every literal reads back as the value it was written for: null, truth value, number or text |
| LiteralReader.UnbindableIff | packages/npm/index.js:198-218 | a value has no literal exactly when it is a number that is not finite, or cannot be printed |
| Rescan.KeptIff | packages/npm/index.js:124-196 | the next token of the bound statement is that of the original exactly when it does not run into a literal |
| Rescan.RescansIff | packages/npm/index.js:118-218 | scanning the bound statement reads every copied character in its old state exactly when no quote, dash or dollar of the statement runs into a literal and no quoted literal into a quote; and then it meets no placeholder |
| Rescan.SeparatedRescans | packages/npm/index.js:118-218 | so it does whenever each placeholder sits between blanks, commas, parentheses or the ends |
| Rescan.OffendingNeighbours | packages/npm/index.js:124-218 | `-?` with -5, a closing quote before a quoted value, two quoted values and `$a?$` with 5 offend; `=?` does not |
| Rescan.NeighboursMatter | packages/npm/index.js:198-212 | `-?` bound to -5 becomes a comment |

## Left out

- PersistentCatalog, the heap, the WAL, the buffer pool, the SQL parser, the planner and the executor operators.
- Concurrent alter and index operations: they check and then act in several unlocked steps, so they are modelled sequentially only.
- The removal of a dropped table's indexes is not a step of the concurrent model, which has the two table maps only.
- Memory ordering: each access of a concurrent map is one atomic step.
- Error payloads: messages, row numbers and byte offsets are not modelled, except the number of trailing bytes.
- Row encoders and decoders work on values through a table of layouts; only the byte writer, the cursor and the type codec have the source's mutable form.
- Decoder lengths: the source reserves memory by announced counts, which has no counterpart.
- Floating-point columns of statistics rows are opaque bit patterns.
- Type, enum, constraint, view and statistics maps of the catalog: they repeat the table and index maps.
- File access, wildcard directory listing, read limits and environment variables around the CSV code.
- The SQL text that a sniff reports: display only.
- CSV index overflow: the source stops when an index leaves `usize`, which no text in memory reaches.
- CsvInference.CellsFitColumnTypes: assumes that text of a 64-bit integer is also text of a finite float, a fact of the standard library.
- LeastTypes.LeastAcceptingType: assumes further that boolean words, dates and timestamps are not text of a finite float, also a fact of the standard library; so do the other statements of that module about accepted types.
- LiteralReader.LiteralReadsBack: assumes the same of printed numbers as the next line.
- Rescan.RescansIff: assumes that numbers print as digits, point, exponent and signs that end in a digit and hold no two dashes in a row, a fact of JavaScript.
- KeyCollisions.DottedPairOwnsKeyIff: speaks of keys no longer than the longest Rust string, so that the pair it collides with exists; the same holds for the statement on undotted pairs.
- JavaScript values are told apart only as far as `sqlLiteral` does; how objects print is a parameter.
- Arrow conversion, benchmark clients, validators, view definitions, the command line and the npm launchers.
