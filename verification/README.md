# pgnative: verified model

A Dafny 4.11 model of the parts of pgnative, a PostgreSQL client written in Rust, whose
correctness is hard to see from the code. `dafny verify dfyconfig.toml` checks all of it.

- **Row identity in SQL.** The table browser and the inline editor print SQL. The model prints
  the same text, lexes and parses it again (`SqlText`, `SqlStatements`, `UpdateText`), and runs it
  on a table with SQL's own rules: three-valued row comparison, NULLs last, constraints that let
  NULLs through (`Server`, `UpdateServer`). Booleans, integers, texts and octets are read and
  ordered as PostgreSQL does; every other column type comes with its values, its order, its way of
  reading a text and of being decoded as parameters (`Codec`), and nothing is assumed of them. What
  the client shows is the decoded cell, so a text longer than the decoder's cap is cut. On top of
  that stand the two results about loops over statements: browsing page by page shows every row
  once exactly for the keys `SafeKey` describes (`BrowsingComplete`, `UnsafeKeys`), and interleaved
  optimistic writers never lose an update (`OptimisticWrites`).
- **The result pipeline.** A batching producer, a bounded channel and a consumer as interleaved
  tasks (`Pipeline`), the evicting store (`Store`), the scroll window (`Viewport`), the
  server-side cursor (`Portals`), and truncation of UTF-8 (`Utf8`).
- **The schema model.** Catalog rows become numbered, linked relations with indexes (`Hydrate`,
  `Constraints`, `SchemaModels`, `HydratedModels`).
- **Completion.** The alias scanner against a grammar of FROM and JOIN clauses (`AliasScan`,
  `AliasGrammar`), and what dot completion offers (`Completion`).
- **The dispatcher.** The registry of running queries (`QueryRegistry`) and transaction tracking
  (`TxTracking`), both as transition systems over all interleavings; what the application guesses
  from a statement's text against what the server's grammar makes of it (`TxStatements`).
- **Export.** The INSERT printer, a reader that undoes it (`InsertExport`), and the server that runs
  what was exported on the empty table (`InsertServer`).

Loops and objects that the program updates in place are methods and classes here; each is proved
against a function, and the properties are proved about that function. Server-side behaviour
follows ISO/IEC 9075:1992 (row comparison: section 8.2; delimited identifiers and character
literals: sections 5.2 and 5.3) and PostgreSQL where the standard leaves a choice. UTF-8 follows
sections 3 and 4 of RFC 3629.

## Where the code differs from what its comments say

The model follows the code.

- The browser orders by the first unique key, nullable or not, when there is no primary key
  (`crates/results/src/table_browser.rs:67`); `BrowsingShowsAllIffSafe` says when that is harmless.
- Octets are shown as bare hexadecimal digits (`crates/results/src/value.rs:114-121`), which
  PostgreSQL reads as the octets of the digits: a key with a `bytea` column is not safe to browse
  by, primary or not (`BytesLower`, `SafeOwnKey`).
- A text longer than 64 KiB is cut when it is decoded (`crates/results/src/stream.rs:135-147`). As a
  key cell it makes a cursor below its own row, so the page repeats (`LongTextsLower`,
  `SafeOwnKey`); an edit of it is never found unchanged (`LongCellIsStale`).
- The optimistic guard is spliced in at the first ` RETURNING *` of the text
  (`crates/results/src/edit.rs:209`); `OptimisticReadsBackIff` says when that is the intended place.
- An optimistic edit of a NULL cell never applies, because its guard compares with `=`
  (`ShownRowIsFreshIff`).
- A stream that fails drops the rows read since the last full batch
  (`crates/results/src/stream.rs:605-610`); `FewRowsLost` bounds them.
- A refused DECLARE leaves the session in an aborted transaction that nothing ends
  (`crates/results/src/portal.rs:70`); a refused ROLLBACK still marks the portal closed. BEGIN
  inside a transaction is no error, as `crates/results/src/portal.rs:65` has it, but a warning: the
  portal joins the caller's transaction, and closing it commits that (`JoinedCommits`).
- Relations are sorted by name only (`crates/schema/src/model/build.rs:86-93`).
- The alias scanner never takes its branch for a doubled quote
  (`crates/schema/src/completion.rs:339`), enters only the short name of a table that punctuation
  ends (`CutShort`), stops reading a plain name at a quoted part (`PlainThenQuoted`), and enters a
  quoted alias with its quotes (`AliasKey`).
- Behind an alias completion does not always offer what it offers behind the table's name: a later
  clause can give that name to another table (`AliasOffersTable`, `NameTaken`).
- A picked completion replaces as many octets as the prefix has without its quotes, so behind a
  closing quote it replaces the wrong ones, or nothing (`SpliceReplacesPrefixIff`).
- The text of a query whose task is aborted before its first poll stays listed, because its guard
  never existed (`TextSurvivesIff`); no command can run between the placeholder and the swap, and
  the placeholder task is left behind when the query's task ends between the two
  (`PlaceholderSurvivesIff`).
- `classify_tx` misses a BEGIN behind a comment or a semicolon, and reads ROLLBACK TO as the end of
  the transaction; `KeepsTrackIff` says for which texts tracking is right. Nothing keeps a second
  query from being run while the first is in flight; `CarefulRunsKeepTrack` says under which rules
  no open transaction is lost, and the lemmas that end in `Loses` that each rule is needed.
- A COMMIT decided on in a failed transaction is answered with success, and closes the connection as
  if something had been committed (`crates/app/src/runtime.rs:254-271`; `DecisionCommitsIff`,
  `FailedCommitCloses`).
- Floating-point NaN and infinities are exported as bare words, which are no literals
  (`NotANumber`); the rows of a result without columns are no SQL either (`NoColumns`);
  and exported octets are stored again as the digits they are shown by (`BytesAsDigits`).

## Model

| member | source | states |
|---|---|---|
| TableBrowser.PrintedPageReadsBack | crates/results/src/table_browser.rs:37-131 | whatever names and schema contain, the printed SELECT reads back as the page it is meant to be: all columns, the table, the row comparison with `$1..$n`, the key as order, the limit's place |
| Relations.EditableIff | crates/schema/src/model/relation.rs:37-91 | a relation's rows can be told apart by a primary key if and only if it has one, else by a unique key if and only if every column of one is known and not nullable, else not at all |
| TableBrowser.PageErrors | crates/results/src/table_browser.rs:43-112 | a page is refused for want of an identity if and only if there is no primary key and every unique key names an unknown or nullable column; for unknown key columns, or a cursor of another length, exactly then; and is printed otherwise |
| TableBrowser.PageOrder | crates/results/src/table_browser.rs:62-87 | the printed page is ordered by the columns of the primary key, else of the first unique key, in key order |
| KeysetPaging.NextCursor | crates/results/src/table_browser.rs:136-149 | the loop gives the shown texts of the key columns in key order, and None when a column or cell is missing |
| KeysetPaging.CursorIs | crates/results/src/table_browser.rs:136-149 | the cursor is the shown text of the cell of each key column, by the column's place, and None if and only if one is missing |
| KeysetPaging.PageIs | crates/results/src/table_browser.rs:37-131 | run on a table of the relation, whatever the types of its columns, a printed page shows the rows kept by its WHERE, in key order, cut at the limit |
| KeysetPaging.RowsAfter | crates/results/src/table_browser.rs:89-109 | the rows greater than a row under SQL row comparison are the rows after it in ORDER BY, when leading key columns without NULLs tell the rows apart |
| BrowsingComplete.NextPage | crates/results/src/table_browser.rs:136-149 | with a safe key, the page asked for with the cursor of the i-th row as it is decoded starts at row i + 1 |
| BrowsingComplete.SafeKeyShowsAll | crates/results/src/table_browser.rs:63-131 | with a safe key, following the cursors shows a permutation of the stored rows, sorted, in exactly floor(N/n) + 1 pages, and no other sequence of pages can be seen |
| UnsafeKeys.BrowsingShowsAllIffSafe | crates/results/src/table_browser.rs:63-84 | for every browsable relation, whatever the types of its columns: browsing shows all rows of every table, for every page size, if and only if the key is safe: its columns before the first that is nullable or does not read back all it shows tell rows apart, all that is shown is read, and no row's cursor is read as one before the row |
| UnsafeKeys.SafeOwnKey | crates/results/src/table_browser.rs:63-84 | over booleans, integers, texts and octets a key is safe if and only if it has no octets and no column of texts longer than the decoder's cap, its columns before the first nullable one tell rows apart, and its nullable columns are texts |
| UnsafeKeys.LongTextsLower | crates/results/src/stream.rs:135-147 | a column that takes texts longer than the cap has one, a single octet longer, whose cut text is read as a smaller one |
| Server.ReadsBackIffShort | crates/results/src/stream.rs:135-147 | a boolean, integer or text is read back from what is shown of it if and only if it is no text longer than the cap |
| UnsafeKeys.BytesLower | crates/results/src/value.rs:114-121 | octets are shown as a text that the server can read as smaller octets |
| BrowsingComplete.CursorIsRead | crates/results/src/table_browser.rs:136-149 | over readable columns a decoded row's cursor is read: as the row's own values in the trusted columns, and never as one before the row |
| Edits.DiffColumns | crates/results/src/edit.rs:55-86 | the loop gives the changes of the two rows in order; NotEditable if and only if there is no primary key and every unique key names an unknown or nullable column, NoChanges exactly when nothing else is left |
| Edits.ChangesExactly | crates/results/src/edit.rs:64-81 | the differences written are, in order, those of the places where names agree, values differ and the first column of the name, if there is one, is stored |
| Edits.UpdateSqlWithPk | crates/results/src/edit.rs:110-187 | text, parameters and each error of the plain UPDATE |
| Edits.WithKeyErrors | crates/results/src/edit.rs:110-187 | for every input: which error it gets, about the first key column without a value where it is one, or that the UPDATE is printed, with the new values and then the values given for the key columns as parameters |
| Edits.KeyNameIs | crates/results/src/edit.rs:146-153 | a key column goes by the name of the first column with its id, and by `id` when there is none |
| Edits.UpdateSqlOptimistic | crates/results/src/edit.rs:195-211 | text and parameters of the guarded UPDATE, placeholders counted on |
| EditsReadBack.WithKeyReadsBack | crates/results/src/edit.rs:130-170 | the plain UPDATE reads back as SET the changed columns WHERE the key, parameters numbered new values then key values, for all names |
| EditsReadBack.OptimisticReadsBackIff | crates/results/src/edit.rs:195-211 | the guarded UPDATE reads back as SET, key and old values with their parameters if and only if no identifier in it holds ` RETURNING *` |
| OptimisticWrites.OptimisticIsCompareAndSet | crates/results/src/edit.rs:189-211 | when it succeeds on a table with that primary key: the row the keys name changes if and only if every old value still stands, at most one row does, only the changed columns get the new values, everything else and all constraints stay |
| OptimisticWrites.NoLostUpdate | crates/results/src/edit.rs:189-211 | for any writers in any order, the writes that took effect on a cell chain from its first value to its last, each starting from a value equal to what the one before wrote |
| OptimisticWrites.OneWinnerPerValue | crates/results/src/edit.rs:189-194 | of the writers that start from one value, as many take effect as the cell had that value and left it |
| OptimisticWrites.ShownRowIsFreshIff | crates/results/src/edit.rs:189-211 | an edit of a row as shown finds it unchanged if and only if its key and changed cells are values whose shown text reads back; over booleans, integers and texts, if and only if no changed cell is NULL and no key or changed cell is a text longer than the decoder's cap |
| OptimisticWrites.LongCellIsStale | crates/results/src/stream.rs:135-147 | an edit of a text one octet longer than the cap never finds its row unchanged |
| Utf8.Truncate | crates/results/src/stream.rs:135-147 | the walk back gives the longest valid prefix of at most `cap` octets of a valid text, and loses at most three octets below the cap |
| Utf8.BoundaryIffValidPrefix | crates/results/src/stream.rs:22-28 | in valid UTF-8 a prefix is valid if and only if it ends where `is_utf8_boundary` says |
| Utf8.BoundaryNear | crates/app/src/ui/results.rs:158-165 | such a place is at most three octets away, so the display cut walks back no further |
| Utf8.EncodeDecode | crates/results/src/value.rs:73-96 | valid octets survive being shown as text |
| Store.ResultStore.PushBatch | crates/results/src/store.rs:58-76 | after any batch the store is the longest end of all rows pushed that fits both budgets, the byte count exact |
| Store.ResultStore.EvictOldest | crates/results/src/store.rs:66-74 | the eviction loop leaves the longest end that fits; the saturating subtraction never saturates |
| Store.ResultStore.SnapshotRange | crates/results/src/store.rs:121-131 | a window of the kept rows, row j carrying index total - len + j |
| Store.ResultStore.Clear | crates/results/src/store.rs:87-93 | back to an empty streaming store |
| Store.ResultStore.SetComplete | crates/results/src/store.rs:78-82 | complete with the number of rows ever pushed |
| Store.ResultStore.Cancel | crates/results/src/store.rs:107-111 | cancelled with the number of rows ever pushed |
| Store.KeptIsLongest | crates/results/src/store.rs:58-76 | the kept rows are the one end within both budgets whose next longer end is not, a row counting as its octets, eight for every other value and 32 for itself |
| Store.RowsBytesAre | crates/results/src/store.rs:168-185 | what rows count as: the octets of their texts, documents and byte strings, eight for every other value but NULL, and 32 for each row |
| Store.PushKeeps | crates/results/src/store.rs:58-76 | pushing onto what was kept and evicting is the same as keeping the longest end of everything: what was evicted is never needed again |
| Store.PushAll | crates/results/src/store.rs:58-76 | however the rows are cut into batches, the store depends on their concatenation only |
| Pipeline.Drive | crates/results/src/stream.rs:660-694 | the producer's loop sends names, batches, rest and end in order, and stops at the first batch a vanished receiver does not take |
| Pipeline.FailingTailRows | crates/results/src/stream.rs:594-611 | a failing stream delivers exactly the full batches before the error |
| Pipeline.FewRowsLost | crates/results/src/stream.rs:605-611 | the rows lost in front of an error are the remainder of the row count by the batch size |
| Pipeline.ConservedStep | crates/results/src/stream.rs:102-109 | every step of every task keeps: handled, in hand, in the channel and to come make up the whole script |
| Pipeline.InvHolds | crates/app/src/runtime.rs:400-504 | the invariants hold in every state of every interleaving of producer, consumer and abort |
| Pipeline.InFlightBounded | crates/results/src/stream.rs:40-45 | never more than (channel + 2) batches of rows are read and not yet pushed |
| Pipeline.PushedIsPrefix | crates/app/src/runtime.rs:416-421 | pushed rows, rows in hand, in the channel and in the producer are the rows read, in order; what is pushed is always a beginning of the result, also after an abort |
| Pipeline.RunsEnd | crates/app/src/runtime.rs:407-504 | no interleaving takes more than 4N + 11 steps |
| Pipeline.NeverCutOff | crates/app/src/runtime.rs:407-481 | the consumer never finds the channel closed before it has seen the last event |
| Pipeline.FinalStates | crates/app/src/runtime.rs:432-500 | there is no deadlock; a run that is over and was not aborted has pushed every row and seen Complete with their number, or every full batch and then Error |
| Pipeline.Consume | crates/app/src/runtime.rs:407-503 | the consumer's loop over the events, against the store's contract |
| Pipeline.RunQuery | crates/app/src/runtime.rs:303-504 | a cleared store holds, after a query, the longest end of its delivered rows, its column names and the right final state |
| Pipeline.ReplayRun | crates/app/src/runtime.rs:407-504 | the same for the events handled in any interleaving that ran to its end |
| Viewport.ViewportState.TakeSnapshot | crates/results/src/viewport.rs:85-95 | the rows from the clamped offset on |
| Viewport.ViewportState.SetOffsetFromScroll | crates/results/src/viewport.rs:72-79 | the offset is the row that contains the scroll position |
| Viewport.ViewportState.FetchRange | crates/results/src/viewport.rs:100-105 | exactly the visible range's rows that the store has |
| Viewport.ViewportState.RowsInViewAreInRange | crates/results/src/viewport.rs:41-53 | every row with a pixel in view is in the visible range |
| Viewport.ViewportState.RangeIsNear | crates/results/src/viewport.rs:41-53 | the range reaches one overscan beyond the view: moved by the overscan towards the view, every row of it has a pixel in view, and every row that then lies in view is in it |
| Viewport.ViewportState.ShowResults | crates/app/src/ui/results.rs:48-119 | the loop draws each position of the range from the snapshot or as placeholder, and reports the offset for the next frame |
| Viewport.ViewportState.Frame | crates/app/src/lib.rs:1151-1165 | one frame: window sized, snapshot taken, range drawn |
| Viewport.ViewportState.SecondFrame | crates/app/src/lib.rs:1151-1165 | at rest every position of a range no longer than view plus overscan is drawn as the stored row of that position, however many rows there are by then |
| Viewport.AtRestIff | crates/results/src/viewport.rs:63-95 | a position is drawn from the store if and only if it is inside the window or the window reaches the store's end |
| Portals.Portal.FetchForward | crates/results/src/portal.rs:87-123 | the next rows in order, `exhausted` exactly when fewer than asked, the error cases, and what stays unchanged in them |
| Portals.Portal.Close | crates/results/src/portal.rs:126-141 | closed exactly when COMMIT is accepted, which ends the transaction; a second close does nothing |
| Portals.Portal.Rollback | crates/results/src/portal.rs:144-150 | closed in any case; the transaction stays open exactly when the first ROLLBACK was refused |
| Portals.DeclarePortal | crates/results/src/portal.rs:51-80 | on a session in any state: a portal on an open transaction, its own or the caller's, or an error and what it leaves of the transaction |
| Portals.JoinedCommits | crates/results/src/portal.rs:65-67 | a portal opened and closed inside the caller's transaction has committed that transaction |
| Portals.FetchAll | crates/app/tests/integration_portal.rs:108-129 | windows of w concatenate to the whole result in floor(N/w) + 1 fetches, all full but the last |
| Portals.RunOps | crates/results/src/portal.rs:87-150 | over any calls and any answers: the portal leaks if and only if a ROLLBACK was refused while it was open, the transaction is open if and only if the portal is open or leaked, is ended at most once, and the rows handed out are a beginning of the result |
| SchemaModels.Builder.AddRelation | crates/schema/src/model/build.rs:33-48 | all indexes updated, and right again when the relation has the next id |
| SchemaModels.Builder.Build | crates/schema/src/model/build.rs:85-107 | both kinds of lists sorted by name, nothing else changed |
| SchemaModels.SortEach | crates/schema/src/model/build.rs:94-105 | the result of sorting each schema's list does not depend on the order of the hash map |
| SchemaModels.SortOfSchema | crates/schema/src/model/build.rs:87-104 | sorting one schema's relations is picking them out of all relations sorted |
| SchemaModels.ByOidIsScan | crates/schema/src/model/index.rs:77-81 | lookup by OID equals the linear scan when OIDs are distinct |
| SchemaModels.OwnerIsScan | crates/schema/src/model/index.rs:107-109 | the owner found is the relation that has the column, for columns of one relation only |
| SchemaModels.ListsAreSorted | crates/schema/src/model/index.rs:91-95 | sorted relations are a permutation in the order of their names, and of their ids where names are the same; a schema's list is its part of it |
| SchemaModels.TextLessIff | crates/schema/src/model/build.rs:86-93 | names are ordered by the first character in which they differ |
| Hydrate.GroupColumns | crates/db/src/introspection.rs:363-389 | each group is the catalog's rows of that relation, in order |
| Hydrate.BuildTypes | crates/db/src/introspection.rs:350-361 | type ids count the type OIDs in order of appearance, each named as where it appeared first |
| Hydrate.BuildFunctions | crates/db/src/introspection.rs:583-600 | functions are numbered by position and listed by schema as a scan would list them |
| Hydrate.FunctionsAreFrom | crates/db/src/introspection.rs:583-600 | each function has its row's name and the last schema with its row's OID, or the fallback; a schema's list holds exactly its functions, in order |
| Hydrate.ColumnsArePicked | crates/db/src/introspection.rs:363-389 | a group holds exactly the catalog rows of its relation, in order |
| Hydrate.KeysArePicked | crates/db/src/introspection.rs:402-411 | and so for keys, of those that name columns |
| Hydrate.BuildColumns | crates/db/src/introspection.rs:437-466 | columns numbered on from the running id, and the map from attribute numbers to those ids |
| Hydrate.AttMapIs | crates/db/src/introspection.rs:395-450 | a number maps exactly when a column has it, and then to the last such column |
| Hydrate.BuildRelations | crates/db/src/introspection.rs:414-484 | ids are positions, columns are the group of the OID, sorted and numbered on, and the lookups answer for the last relation of an OID |
| Constraints.ApplyKeys | crates/db/src/introspection.rs:486-519 | the keys of each OID end up on its relation, independent of the order of the hash map |
| Constraints.Resolved | crates/db/src/introspection.rs:499-502 | a key resolves if and only if it has columns and all are known, and then to their ids in order |
| Constraints.ApplyFks | crates/db/src/introspection.rs:521-576 | each relation gets the outgoing and incoming keys of the accepted constraints in input order; `ForeignKeysFromRows` says which those are |
| Constraints.BuildFull | crates/db/src/introspection.rs:312-603 | fails exactly without schemas; else the model has the catalog's schemas, types and functions, and the hydrated relations with right indexes |
| HydratedModels.ColumnIdsAreDense | crates/db/src/introspection.rs:391-449 | read in order, the column ids of the whole model are 0, 1, 2, ... |
| HydratedModels.ColumnIdsAreUnique | crates/db/src/introspection.rs:448-450 | no column id occurs in two relations |
| HydratedModels.ColumnsAreSorted | crates/db/src/introspection.rs:433-466 | a relation's columns are a permutation of the catalog's rows for it, sorted by attribute number, each with the name, position, type, nullability, default and source its row says; of two relations with one OID the first has them |
| HydratedModels.LaterHasNone | crates/db/src/introspection.rs:434 | and the later has none |
| HydratedModels.RelationsAreFrom | crates/db/src/introspection.rs:414-431 | each relation has the OID, name and kind of its row, and the last schema with its row's schema OID, or the fallback |
| HydratedModels.TypesAreDense | crates/db/src/introspection.rs:350-361 | type ids are dense, one to each type OID, and a column's leads to the name of its type |
| HydratedModels.HydratedKeysResolve | crates/db/src/introspection.rs:486-519 | every key of a hydrated relation is non-empty, names its columns, and comes from a catalog row of its kind with its attribute numbers in order |
| HydratedModels.EveryKeyIsThere | crates/db/src/introspection.rs:486-519 | every catalog row that can be resolved has become a key of the last relation of its OID: the unique ones in their order and no others, the primary one from the last such row |
| HydratedModels.IdentityFromRows | crates/schema/src/model/relation.rs:37-91 | a hydrated relation can be browsed and edited if and only if it is the last of its OID and a resolvable catalog row makes a primary key of it, or a unique key without nullable columns |
| HydratedModels.IdentityNeverMissing | crates/schema/src/model/relation.rs:37-57 | in a hydrated model a relation that is not Disabled always has its pages printed, its cursors taken from full rows accepted, and no UPDATE falls back to `id` |
| HydratedModels.ForeignKeysFromRows | crates/db/src/introspection.rs:521-576 | a relation's outgoing keys are, in order, exactly its own known constraints in the catalog: from the columns with the row's numbers in it to those of the relation the row refers to; its incoming keys are those that refer to it, seen from its side |
| HydratedModels.AcceptedLink | crates/db/src/introspection.rs:522-552 | an accepted constraint goes from the last relation of its OID to the last of the OID it refers to, column by column by attribute number |
| HydratedModels.ForeignKeysMirror | crates/db/src/introspection.rs:553-575 | between any two relations outgoing keys, mirrored, are the incoming keys: each once, in input order |
| HydratedModels.ForeignKeysCounted | crates/db/src/introspection.rs:521-576 | outgoing and incoming keys both number the accepted constraints |
| HydratedModels.AcceptedIff | crates/db/src/introspection.rs:522-552 | a constraint is accepted if and only if both relations and all columns on both sides are known |
| HydratedModels.IndexesAgree | crates/schema/src/model/index.rs:71-109 | for a hydrated model all lookups agree with scans and lists are sorted partitions |
| AliasScan.CaptureIdent | crates/schema/src/completion.rs:330-374 | the recursive reader takes exactly the identifier its specification measures |
| AliasScan.PeekWord | crates/schema/src/completion.rs:376-397 | the word at a position |
| AliasScan.ExtractAliasMap | crates/schema/src/completion.rs:166-282 | the cursor loop computes the recursive scan of the text up to the cursor |
| AliasGrammar.ScanIsFold | crates/schema/src/completion.rs:166-282 | scanning a text written from FROM and JOIN clauses, with plain and quoted names, aliases, or AS without one, ended by any of the grammar's own words, and any filler without a FROM or JOIN of its own gives exactly the left fold of the clauses |
| AliasGrammar.ReservedIs | crates/schema/src/completion.rs:399-448 | the words the scanner takes for no alias are those that end a clause in the grammar |
| AliasGrammar.ClauseWordEnds | crates/schema/src/completion.rs:255-264 | for every table and every word that ends a clause, whatever follows it: the table is entered, and no alias |
| AliasGrammar.FromJoin | crates/schema/src/completion.rs:166-282 | for all names: `FROM t1 JOIN t2 a` enters both tables, and the alias for the second |
| AliasGrammar.FoldLookup | crates/schema/src/completion.rs:219-278 | a name means the table of the last clause that gives it as alias, else of the first clause that names that table |
| AliasGrammar.PlainThenQuoted | crates/schema/src/completion.rs:357-373 | a plain name is read up to a quoted part, and no further |
| Completion.ResolveAliases | crates/schema/src/completion.rs:286-317 | the resolved map does not depend on the order of the hash map |
| Completion.ExtractAliases | crates/schema/src/completion.rs:286-317 | the keys found by the scan, each with the id of its table |
| Completion.ScanClosed | crates/schema/src/completion.rs:219-278 | every table found is itself a key |
| Completion.CompletionEngine.constructor | crates/schema/src/completion.rs:34-49 | the engine's maps answer for the model's relations |
| Completion.CompletionEngine.DotComplete | crates/schema/src/completion.rs:63-85 | the first fifty matching columns of the relation that alias, or else name, stands for |
| Completion.OfferIs | crates/schema/src/completion.rs:69-83 | what is offered for a relation: its columns that begin with the prefix, whatever the case, in order, the first fifty of them |
| Completion.AliasOffersTable | crates/schema/src/completion.rs:54-85 | for known tables, an alias and the name of its table stand for the same relation, and offer the same columns, if and only if no clause gives that name as alias to another table |
| Completion.NameTaken | crates/schema/src/completion.rs:54-85 | in texts like `FROM users u JOIN orders users` they stand for different ones |
| Completion.ClausesDecideOffer | crates/schema/src/completion.rs:286-317 | from the text: the last clause with that alias, else the first that names the table, decides for which relation a target stands |
| Completion.CompletionTarget | crates/app/src/ui/editor.rs:32-58 | the backward loop finds the identifier text before the cursor, over any set of letters and digits outside ASCII |
| Completion.TargetAndPrefix | crates/app/src/ui/editor.rs:22-58 | a name, a dot and a started name are target and prefix |
| Completion.QualifiedTarget | crates/app/src/ui/editor.rs:22-58 | of a dotted target the last part counts, without quotes around it |
| Completion.NoDotNoTarget | crates/app/src/ui/editor.rs:22-58 | text without a dot is all prefix |
| Completion.RunCharsAre | crates/app/src/ui/editor.rs:36 | the characters the loop goes over, one by one |
| Completion.SpliceReplacesPrefixIff | crates/app/src/lib.rs:1111-1119 | counted in octets as the code does, a pick puts its text in the place of the prefix that the text before the cursor is split into, and the cursor behind it, if and only if the prefix is empty or no quote closes it |
| QueryRegistry.InvStep | crates/app/src/runtime.rs:287-598 | every step of dispatcher and tasks keeps the registry's invariants |
| QueryRegistry.RegistryWithinTexts | crates/app/src/runtime.rs:299-341 | registered queries are always among the listed texts |
| QueryRegistry.AtHeadRegistered | crates/app/src/runtime.rs:317-350 | at the loop head each registered query has a live session, its own task's handle, and a task neither ended nor aborted |
| QueryRegistry.RegisteredIff | crates/app/src/runtime.rs:333-588 | at the loop head a query is registered if and only if its task exists, has not left by itself and is not aborted: no task runs on off the registry |
| QueryRegistry.AbortedIff | crates/app/src/runtime.rs:48-81 | at the loop head exactly those tasks are aborted whose query was cancelled, or whose connection was closed, while it was registered, or that left before the handles were swapped |
| QueryRegistry.SessionsAre | crates/app/src/runtime.rs:48-58 | a session is open if and only if the connection was opened and not closed since |
| QueryRegistry.ExecuteStarts | crates/app/src/runtime.rs:287-300 | executing starts a new query if and only if the session is open, and changes nothing otherwise |
| QueryRegistry.PlaceholderSurvivesIff | crates/app/src/runtime.rs:523-532 | at the loop head a placeholder task is left over for a query if and only if its task left the registry before the step that swaps the handles |
| QueryRegistry.PlaceholderCanSurvive | crates/app/src/runtime.rs:317-532 | a run in which a task begins and ends between its start and the swap leaves its placeholder over |
| QueryRegistry.TextSurvivesIff | crates/app/src/runtime.rs:333-350 | of the queries that are over, those keep their text whose task was aborted before its first poll |
| QueryRegistry.TextCanSurvive | crates/app/src/runtime.rs:48-81 | a run in which the connection is closed before the task is polled leaves the query's text listed for good |
| TxStatements.KeepsTrackIff | crates/db/src/connection.rs:766-778 | the guess keeps up with the server over a statement, from every session, if and only if its text is trackable |
| TxStatements.GuessOfKind | crates/db/src/connection.rs:766-778 | for each kind of statement in the server's grammar, exactly which texts the guess reacts to, and how |
| TxStatements.BareIff | crates/db/src/connection.rs:766-767 | the guess sees a statement's first word if and only if nothing but white space stands in front of it |
| TxStatements.DecisionTexts | crates/app/src/runtime.rs:256 | the COMMIT and ROLLBACK that are sent end the transaction, the first keeping what was done |
| TxStatements.StartSeen | crates/db/src/connection.rs:768-772 | START TRANSACTION is recognised if and only if exactly one blank separates the words |
| TxStatements.HiddenBegins | crates/db/src/connection.rs:766-778 | a BEGIN behind a comment, a line comment that a carriage return ends, or a semicolon opens a transaction and is not trackable |
| TxStatements.BackToIsHidden | crates/db/src/connection.rs:773-775 | ROLLBACK TO any savepoint is not trackable |
| TxTracking.TrackedIff | crates/app/src/runtime.rs:432-446 | in every run, careful or not, a transaction is tracked on a live connection if and only if the last answer seen on it, of those the guess reacts to, was to a statement guessed to begin one |
| TxTracking.DisconnectAsksIff | crates/app/src/runtime.rs:244-253 | Disconnect asks exactly then, and changes nothing; otherwise it closes the connection |
| TxTracking.DecisionClosesIff | crates/app/src/runtime.rs:254-286 | a decision closes the connection unless it is a COMMIT that the server did not take, which only ends the waiting |
| TxTracking.PendingStep | crates/app/src/runtime.rs:287-588 | a statement submitted is waited for until its end is seen, it is cancelled or the connection is closed, each exactly once |
| TxTracking.CarefulRunsKeepTrack | crates/app/src/runtime.rs:432-446 | in every run that keeps the four rules, of which one is that no two statements with opposite guesses are in flight together, with any number of queries in flight, served and seen in any order, an open transaction is tracked unless the answer that says so is still to be seen, and none is lost |
| TxTracking.ClosingIsSafe | crates/app/src/runtime.rs:244-286 | the step of such a run that closes the connection finds no transaction open, also after an accepted COMMIT, but for one whose ROLLBACK the user chose and the server refused; Disconnect asks whenever one is open |
| TxTracking.TrackedStep | crates/app/src/runtime.rs:244-588 | what makes it so is kept by every step |
| TxTracking.UntrackableLoses | crates/db/src/connection.rs:766-778 | every statement that is not trackable loses a transaction in a run that keeps the other rules |
| TxTracking.OverlapLoses | crates/app/src/runtime.rs:287-446 | any statement that ends a transaction or finishes a prepared one, as guessed, and any that opens one, in flight together and seen in the other order, lose the new transaction |
| TxTracking.OverlapLosesIff | crates/app/src/runtime.rs:287-446 | of any set of statements: some run of them that keeps the other rules loses a transaction if and only if one of them begins and another ends a transaction, as guessed, both trackable and accepted by the grammar |
| TxTracking.PairLosesIff | crates/app/src/runtime.rs:287-446 | two statements, run in any number and order, lose a transaction if and only if their guesses are opposite |
| TxTracking.CancelledBeginLoses | crates/app/src/runtime.rs:534-588 | every statement that opens a transaction loses it when it is cancelled and carried out all the same |
| TxTracking.DisconnectInFlightLoses | crates/app/src/lib.rs:157-161 | so does every one whose connection is closed before its end was seen |
| TxTracking.ResolveInFlightLoses | crates/app/src/runtime.rs:254-286 | and every one that is carried out while the user's COMMIT of the transaction before is waited for |
| TxTracking.DecisionCommitsIff | crates/app/src/runtime.rs:254-271 | when an accepted decision closes the connection, one more transaction has been committed if and only if it was a COMMIT and reached an open transaction that had not failed |
| TxTracking.FailedCommitCloses | crates/app/src/runtime.rs:254-271 | after any refused statement of a transaction a decided COMMIT closes the connection in a careful run, and nothing was committed |
| InsertExport.ExportSqlInsert | crates/results/src/export.rs:83-116 | the loop prints head, rows and end, or the comment for no rows |
| InsertExport.LiteralKinds | crates/results/src/export.rs:66-78 | NULL, truth values and numbers are written bare, everything else quoted, each with its own text |
| InsertExport.ExportReadsBackIff | crates/results/src/export.rs:66-116 | for all rows: the statement reads back as table, columns and every row's literals, whatever quotes they contain, if and only if every cell a library formats as a number is one, and there are columns and cells |
| InsertExport.ReadOrRefused | crates/results/src/export.rs:66-116 | with floats shown as numbers, NaN or infinite the statement is read as it was meant, or not at all |
| InsertExport.IntSurvives | crates/results/src/export.rs:66-72 | an integer is recovered from the number read back |
| InsertExport.NotANumber | crates/results/src/export.rs:73-75 | a row with NaN, and one with an infinity of either sign, is exported as a statement that is not read |
| InsertExport.NoColumns | crates/results/src/export.rs:80-112 | rows of a result without columns are exported as a statement that is not read |
| InsertExport.ExportIsInjective | crates/results/src/export.rs:66-116 | equal exports come from equal tables, columns and literals, NaN and infinite floats included |
| InsertExport.TextSurvives | crates/results/src/export.rs:66-78 | the octets of a valid text cell are recovered |
| InsertExport.NoRowsNoStatement | crates/results/src/export.rs:89-92 | the text for no rows holds no token |
| InsertServer.RestoredIff | crates/results/src/export.rs:66-116 | a table exported and run on the empty table is restored if and only if the server computes none of its columns and every cell is the one its exported literal is read as, whatever the types |
| InsertServer.OwnRestoredIff | crates/results/src/export.rs:66-116 | over booleans, integers, texts and octets: if and only if the server computes no column, no text is longer than the decoder's cap and there are no octets |
| InsertServer.BytesAsDigits | crates/results/src/value.rs:114-121 | exported octets are read as the octets of their digits, twice as many |
| InsertServer.HexReadsBack | crates/results/src/value.rs:114-121 | the digits are those the server would read back as the octets behind `\x` |

## Left out

- Integer widths: offsets, counters and ids are unbounded; `usize` overflow in `offset + len` and the `u32` id conversions are not modelled.
- The per-OID decoding ladders, numeric, date and floating-point parsing, and CSV and JSON export: decided by libraries that are not part of this model.
- UnsafeKeys.BrowsingShowsAllIffSafe: relations with a column whose type has one value only. `SafeKeyShowsAll` covers those too.
- `Server`: texts of type `TextT` compare by octets, as in the C collation, and of numbers and booleans only the spellings the client prints are read. Other collations and spellings are codecs.
- UNIQUE NULLS NOT DISTINCT, checks other than the length of a text, foreign keys, triggers and row security on the server; in an UPDATE a column the server computes is taken as stored.
- UpdateServer.Execute: the printed UPDATE names its table without the schema (`crates/results/src/edit.rs:159-164`); the model's server has one table, so a namesake in another schema of the search path is not considered.
- InsertServer.Execute: identity columns take values, columns not named are NULL, and a number in a column of texts or a fraction in one of integers, which no table is exported with, is refused.
- `SchemaModels.OwnerIsScan` and `SchemaModels.ByOidIsScan` assume columns with one owner and distinct OIDs; for hydrated models the first is proved, the second is what the catalog guarantees.
- InsertExport.ReadOrRefused: that a library shows floats and numerics as digits, with a fraction and an exponent at most, or as NaN, inf or -inf, is a condition on the cells. An empty table name, which the server does not take, is read.
- Completion.CompletionTarget: which characters outside ASCII are letters and digits is a parameter.
- AliasScan.ExtractAliasMap: texts are ASCII; the source indexes octets, and stops with a panic where a keyword test would cut a longer character.
- AliasGrammar.ScanIsFold: quoted names with a dot or a quote in them, and quoted parts behind plain ones, are scanned by `ExtractAliasMap` but read as something else, so they are not part of the grammar.
- Completion other than behind a dot: it walks a hash map in no fixed order.
- Invalid UTF-8 is shown with one replacement character for each octet that starts no character; the standard library may group them differently.
- Viewport.ViewportState.SetOffsetFromScroll: positions and heights are reals, not floats.
- The messages in `format_cell`, egui layout, and the throttling and retrying of events.
- Portals.DeclarePortal: one cursor to a session; that BEGIN READ ONLY makes the caller's transaction read-only is not modelled.
- QueryRegistry.InvStep: Disconnect is taken as decided; the question about open transactions is in `TxTracking`. Sessions are names; health, TLS and the cancel request itself are not modelled.
- TxStatements.KeepsTrackIff: white space in front is PostgreSQL 16's, which includes the vertical tab. Savepoint names are not cut at 63 octets, and names and transaction ids written with Unicode escapes, E'' or dollar quotes are refused.
- TxTracking.CarefulRunsKeepTrack: a task is aborted where it waits, not in the moment it writes what it tracks. Connecting again under the id of a live connection, and a connection the server breaks off, are not modelled.
- Signatures and comments of functions and of the schema.
- `ConnectionState`, `SchemaCache`, persistence, keyring, URL parsing and the user interface.
