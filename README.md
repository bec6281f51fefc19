# Write-side reconciliation engine of the OpenSwitch configuration layer

This project models the engine that applies a desired-state configuration
document to the OVSDB row store. The document nests in three levels: table, then
index token, then row data. The engine is driven by per-table schema
metadata: the parent table, the child relationships, the reference columns
with their relation kind and their mutable and key-value flags, the index
columns and the config columns.

- `_write.py` holds the engine:
  - `index_to_row` resolves an index token to a row;
  - `_delete` deletes a row together with the rows it owns through forward
    child columns;
  - `setup_table` and `setup_row` upsert rows recursively with their forward
    and backward children;
  - `setup_references` and `setup_row_references` are a second pass that fills
    in plain references only.
- `dc.py` holds the two entry points:
  - `write` normalises the System entry, sets up every root table, then the
    references of every root table, then commits once;
  - `read` gathers the data of every root table and collapses the System
    entry.

Modules, in dependency order:

- `Outcomes`: `Option`, and `Result` with the exception kinds the source raises.
- `Dicts`: Python dictionaries as sequences of pairs in iteration order.
- `Schema`: table schemas, relation kinds and the well-formedness the engine
  relies on.
- `Values`: tokens, the document and attribute values.
- `Store`: the row store as a class `Idl`, with its state
  (`tables`, `cells`, `next`) and three operations:
  - `Insert`: a fresh UUID;
  - `SetAttr`: `row.__setattr__`;
  - `Remove`: `row.delete`.

  `Snapshot` is the value of that state.
- `Resolver`: `index_to_row`.
- `Cascade`: `_delete`. It comes as a specification function on snapshots
  (`DelRow`) and as methods that change the store and are proved equal to it.
- `Steps`: the frame predicates and the row-level steps of `setup_row`, which
  are resolve-or-insert, config columns and index columns.
- `Children`: the pure parts of child synchronisation, which are stale children,
  parent column lookup, document re-keying and key casting.
- `Setup`: `setup_row`, `setup_table` and the child synchronisation methods.
- `Links`: `setup_references` and `setup_row_references`.
- `Driver`: `dc.write` and `dc.read`.

Calls into code that is not part of this model are fields of a `Helpers`
record passed in as a parameter, so every proof holds for every choice of
them. These calls are:

- `utils.escaped_split`
- `utils.row_to_index`
- `utils.get_empty_by_basic_type`
- `str()` of an attribute
- `str(row.uuid)`
- `int()` of a key

The per-table reader `_read.get_table_data` is a function parameter of `Read`.
The status that `commit_block` answers with is a parameter of `Write`.

Termination of the recursion through child tables uses a ghost `rank` on
tables. Each child table ranks strictly below its owner: the containment
relation of the schema is acyclic, which `Schema.WellFormed` states and every
entry point requires.

## Model

| member | source | states |
|---|---|---|
| Resolver.Resolve | _write.py:25-65 | A UUID token finds its row exactly when the table lists it. A composite token on a table without index columns gives None and never raises. Otherwise a component count different from the index count is a CompositeIndexError. A found row matches every index column; None means that no row matches. |
| Resolver.FirstMatch | _write.py:50-65 | The row returned is the first row in scan order that matches on every index column. None means that no row matches. |
| Resolver.RowMatches | _write.py:51-60 | The match-counting loop accepts exactly the rows whose index texts (the UUID text for `uuid`, otherwise the text of the attribute) equal the token components. |
| Resolver.IndexToRow | _write.py:25-65 | The store is left unchanged and the answer is `Resolve` on the current store. |
| Cascade.RefsOf | _write.py:76-77 | Collecting `.uuid` succeeds exactly on a list of rows, with the same length and order. Any element that is not a row makes it fail. |
| Cascade.DelRow | _write.py:67-83 | A successful delete requires the row to be present, and the row is deleted last. The resulting store is the original with exactly the traced rows pruned, and every traced row lies in a table ranked no higher than the deleted row's. |
| Cascade.DelKeys | _write.py:68-81 | The forward child columns delete only rows of tables ranked strictly below the owner. |
| Cascade.DelEach | _write.py:78-81 | Draining a child list deletes only rows of the child table and of tables ranked below it. |
| Cascade.CascadeOrder | _write.py:67-83 | In the trace of a delete, every row owned by a deleted row through a forward child column is deleted before its owner. Every deleted row is the root row or is owned by a row deleted after it. |
| Cascade.CascadeEach | _write.py:78-81 | Every listed child is deleted, children are deleted before their owners, and nothing is deleted that is not owned, directly or transitively, by a listed child. |
| Cascade.Delete | _write.py:67-83 | The method succeeds exactly when `DelRow` succeeds, and it leaves the store `DelRow` describes. |
| Cascade.DeleteKeys | _write.py:68-81 | The loop over the child columns succeeds exactly when `DelKeys` does, and it leaves the store `DelKeys` describes. |
| Cascade.DeleteEach | _write.py:78-81 | The child-list loop succeeds exactly when `DelEach` does, and it leaves the store `DelEach` describes. |
| Steps.ResolveOrInsert | _write.py:170-174 | A new row is inserted exactly when the token resolves to None, with a fresh UUID and otherwise no change. A resolution error is passed on with the store unchanged. |
| Steps.SetupConfig | _write.py:177-195 | For every config column: an immutable column of an existing row is unchanged, and a provided value is assigned as given. An omitted column is unchanged on a new row or when it holds None, and is otherwise reset to the empty value of its type. Nothing else changes. |
| Steps.SetupIndexes | _write.py:198-204 | On a new row, every index column that is neither `uuid` nor a config column is copied from the row data. It is a KeyError exactly when one of them is missing, and no other column changes. |
| Setup.WriteOwn | _write.py:169-204 | The row is placed by `Placed` and the config columns are written by `ConfigDone`. On a new row the copied index columns are written. A resolution error is passed on. A new row whose data lacks a copied index column is a KeyError. |
| Setup.SetupRow | _write.py:160-316 | A row data that is not a dictionary is a TypeError, and a resolution error is passed on. On success the row is the resolved row, or the new row exactly when the token resolved to None. Its config, index and forward child columns are written as `RowWritten` states, and rows of the table other than this one are untouched. The returned row data keeps the keys of the input. |
| Setup.SetupChildren | _write.py:207-314 | Only child columns of the row change. Every forward child column ends as `ForwardDone` states, and the row data keeps its keys. |
| Setup.SyncForward | _write.py:210-269 | An immutable column of an existing row is skipped with nothing changed. An omitted column is cleared to the empty value of its type, or left alone on a new row or when it holds None. Provided data that is not a dictionary is an AttributeError. Only this column of the row changes. |
| Setup.SyncProvided | _write.py:227-269 | The run of `ProvidedRun`: on an existing row the stale current children are deleted first, exactly as `DelEach` describes. From the store that leaves, `setup_row` sets up each provided entry in order, giving the children, and the column is then assigned `Linked` of them: a map or a list, one child per provided index, each present in the child table. The keys handed back are the children's UUIDs when the child table has no index columns, and otherwise unchanged. |
| Setup.DropStale | _write.py:232-246 | The current children are read as a list, or as the values of a map. A malformed current value is an error. Otherwise the store becomes exactly what `DelEach` gives for the current children whose index is not provided, so each of them is deleted with its own children, and this row keeps its attributes. |
| Setup.SyncEntries | _write.py:248-252 | `setup_row` sets up each provided entry in order, from one snapshot of the store to the next (`Ran`). The children map sends each index to the row that the last entry with that index gave (`Tracks`), and its keys are exactly the provided indexes. Only the child table and tables below it change. |
| Setup.SyncBackward | _write.py:271-314 | A new row gets no backward children, and the store is unchanged. On an existing row, every child that pointed at the row in the store before the call is listed in the new data, or the call fails. With data provided, the call is the run `BackwardRun` describes: each entry is set up in order by `setup_row`, and its row then gets its parent column set to this row. Every synchronised child is present in the child table and points at this row. The row's own attributes are untouched. |
| Setup.SyncParented | _write.py:308-314 | For each entry in order, `setup_row` sets it up and then the row's parent column is set to the owner (`RanParented`). So there is one child per provided index, each present in the child table and pointing at the owner. Tables ranked at or above the child table are untouched, the child table itself aside. |
| Setup.SetupTable | _write.py:86-102 | A table absent from the data is cleared exactly as `Cleared` describes, fails exactly when that fails, and is left with no rows. Table data that is not a dictionary is an AttributeError. Otherwise `setup_row` sets up each entry in order, from one snapshot of the store to the next (`Ran`), and the table data keeps its keys. Other tables' data is unchanged. Every other table ranked at or above the table is untouched. |
| Setup.ClearTable | _write.py:87-93 | The call fails exactly when `Cleared` does. On success the store is exactly the one `Cleared` gives: the first row of the table deleted with `_delete`'s cascade, again and again until the table is empty. Every other table ranked at or above it is untouched. |
| Cascade.ClearedDeletion | _write.py:87-93 | Clearing a table is a deletion: the new store is the old one with exactly the traced rows pruned, every traced row was present and lies in the table or a table ranked below it, and the table ends empty. |
| Cascade.ClearCascade | _write.py:87-93 | Clearing a table deletes every row it had, and every traced row is one of them or is owned, through a forward child column, by a row traced after it; each row a traced row owns is traced before it. With `ClearedDeletion`, the rows deleted are exactly the table's rows and the forward-child closure beneath them. |
| Setup.SetupRows | _write.py:98-102 | Entry `i` is set up by `setup_row` from snapshot `i` to snapshot `i + 1`, giving row `i` (`Ran`): it is placed as `Placed` says and written as `RowWritten` says. Each row is present in the table, and the keys of the rewritten data equal those of the input. |
| Setup.RanAppends | _write.py:98-102 | After a run of `setup_row` over table data, the table lists the rows it listed before, followed by the new rows of the entries whose index resolved to no row, in entry order. |
| Setup.RanFresh | _write.py:170-174 | A row that a run inserts differs from every row set up before it in the run. |
| Setup.DelRowUpper | _write.py:67-83 | Deleting a row of table `t` leaves every other table ranked at or above `t` untouched. |
| Children.Current | _write.py:234-237 | The current children of a forward column: an unset column has none, and a map contributes its values. |
| Children.Stale | _write.py:238-242 | A current child is stale exactly when its index is not a key of the new data. |
| Children.StaleOf | _write.py:238-242 | The delete-list loop collects exactly the stale children. |
| Children.FirstParent | _write.py:276-279 | The parent column is the first reference column of the child table whose relation is Parent. None means there is none. |
| Children.FindParent | _write.py:276-279 | The search loop finds the column `FirstParent` names. |
| Children.PointingAt | _write.py:285-289 | The current children are exactly the rows of the child table whose parent column refers to the row. A parent column that is not a reference is an AttributeError. |
| Children.ParentedRows | _write.py:285-289 | The scan loop collects the rows `PointingAt` gives. |
| Children.Rekey | _write.py:256-259 | The in-place re-keying loop gives the rewritten data that `Rekeyed` defines. |
| Children.RekeyMoves | _write.py:256-259 | When child indexes are distinct text tokens present in the data, every child's data ends up under its UUID and the old index is gone. Every other key is untouched. |
| Children.Casted | _write.py:262-266 | The integer-keyed map exists exactly when every key casts to an integer. Otherwise it is a ValueError. |
| Children.CastGet | _write.py:262-266 | Each integer key maps to the row of the last child whose key casts to it. No other key is present. |
| Children.TokenMapGet | _write.py:261-267 | A key-value column with non-integer keys maps each child's index to its row and holds nothing else. |
| Children.CastKeys | _write.py:263-266 | The cast loop gives the map that `Casted` defines. |
| Children.RefValues | _write.py:269 | A list column holds the synchronised rows in order. |
| Setup.LinkValue | _write.py:261-269 | The value written to a forward child column is the one `Linked` defines. |
| Links.Resolutions | _write.py:132-139 | Resolving a token list succeeds exactly when every token resolves. The result has the same length and order, with None for a token that finds no row. A failure is one token's error. |
| Links.ResolvedRows | _write.py:137-139 | Every resolved item is None or a row of the referenced table. |
| Links.ResolveAll | _write.py:132-139 | The resolve loop gives `Resolutions` on the current store. |
| Links.LinkColumn | _write.py:126-140 | An omitted plain reference column becomes the empty list. A provided one becomes the resolved list, exactly when it is a token list that resolves. Nothing else changes. |
| Links.LinkColumns | _write.py:124-140 | Only plain reference columns of the row change: never child or parent columns, never config columns (through `ConfigKept`), and no other row. Each plain reference column holds the empty list or one item per token. |
| Links.ConfigKept | _write.py:124-140 | Across any change the reference pass makes (`LinksOnly`), every config column of a present row keeps its value. A well-formed schema keeps config and reference columns apart, so this covers `SetupRowReferences`, `SetupReferences`, `LinkRoots` and the second pass of `Write`. |
| Links.NoRowLinks | _write.py:121-140 | When the row does not exist, the second pass succeeds exactly when the table has no plain reference column to assign. |
| Links.SetupRowReferences | _write.py:115-157 | Row data that is not a dictionary is a TypeError, and a resolution error is passed on. A missing row with a plain reference column is an error. On success the log of visits holds exactly the calls `RowPlan` lists: this row, then, for every child relationship the row data lists, each child row, in order. The visits chain from the old store to the new, and each visit changes only the plain reference columns of its row, as `RowLinked` states. Tables ranked above are untouched. |
| Links.EntriesCalled | _write.py:109-112 | Every row of table data has its own call in the plan of that data. |
| Links.RowPlanBelow | _write.py:142-157 | Every call that a row's references make is in the row's table or in a table ranked below it. |
| Links.KeysPlanBelow | _write.py:142-157 | The calls for a row's child relationships are all in tables ranked strictly below the row's table. |
| Links.LinkChildren | _write.py:142-157 | The visits are exactly `KeysPlan`'s calls. Per child relationship in schema order, there is none when the row data omits it. Otherwise each child row is visited in order, in `ChildTable`: the referenced table of a forward relationship and the child's own table otherwise. Child data that is not a dictionary fails. Only plain reference columns change, and this table and those above it are untouched. |
| Links.LinkChild | _write.py:145-157 | One child relationship: data that is not a dictionary is an AttributeError, and the visits are exactly `KeyPlan`'s calls, each as `RowLinked` states. |
| Links.LinkEntries | _write.py:109-112 | The visits are exactly the calls `EntriesPlan` lists for the rows in order, chained through the store, each as `RowLinked` states. Only plain reference columns of this table and the tables below it change. |
| Links.SetupReferences | _write.py:105-112 | A table absent from the data is left alone, with no visits. Table data that is not a dictionary is an AttributeError. Otherwise the visits are exactly `EntriesPlan`'s calls for the table's rows, chained through the store, each as `RowLinked` states, and only plain reference columns change. |
| Driver.Txn.CommitBlock | dc.py:101-102 | A commit is counted once and answers the database's status. |
| Driver.Normalised | dc.py:80-81 | A store without a System table is a KeyError, and an empty System table an IndexError. Data without a System entry is a KeyError. Otherwise the System data becomes the single row keyed by the text of the first System row's UUID, and every other entry is kept. |
| Driver.Collapsed | dc.py:47 | A missing System entry is a KeyError, a value that is not a dictionary an AttributeError and an empty one an IndexError. Otherwise the entry becomes its first value and every other entry is kept. |
| Driver.CollapseNormalised | dc.py:80-81 | Collapsing a normalised document gives back the document. |
| Driver.NormaliseCollapsed | dc.py:47 | A System entry that is the single row keyed by the System UUID text comes back from collapsing and normalising. |
| Driver.CollectedHas | dc.py:35-44 | The gathered configuration holds a key exactly when the data of some root table holds it. Tables with a parent contribute nothing. |
| Driver.Read | dc.py:18-49 | The result is the gathered root-table data with the System entry collapsed. Its keys are exactly those of the root tables' data. When no root table yields a System entry, it is a KeyError. |
| Driver.PassMembers | dc.py:84-99 | A pass calls into exactly the root tables of the schema order: `setup_table` in the first pass and `setup_references` in the second. |
| Driver.PassOnce | dc.py:84-91 | Each root table is called at most once per pass. |
| Driver.PassesOrdered | dc.py:84-99 | Every `setup_table` call comes before every `setup_references` call. |
| Driver.SetupRoots | dc.py:84-91 | The loop makes exactly the calls `Pass` lists: the log is kept by the loop itself, so it records the order of the root tables visited. Each present root table's data keeps its keys, and everything else in the document is unchanged. |
| Driver.LinkRoots | dc.py:94-99 | The loop makes exactly the calls `Pass` lists (the log is kept by the loop itself). The visits of `setup_row_references` are exactly those `LinkPlan` lists, chained through the store, each as `RowLinked` states. Only plain reference columns change. |
| Driver.LinkTable | dc.py:96-99 | A table with a parent is skipped with no visits. A root table gets `setup_references`, with the visits `RootPlan` lists. |
| Driver.Write | dc.py:51-102 | A given transaction is used, and otherwise a fresh one (on the reading of line 73 given under "Left out"). A normalisation failure is passed on with the store unchanged. A failure never commits. Success commits exactly once and returns the status. The calls are the first pass over the root tables, then the second. The second pass makes exactly the visits `LinkPlan` lists for the rewritten document and changes only plain reference columns, and the document is rewritten as `RowsWritten` states. |

## Left out

- The OVS IDL and transaction internals. Insert allocates the next UUID, delete removes the row, and set-attribute replaces one column. Atomicity, isolation and the transaction's pending-operation log belong to the store. `commit_block`'s status is a parameter.
- `utils.escaped_split`, `utils.row_to_index`, `utils.get_empty_by_basic_type`, `str()` and `int()` are uninterpreted fields of `Helpers`. `str(row.uuid)` (`Helpers.uuidText`) is not assumed to be injective, so no property relies on two UUIDs having different texts.
- `_read.get_table_data` and the read-side walker are not part of this model. `Read` takes the per-table result as a function.
- Schema loading (`opslib.restparser`) is not part of this model. The schema is a value that satisfies `Schema.WellFormed`, including an acyclic containment relation witnessed by a rank on tables.
- Python dictionaries are sequences of pairs in iteration order. `key is 'uuid'` is read as string equality.
- A column never set, or a row that was deleted, reads as None.
- The caller's document is returned, rewritten, instead of being changed in place. So is the `new_data` child dictionary.
- After an exception the state the source leaves behind is not specified. Contracts describe the store only on success, and the transaction is then never committed.
- Exception kinds are approximated where Python would misbehave differently. Row data that is not a dictionary is a TypeError. A plain reference value that is not a token list is a TypeError (Python would iterate a dictionary's keys or a string's characters). Malformed current child values raise TypeError or AttributeError. Table data and forward child data that are not dictionaries are an AttributeError, the error of `iteritems`; on an existing row with current forward children the source may raise TypeError first, at the `in` test.
- Line 306 of `_write.py` passes the whole `delete_list` to `_delete`, which fails on a list. The model reports AttributeError there instead of deleting item by item.
- Setup.SyncBackward: when the child table has no Parent-relation column, the model reports TypeError where the source first uses the missing column name (`__getattr__(None)` on a child row, or `__setattr__(None, row)` after a child set-up). It does not model the child set-ups the source performs before that point. Backward child data that is not a dictionary is reported as AttributeError before any deletion, where the source may first raise TypeError at the `in` test against the current children.
- Links.SetupRowReferences: in each visit it states the shape of each plain reference column (`LinkShape`: the empty list, or one item per token, each None or a row of the referenced table). It does not state the exact resolved rows, because later rows of the same pass may change the index columns that resolution reads. `Links.LinkColumn` states the exact value for one column.
- Steps.ForwardDone: for a provided forward child column it states only that the column holds a map or a list. `Setup.SyncProvided` states the exact value (`Linked`).
- Driver.Write: states the call sequence, the phase frames and the visits of the second pass. It does not restate, per root table, what `setup_table` does, because a later root table's setup may delete or insert rows of an earlier root table's child tables.
- Links.LinkColumns: each plain reference column gets its exact resolved list from `LinkColumn`, but at the snapshot where that column is written. Later columns resolve against a store where earlier ones are already written, so the contract over the whole loop states `LinkShape` (the empty list, or one item per token) rather than the exact list.
- Setup.SetupRow: the exact run of a forward child column (the stale-child cascade, the `Linked` value and the re-keyed data) and of backward children is proved by `SyncProvided` and `SyncBackward`. `SetupRow` carries on only `ForwardDone`, the rewritten data's keys and the row's own columns.
- Setup.SetupChildren: as for `SetupRow`, forward columns are stated as `ForwardDone`, and backward children only through the frame. The runs of `SyncProvided` and `SyncBackward` are not lifted.
- Setup.SyncForward: a provided column is stated as `ForwardDone`, a map or a list. `ProvidedEntry` carries the exact `Linked` value up to the call site, but the stale-child cascade and the per-entry run of `SyncProvided` are not lifted.
- Driver.Write: with no transaction given, line 73 of `dc.py` calls `ovs.db.idl.Transaction(idl)`. Line 72 binds only `Transaction`, and no import visible in `dc.py` binds `ovs`. The model assumes `ovs` is bound there, for instance re-exported by `opsrest.constants`, which is not part of this model, and creates a fresh transaction as the docstring says. If `ovs` is not bound, the source raises NameError at that line instead.
- Concurrency and floating point do not occur in the core.
