# in_batches: keyset pagination, modelled and proved in Dafny

`in_batches` pages through a filtered ActiveRecord relation in batches of
`of` rows by keyset pagination:

- It forces the order to ascending primary key and the limit to `of`.
- It adds the inclusive `begin_at` / `end_at` bounds.
- It repeatedly plucks the next batch of keys above the last key seen.
- It yields a relation scoped to each batch. In `load` mode that relation is
  preloaded with the batch's records.
- It stops on an empty batch or right after a short one.
- It raises `ArgumentError` when a batch's last plucked id is nil, which
  happens when a custom select clause leaves the primary key out.
- Without a block it returns a `BatchEnumerator` and queries nothing.

The model has five modules:

- `Wrappers` (`wrappers.dfy`): the `Option` type.
- `Sequences` (`sequences.dfy`):
  - ascending key listings and bounded prefixes;
  - `Chunks`, the reference split of a listing into pages of `of` keys (every page is full except possibly the last, and no page is empty);
  - `Flatten`, which lays pages end to end;
  - the arithmetic facts about page and query counts.
- `Batches` (`batches.dfy`): the core.
  - A relation is a map from integer primary keys to rows, plus a flag for whether plucking the primary key yields the key.
  - `ApplyLimits` and `BatchOrder` model `apply_limits` and `batch_order`.
  - One batch query is `Fetch`: the first `of` keys of the window above the cursor, in batch order.
  - `InBatches` is the loop itself, an imperative method with a `while` loop. Its result is proved equal to `Expected`, the closed form of the whole call: the enumerator; or the yielded relations and the number of batch queries; or the `ArgumentError` together with what happened before it.
  - The loop is proved against a ghost function `Run`, which describes the rest of the loop from a given cursor. The lemma `RunExpected` connects `Run` to the closed form by induction on the keys still to come.
- `BatchProperties` (`batch_properties.dfy`): what a call promises its caller, stated on `Expected`. Coverage, ordering, page size, the window bound, the page and query counts, the error, load-mode equivalence, restart and splitting between workers.
- `BatchScenarios` (`batch_scenarios.dfy`): the repository's test examples. Three users with money 100, 200 and 0, paged with `of: 2` and with the default size 1000.

Three details of the code that the model keeps:

- **The error.** It is an `ArgumentError` with the message "Primary key not included in the custom select clause" (lines 89-90).
- **Ids in load mode.** The ids come from a separate `pluck` on the batch relation (line 79), not from the loaded records. The model takes the ids from the pluck in both modes.
- **Batch size.** `of` is not validated. In the model it is a precondition (see "Left out").

Both bounds are inclusive. Two workers that split a table at key `m` must therefore use `end_at: m - 1` and `begin_at: m`. `SplitWindow` is stated that way. The documentation's own example of a split hands the boundary row to both workers (see "Findings").

## Model

| member | source | states |
|---|---|---|
| Batches.ApplyLimits | lib/in_batches/active_record/batches.rb:101-105 | the window is the keys `k` with `begin_at <= k` when given and `k <= end_at` when given, both inclusive; without bounds it is every key |
| Batches.BatchOrder | lib/in_batches/active_record/batches.rb:107-109 | ordering by the primary key ascending lists every key of the set exactly once, strictly ascending |
| Batches.BatchOrderOf | lib/in_batches/active_record/batches.rb:107-109 | the ascending listing of a key set is unique: any strictly ascending sequence with the same members is it |
| Batches.AfterCursor | lib/in_batches/active_record/batches.rb:95 | the keys a later batch query may return are exactly the window's keys strictly above the cursor |
| Batches.Fetch | lib/in_batches/active_record/batches.rb:72-95 | a batch query returns at most `of` keys, strictly ascending, and exactly the window's keys above the cursor up to its last one (all of them when it is short) |
| Batches.NextCursor | lib/in_batches/active_record/batches.rb:94-95 | after a full batch, moving the cursor to its last key leaves exactly the rest of the listing to come |
| Batches.Shrinks | lib/in_batches/active_record/batches.rb:94-95 | a full batch strictly shrinks the keys still to come, so the loop terminates |
| Batches.RecordsOf | lib/in_batches/active_record/batches.rb:77-80 | the records loaded for a batch are the rows of its keys, one per key, in key order |
| Batches.PageKeys | lib/in_batches/active_record/batches.rb:80-83 | a yielded relation selects exactly the relation's rows whose key is among its ids, ascending |
| Batches.ProgressStart | lib/in_batches/active_record/batches.rb:72-75 | proof step for the loop: the progress invariant holds before the first query, with nothing yielded and the whole window still to come |
| Batches.Step | lib/in_batches/active_record/batches.rb:86-95 | one query from a state of progress: a short or empty batch completes the split of the window and accounts for every query; a full batch keeps the progress and shrinks what is left |
| Batches.ExpectedFinished | lib/in_batches/active_record/batches.rb:87-94 | proof step unfolding the closed form: when the key is selected or the window is empty, a pass whose pages are the split of the window and whose query count is its number of full pages plus one has the closed form as its outcome |
| Batches.ExpectedRaised | lib/in_batches/active_record/batches.rb:89-90 | proof step unfolding the closed form: with the key not selected and a row in the window, the closed form is the ArgumentError after one query with nothing yielded |
| Batches.RunExpected | lib/in_batches/active_record/batches.rb:76-96 | from any state of progress, running the rest of the loop yields the closed form |
| Batches.RunNext | lib/in_batches/active_record/batches.rb:92-95 | proof step unfolding the loop's specification: a full batch with the key selected is yielded and the loop continues from its last key |
| Batches.RunEnd | lib/in_batches/active_record/batches.rb:86-94 | a short batch, or one whose key is not selected, ends the loop as the closed form says |
| Batches.RunEmpty | lib/in_batches/active_record/batches.rb:87 | an empty batch ends the loop, yielding nothing more |
| Batches.RunShort | lib/in_batches/active_record/batches.rb:92-94 | a short non-empty batch is yielded and ends the loop |
| Batches.InBatches | lib/in_batches/active_record/batches.rb:62-97 | the call's outcome is the closed form; without a block it is the enumerator over `of`, `begin_at`, `end_at` and the relation, without `load`; with a block it is never the enumerator |
| Sequences.Chunks | lib/in_batches/active_record/batches.rb:72-94 | the reference split: laid end to end the pages are the listing, each holds 1 to `of` keys, and all but the last are full |
| Sequences.ChunksFlatten | lib/in_batches/active_record/batches.rb:72-94 | Chunks undoes Flatten on pages of that shape |
| Sequences.ChunksCount | lib/in_batches/active_record/batches.rb:94 | a listing of n keys splits into ceil(n / of) pages |
| Sequences.FlattenIncreasing | lib/in_batches/active_record/batches.rb:95 | pages of an ascending listing are ascending, and every key of a page is below every key of a later page |
| Sequences.FlattenAfter | lib/in_batches/active_record/batches.rb:95 | the pages after a given page hold exactly the keys above that page's last key |
| BatchProperties.WindowKeys | lib/in_batches/active_record/batches.rb:101-105 | the window a call pages through holds exactly the rows within the inclusive bounds, ascending |
| BatchProperties.PageKeysOf | lib/in_batches/active_record/batches.rb:80-83 | the relation yielded for a batch selects exactly that batch, in order |
| BatchProperties.PageRecordsOf | lib/in_batches/active_record/batches.rb:80-83 | reading a yielded relation returns the records of its batch, in key order |
| BatchProperties.PagesKeysOf | lib/in_batches/active_record/batches.rb:77-84 | the relations yielded for ascending batches select those batches, page by page |
| BatchProperties.YieldedPages | lib/in_batches/active_record/batches.rb:76-96 | with the key selected, a call finishes and its pages select the reference split of the window |
| BatchProperties.Coverage | lib/in_batches/active_record/batches.rb:72-95 | laid end to end, the yielded pages select every key of the window exactly once, ascending |
| BatchProperties.Ordering | lib/in_batches/active_record/batches.rb:107-109 | each page is ascending and every key of a page is below every key of a later page |
| BatchProperties.PageSize | lib/in_batches/active_record/batches.rb:72 | every page has 1 to `of` keys, and every page but the last has exactly `of` |
| BatchProperties.WindowBound | lib/in_batches/active_record/batches.rb:101-105 | every yielded key is a row of the relation within the inclusive bounds |
| BatchProperties.Counts | lib/in_batches/active_record/batches.rb:87-94 | for n keys in the window: ceil(n / of) pages and n div of + 1 batch queries |
| BatchProperties.KeyNotSelectedRaises | lib/in_batches/active_record/batches.rb:89-92 | with the key not selected, a non-empty window raises the ArgumentError after one query and before any yield; an empty window ends after one query |
| BatchProperties.RaisesIff | lib/in_batches/active_record/batches.rb:87-90 | a call with a block raises if and only if the key is not selected and the window is not empty |
| BatchProperties.LoadAgnostic | lib/in_batches/active_record/batches.rb:77-84 | with and without `load`: the same ending, the same queries, the same ids per page; with `load` each page carries the records the lazy page reads |
| BatchProperties.LoadPages | lib/in_batches/active_record/batches.rb:77-84 | page by page, the loaded relation has the lazy one's ids and preloads exactly what the lazy one reads |
| BatchProperties.Restart | lib/in_batches/active_record/batches.rb:29-40 | a new call with `begin_at` one past the last key of a full page yields exactly the later pages of the uninterrupted call |
| BatchProperties.RestChunks | lib/in_batches/active_record/batches.rb:95 | the split of the keys above a full page's last key is the split's later pages |
| BatchProperties.RestWindow | lib/in_batches/active_record/batches.rb:95 | the window above a page's last key is the later pages laid end to end |
| BatchProperties.SplitWindow | lib/in_batches/active_record/batches.rb:32-37 | two workers split at `m` (ending at `m - 1`, starting at `m`) together select the whole window, in order, each key once |
| BatchProperties.DocumentedSplitOverlaps | lib/in_batches/active_record/batches.rb:34-37 | the split as documented, one worker ending at `m` and the next starting at `m`, yields a row with key `m` from both workers |
| BatchProperties.WindowSplit | lib/in_batches/active_record/batches.rb:101-105 | the window cut at `m` is the part below `m` followed by the part from `m` on |
| BatchScenarios.SmallBatches | test/in_batches_test.rb:20-33 | `of: 2` on three users yields money [100, 200] then [0], with 2 batch queries and 4 statements with the per-page update |
| BatchScenarios.DefaultBatches | test/in_batches_test.rb:13-18 | the default size yields one page [100, 200, 0], with 1 batch query and 2 statements with the update |
| BatchScenarios.ReadSmallPages | test/in_batches_test.rb:27-33 | reading the two pages of `of: 2` gives money [100, 200] and [0] |
| BatchScenarios.ReadDefaultPage | test/in_batches_test.rb:13-16 | reading the single default-size page gives money [100, 200, 0] |

## Left out

- InBatches: requires `of >= 1`. The source does not check `of`. With `of` of 0 or less, its behaviour depends on how the database treats `LIMIT 0` or a negative limit, which is outside the model.
- The relation is assumed to have no order, limit or offset of its own. Lines 68-70 only log a warning when it has one. With one, the yielded relations (lines 80 and 84) would keep the scoped limit and offset, and the batch queries (line 72) would keep the scoped offset and skip rows. For example, `User.limit(1).in_batches(of: 2)` would yield a first relation that reads one user. That behaviour belongs to ActiveRecord, which is not part of this model.
- KeyNotSelectedRaises: nil plucked ids are modelled only for the case the error message names: a custom select without the primary key, where every plucked id is nil. A later batch whose last id alone is nil would raise after earlier pages had been yielded. This case is not represented, so the model's raise always comes after the first query and before any yield.
- The `BatchEnumerator` class (`lib/in_batches/active_record/relation/batch_enumerator.rb`) is not part of this model. Only its construction in the no-block branch is modelled. Its `each`, `update_all`, `delete_all` and `each_record` are not. The scenario statement counts add one update per page, as the tests' `update_all` issues.
- The seed data of the tests (`test/lib/seeds.rb`) is not part of this model. The scenarios assume ids 1, 2 and 3 for the users with money 100, 200 and 0.
- ActiveRecord and Arel query building (`reorder`, `limit`, `where`, `pluck`, `to_a`, `load_records`) and SQL quoting in `batch_order` are foreign code. They are modelled only through what the queries return.
- In load mode each batch issues two statements, `to_a` and `pluck`. `fetches` counts batch queries, one per pass of the loop, not statements.
- The block is a callback. What it does with a yielded relation is not modelled: writes to the table, `break`, or raising. Yielding is modelled as appending the relation to the outcome.
- Concurrent inserts and deletes between batches are not modelled. The table is fixed for the whole call.
- Primary keys are integers. Other orderable keys, such as strings, are not modelled.
- Rails-version detection and the delegation glue (`lib/in_batches.rb`, `lib/in_batches/active_record_extensions.rb`, `lib/in_batches/active_record/querying.rb`) are not part of this model.

## Findings

| source | as written | input that shows it | evidently intended | confidence | as-written member | corrected member |
|---|---|---|---|---|---|---|
| lib/in_batches/active_record/batches.rb:34-37 | the documentation has worker 1 handle ids 0 to 10,000 and worker 2 handle from 10,000 on, through `end_at` and `begin_at`, which are both inclusive (lines 29-30) | a row with id 10,000, split with `end_at: 10000` and `begin_at: 10000` | worker 1 ends at 9,999 (`end_at: m - 1`) and worker 2 begins at 10,000, so each row goes to exactly one worker | high; not executed | BatchProperties.DocumentedSplitOverlaps | BatchProperties.SplitWindow |
