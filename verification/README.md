# Product synchroniser: a verified model of its reconciliation engine

The WordPress plugin `sincronizador-oracle-brago.php` keeps a collection of
`produto` posts in step with a product catalog held in Oracle. The method
`sincronizar_produtos` runs once a day, or when an administrator presses
"Sincronizar Agora". It fetches the catalog rows whose `dtexclusao` is
NULL and whose `obs` is non-NULL and different from `PV`. Under SQL's
three-valued logic, `obs <> 'PV'` is unknown when `obs` is NULL, so such rows
are never fetched, and the sweep deletes their posts. Each row has four columns: `CODPROD`, `DESCRICAO`,
`UNIDADE` and `DIRFOTOPROD`. The run then works in two loops:

1. **Upsert loop.** The rows are handled in source order by
   `update_or_create_product`. For each row:
   - It looks up a `produto` post whose `codigo_produto` meta equals `CODPROD`.
   - If a post matches, the first match is reused. Otherwise a new published
     post is created, titled with `DESCRICAO`.
   - It overwrites the post's three meta fields: `codigo_produto`, `unidade`
     and `foto_produto`.
   - The post id goes into `$produtos_atualizados`.
2. **Sweep.** Every `produto` post whose id is not in that list is deleted
   permanently.

The model has four modules:

- `ProductModel` (`product_model.dfy`) holds the data and pure functions that
  specify a run:
  - `Row`: one catalog row. Columns that may be null are `Option`s.
  - `Post`: a post's title, status and three meta fields.
  - `Table`: the collection as `map<Id, Post>` plus the next id the store
    will hand out.
  - `Lookup`: finds a post by code.
  - `Upsert`: one call of `update_or_create_product`.
  - `UpsertAll`: the upsert loop.
  - `Sweep`: the delete loop.
  - `Reconcile`: a whole run.
- `ProductStore` (`product_store.dfy`) holds the class `Store`. It keeps the
  same map and counter as fields that its methods update in place.
  - `Insert`, `UpdateMeta` and `Delete` stand for `wp_insert_post`,
    `update_post_meta` and `wp_delete_post`.
  - `UpdateOrCreate` is `update_or_create_product`.
  - `Sync` is `sincronizar_produtos`. It has the upsert `while` loop, and the
    sweep sits in `DeleteUntouched`.
  - Each method is proved to leave exactly the state that the matching
    `ProductModel` function describes.
- `SyncProperties` (`sync_properties.dfy`) proves what a run guarantees:
  - every row ends up stored, and the last row with a code wins;
  - a match keeps its identity and its title;
  - no match creates exactly one fresh post;
  - the surviving ids are exactly the touched ids;
  - an empty snapshot empties the collection;
  - duplicate posts collapse to one per code, so the post count equals the
    number of distinct codes;
  - a second run on the same snapshot changes nothing.
- `SyncScenarios` (`sync_scenarios.dfy`) works through concrete runs,
  including one with duplicate posts and a repeated code.

`Wrappers` (`wrappers.dfy`) holds the `Option` type.

The model follows what the code does:

- **Updates do not change the title.** Only the three meta fields are
  written, so the title is never refreshed. A post keeps the title it was
  created with, even when `DESCRICAO` changes
  (`SyncScenarios.ExistingCodeKeepsTitle`).
- **The sweep spares only touched posts.** A post that no row touched is
  deleted, even when the row that should have touched it failed. Posts that
  have no `codigo_produto` are deleted too.
- **Null values are not skipped.** A null column is written as it is, so the
  model stores `None`. The key column `CODPROD` is the catalog's primary key,
  so the model types it as never null.
- **Matching is exact.** A post matches only when its code equals
  `CODPROD`.
- **A run returns nothing to its caller.** The source keeps no counts or
  summary. The model's `Outcome` carries only the touched ids, or the
  connection error.

## Model

| member | source | states |
|---|---|---|
| `ProductModel.NewPost` | sincronizador-oracle-brago.php:148-152 | a created post has the row's description as title and status publish, and carries no meta yet |
| `ProductModel.SetMeta` | sincronizador-oracle-brago.php:155-157 | writing one meta key overwrites that field, whatever it held, and leaves the title, the status and the other fields alone |
| `ProductModel.WriteRow` | sincronizador-oracle-brago.php:155-157 | after the three meta writes, the post mirrors the row's code, unit and photo, nulls included; title and status are unchanged |
| `ProductModel.LatestBelow` | sincronizador-oracle-brago.php:132-146 | the search returns a post that carries the code and that no later id below the bound also carries; it returns None only when no post below the bound carries the code |
| `ProductModel.Lookup` | sincronizador-oracle-brago.php:132-146 | the exact-match lookup returns a post holding the code, the newest one, and returns None exactly when no post holds the code |
| `ProductModel.Upsert` | sincronizador-oracle-brago.php:131-160 | on a match the id is reused, no post is created, and title and status are kept; with no match one post is created under a fresh id, titled with DESCRICAO and published; either way the written post mirrors the row and no other post changes |
| `ProductModel.UpsertAll` | sincronizador-oracle-brago.php:103-108 | the loop keeps the table well formed (every id below the counter), records one id per row, and never lowers the id counter |
| `ProductModel.Sweep` | sincronizador-oracle-brago.php:111-123 | a post survives exactly when its id is in the kept list, and survivors are unchanged |
| `ProductModel.Reconcile` | sincronizador-oracle-brago.php:90-129 | a run leaves a well-formed table and records one touched id per row |
| `ProductModel.LastOf` | sincronizador-oracle-brago.php:105-108 | gives the last row with the same code as row k: no later row has that code |
| `ProductStore.Store.Insert` | sincronizador-oracle-brago.php:148-152 | inserting adds exactly one new published post under the previously unused id and advances the counter |
| `ProductStore.Store.UpdateMeta` | sincronizador-oracle-brago.php:155-157 | one meta write changes only that post's field |
| `ProductStore.Store.Delete` | sincronizador-oracle-brago.php:121 | deleting removes exactly that post |
| `ProductStore.Store.UpdateOrCreate` | sincronizador-oracle-brago.php:131-160 | the in-place step leaves exactly the state and id of `Upsert`; a reused post keeps title and status and no id is allocated; a created post gets the next id, the description as title, and status publish |
| `ProductStore.Store.DeleteUntouched` | sincronizador-oracle-brago.php:111-123 | the delete loop leaves exactly `Sweep` of the posts it started with, and the id counter is unchanged |
| `ProductStore.Store.Sync` | sincronizador-oracle-brago.php:90-129 | a failed connection aborts with no change to the store; otherwise the store ends exactly in `Reconcile` of its old state and the rows, and the touched ids are reported |
| `SyncProperties.LookupAfterUpsert` | sincronizador-oracle-brago.php:131-160 | after one upsert, the row's code resolves to the written post, and every other code resolves as before |
| `SyncProperties.UpsertAllReached` | sincronizador-oracle-brago.php:103-108 | the loop invariant holds after the loop. The ids are the old ones plus freshly created ones. Each row's code resolves to the id recorded for it, and that post mirrors the last row with that code. Old posts keep title, status and code, and untouched ones are unchanged. Created posts were touched, are published, and are titled by the row that created them |
| `SyncProperties.MatchPersists` | sincronizador-oracle-brago.php:144-146 | a code that already matched a post keeps resolving to that same post through the whole loop |
| `SyncProperties.LookupAfterSweep` | sincronizador-oracle-brago.php:111-122 | the sweep does not change a lookup whose answer it keeps |
| `SyncProperties.EveryRowStored` | sincronizador-oracle-brago.php:105-108 | after a run, every row's post survives and mirrors the code, unit and photo of the last row with that code |
| `SyncProperties.SurvivorsAreTouched` | sincronizador-oracle-brago.php:111-122 | after a run, the surviving ids are exactly the ids in `$produtos_atualizados` |
| `SyncProperties.EmptySourceEmptiesCollection` | sincronizador-oracle-brago.php:111-122 | with no rows, every post is deleted |
| `SyncProperties.DuplicatesCollapse` | sincronizador-oracle-brago.php:144-146 | each code of the snapshot is held by exactly one surviving post; when posts already held it, the one the lookup chose survives and its duplicates are deleted |
| `SyncProperties.SurvivorsHoldSnapshotCodes` | sincronizador-oracle-brago.php:103-122 | after a run, every surviving post holds a code, and that code is in the snapshot; posts without a code and posts whose code was not fetched are gone |
| `SyncProperties.SoleSurvivor` | sincronizador-oracle-brago.php:111-122 | the only surviving post with a snapshot code is the one that code resolved to after the upsert loop |
| `SyncProperties.TouchedCount` | sincronizador-oracle-brago.php:105-108 | the number of distinct ids the upsert loop touches equals the number of distinct codes in the rows |
| `SyncProperties.PostCountIsDistinctCodes` | sincronizador-oracle-brago.php:111-122 | after a run, the number of posts equals the number of distinct codes in the snapshot |
| `SyncProperties.AllMatchedCreatesNothing` | sincronizador-oracle-brago.php:144-146 | when every row's code already has a post, the loop creates nothing and each row touches its pre-existing match |
| `SyncProperties.SecondRunChangesNothing` | sincronizador-oracle-brago.php:90-129 | idempotence: a second run on the same snapshot leaves the same table and touches the same ids in the same order, so it creates and deletes nothing |
| `SyncProperties.SecondPassRewritesSameValues` | sincronizador-oracle-brago.php:155-157 | on the table a run left, the upsert loop of a second run with the same rows leaves that table as it is and touches the same ids in the same order |
| `SyncScenarios.NewCodeOnEmptyCollection` | sincronizador-oracle-brago.php:147-157 | a new code on an empty collection creates one published post titled with the description; its null photo is stored as absent |
| `SyncScenarios.ExistingCodeKeepsTitle` | sincronizador-oracle-brago.php:144-157 | an existing code keeps its post id and its old title, while unit and photo are overwritten |
| `SyncScenarios.EmptySnapshotDeletes` | sincronizador-oracle-brago.php:111-122 | an empty snapshot deletes the existing post |
| `SyncScenarios.DuplicatesAndRepeats` | sincronizador-oracle-brago.php:105-122 | with two A1 posts (the newer one a draft), one draft without a code, and rows A1, B2, A1: the newer A1 post is reused, stays a draft, and ends with the second A1 row's values, B2 gets a fresh post, and the other two posts are deleted |

## Left out

- Oracle access (`oci_connect`, `oci_parse`, `oci_execute`, `oci_fetch_array`, `oci_free_statement`, `oci_close`) is I/O. The fetched rows are an input sequence.
- The query's `WHERE dtexclusao IS NULL AND obs <> 'PV'` filter runs inside the database and is taken as given. It also drops rows whose `obs` is NULL, so their posts are swept like those of rows that are gone.
- A connection failure is modelled (`Fetch.ConnectionFailed`, which aborts before any write). Failures of `oci_parse` or `oci_execute` are not.
- `WP_Query` orders posts by date, newest first, and the lookup takes the first post it returns. The model reads "newest" as "greatest id", because the store hands out ids in increasing order.
- `WP_Query`'s default status filter depends on how the run starts. In the cron run it sees only published posts. In the manual run from the admin page, `is_admin()` holds, so it also sees drafts, pending posts and scheduled posts (and private ones for the logged-in user). The two kinds of run therefore match and sweep different sets of posts. The model has one behaviour for both: the lookup and the sweep see every post in the collection, whatever its status.
- The database compares `codigo_produto` to `CODPROD` under its own collation, which may ignore case or trailing spaces. The model compares codes exactly.
- `wp_insert_post` can fail and return 0 or an error. The model assumes every insert succeeds.
- `update_post_meta` (source lines 155-157) and `wp_delete_post` (line 121) can fail and return false; the source ignores both results. The model assumes every meta write and every delete succeeds. So `SyncProperties.EveryRowStored` and `SyncProperties.SurvivorsAreTouched` hold only under that assumption: in the source, a failed meta write leaves a touched post with stale or missing meta, and a failed delete leaves an untouched post alive.
- The store may turn a null title or null meta value into an empty string. The model stores `None`.
- ProductModel.NewPost: stores `DESCRICAO` as the title exactly as given. `wp_insert_post` unslashes the title, which strips backslashes, and in a cron run, where there is no user, it also filters the title through kses.
- ProductModel.SetMeta: stores the value exactly as given. `update_post_meta` unslashes it, which strips backslashes. For example, a Windows-style `DIRFOTOPROD` path would lose its backslashes.
- ProductModel.WriteRow: the post mirrors the row's columns exactly, with no unslashing, because it is built from `SetMeta`.
- Ids are shared with other post types, and posts of other types are never touched. The model holds only the `produto` collection and its own id counter.
- The sweep's order of deletion does not affect the final state. The model deletes in an unspecified order.
- Hooks, post-type registration, the admin menu and page, daily cron scheduling, and the meta-box form code are framework and UI glue, so they are not modelled.
- A manual run and a cron run might overlap. That is concurrency, and the model runs one sync at a time.
