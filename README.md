# Jerboa local account table, in Dafny

This project models the local multi-account store of the Jerboa client
for Lemmy, together with the two drawer actions that change which account
is the default.

- The `account` table is a Room entity (`Account`). Its data-access object
  has four mutating statements: `insert` with conflict strategy IGNORE,
  `removeDefault`, `setDefault(id)` and `delete`.
- `AccountRepository` and `AccountViewModel` forward each call to the
  data-access object.
- The drawer's "Switch to" handler runs `removeDefault` and
  `setDefault(it.id)`, then points the API client at `it.instance`.
- The drawer's "Sign Out" handler deletes the current account. It then
  copies the observed account list, removes the current account from the
  copy, and makes the first account left in the copy the default.

Files:

- `app_db.dfy`, module `AppDb`: the `Account` datatype. It also holds one
  pure function per statement, giving the table after that statement
  (`AfterInsert`, `AfterRemoveDefault`, `AfterSetDefault`, `AfterDelete`).
  The classes `AccountDao`, `AccountRepository` and `AccountViewModel`
  each hold or reach the table as a `seq<Account>` field. Their methods
  update the field in place and keep the primary-key invariant (`Valid`).
- `table_lemmas.dfy`, module `TableLemmas`: properties of the statements,
  alone and over any sequence of calls (`Op`, `ApplyAll`).
- `post_listings.dfy`, module `PostListings`: the class `AccountDrawer`
  with `SwitchTo` and `SignOut`. These call the view model in the order the
  handlers issue the calls. The field `activeInstance` stands for the API
  client's instance. `RemoveFirst` models `MutableList.remove`.

Modelling choices:

- The `default_` column is the field `isDefault`. The nullable `avatar` is an
  `Option<string>`. Kotlin's 32-bit `Int` key is an unbounded `int`: no
  arithmetic is done on it.
- `SELECT * FROM account` has no `ORDER BY`, so a snapshot's order is taken
  to be the sequence order. `insert` appends. `delete` keeps the order of
  the remaining rows.
- The snapshot that "Sign Out" copies is the table as it stands when the
  click happens, before the delete. The current account is a parameter:
  it must be in that snapshot and be flagged default. `getCurrentAccount`
  is not part of this model.

Behaviour of the handlers worth knowing:

- A switch to an id that is no longer in the table still runs
  `removeDefault`, which clears every flag, and still points the API client
  at the account's instance. Only `setDefault` does nothing, so no row is
  left default. No error is raised.
- Sign-out always promotes the first remaining account, whether or not the
  signed-out account was the default.
- Sign-out does not clear the API client's identity when the table becomes
  empty.
- The calls of one action are not made atomic. Each is launched as its own
  coroutine.
- `id` is the table's `INTEGER PRIMARY KEY`, that is SQLite's rowid, so in
  practice the unordered `SELECT` returns rows in increasing id order and the
  account promoted on sign-out is the one with the lowest remaining id. The
  contracts do not rely on that: they are stated relative to whatever order
  the snapshot has.

## Model

| member | source | states |
|---|---|---|
| `AppDb.DefaultCount` | app/src/main/java/com/jerboa/db/AppDB.kt:14 | the number of default rows is at most the row count, and it is zero exactly when no row has `default_` set |
| `AppDb.AfterInsert` | app/src/main/java/com/jerboa/db/AppDB.kt:32-33 | insert with IGNORE: the existing rows stay as they were, in place. Exactly one row (the given one) is appended when its id is absent, and none when it is present. The id is present afterwards, and unique keys stay unique |
| `AppDb.AfterRemoveDefault` | app/src/main/java/com/jerboa/db/AppDB.kt:35-36 | same row count; every row becomes the old row with `default_` cleared, all other columns unchanged |
| `AppDb.AfterSetDefault` | app/src/main/java/com/jerboa/db/AppDB.kt:38-39 | same rows up to the flag. A row's flag afterwards is its old flag or whether its id is the given one, so an existing default elsewhere is kept |
| `AppDb.AfterDelete` | app/src/main/java/com/jerboa/db/AppDB.kt:41-42 | no row keeps the key. The remaining rows are exactly the old rows with another key. A missing key leaves the table unchanged |
| `AppDb.AfterDeleteKeepsIdsUnique` | app/src/main/java/com/jerboa/db/AppDB.kt:41-42 | deleting keeps the primary key unique |
| `AppDb.AccountDao.Insert` | app/src/main/java/com/jerboa/db/AppDB.kt:32-33 | the table becomes `AfterInsert` of the old table; keys stay unique |
| `AppDb.AccountDao.RemoveDefault` | app/src/main/java/com/jerboa/db/AppDB.kt:35-36 | the table becomes `AfterRemoveDefault` of the old table and has no default row; keys stay unique |
| `AppDb.AccountDao.SetDefault` | app/src/main/java/com/jerboa/db/AppDB.kt:38-39 | the table becomes `AfterSetDefault` of the old table; keys stay unique |
| `AppDb.AccountDao.Delete` | app/src/main/java/com/jerboa/db/AppDB.kt:41-42 | the table becomes `AfterDelete` of the old table by the account's key; keys stay unique |
| `AppDb.AccountDao.constructor` | app/src/main/java/com/jerboa/db/AppDB.kt:77 | the database declares the `account` table, which starts empty, so the primary-key invariant holds from the start |
| `AppDb.AccountRepository.constructor` | app/src/main/java/com/jerboa/db/AppDB.kt:47 | the repository wraps the given data-access object |
| `AppDb.AccountRepository.Insert` | app/src/main/java/com/jerboa/db/AppDB.kt:57-59 | same effect on the table as the data-access object's insert |
| `AppDb.AccountRepository.RemoveDefault` | app/src/main/java/com/jerboa/db/AppDB.kt:62-64 | same effect as the data-access object's removeDefault |
| `AppDb.AccountRepository.SetDefault` | app/src/main/java/com/jerboa/db/AppDB.kt:67-69 | same effect as the data-access object's setDefault |
| `AppDb.AccountRepository.Delete` | app/src/main/java/com/jerboa/db/AppDB.kt:72-74 | same effect as the data-access object's delete |
| `AppDb.AccountViewModel.constructor` | app/src/main/java/com/jerboa/db/AppDB.kt:105 | the view model wraps the given repository |
| `AppDb.AccountViewModel.Insert` | app/src/main/java/com/jerboa/db/AppDB.kt:109-111 | same effect on the table as the repository's insert |
| `AppDb.AccountViewModel.RemoveDefault` | app/src/main/java/com/jerboa/db/AppDB.kt:113-115 | same effect as the repository's removeDefault |
| `AppDb.AccountViewModel.SetDefault` | app/src/main/java/com/jerboa/db/AppDB.kt:117-119 | same effect as the repository's setDefault |
| `AppDb.AccountViewModel.Delete` | app/src/main/java/com/jerboa/db/AppDB.kt:121-123 | same effect as the repository's delete |
| `TableLemmas.SameExceptFlagsKeepsIdsUnique` | app/src/main/java/com/jerboa/db/AppDB.kt:35-39 | an update that changes only flags keeps keys unique |
| `TableLemmas.ApplyKeepsIdsUnique` | app/src/main/java/com/jerboa/db/AppDB.kt:32-42 | each of the four calls keeps the primary key unique |
| `TableLemmas.IdsStayUnique` | app/src/main/java/com/jerboa/db/AppDB.kt:32-42 | keys stay unique after any sequence of insert/removeDefault/setDefault/delete calls |
| `TableLemmas.OnlyDefaultFlagChanges` | app/src/main/java/com/jerboa/db/AppDB.kt:32-42 | after any call, a row whose key existed before has the same instance, name, avatar and token as before; only `default_` is updated in place |
| `TableLemmas.RowCount` | app/src/main/java/com/jerboa/db/AppDB.kt:32-42 | insert adds at most one row, delete removes at most one, removeDefault and setDefault keep the count |
| `TableLemmas.DeleteAt` | app/src/main/java/com/jerboa/db/AppDB.kt:41-42 | deleting a present key removes exactly that row and keeps the other rows in order |
| `TableLemmas.InsertOfPresentKeyKeepsRow` | app/src/main/java/com/jerboa/db/AppDB.kt:32-33 | inserting an account whose key is present leaves the whole table, that row included, unchanged |
| `TableLemmas.RemoveDefaultClearsAll` | app/src/main/java/com/jerboa/db/AppDB.kt:35-36 | after removeDefault no row is default and the rows are unchanged up to flags; a second call changes nothing |
| `TableLemmas.SetDefaultOfAbsentKey` | app/src/main/java/com/jerboa/db/AppDB.kt:38-39 | setDefault of a missing key leaves the table unchanged |
| `TableLemmas.SoleDefaultCountsOne` | app/src/main/java/com/jerboa/db/AppDB.kt:13-14 | with unique keys, a sole default row means exactly one flagged row |
| `TableLemmas.OneDefaultIsSole` | app/src/main/java/com/jerboa/db/AppDB.kt:14 | when one row is counted as default, no other row is flagged |
| `TableLemmas.SetDefaultOnClearedTable` | app/src/main/java/com/jerboa/db/AppDB.kt:38-39 | setDefault of a present key on a table with no default leaves exactly one default, that key |
| `TableLemmas.RemoveThenSetDefault` | app/src/main/java/com/jerboa/db/AppDB.kt:35-39 | removeDefault then setDefault(id): exactly one default, the row keyed id, when id is present; no default when it is absent |
| `TableLemmas.SetDefaultAloneCanMakeTwoDefaults` | app/src/main/java/com/jerboa/db/AppDB.kt:38-39 | setDefault alone does not clear other flags: from a table with one default it can make two |
| `PostListings.RemoveFirst` | app/src/main/java/com/jerboa/ui/components/post/PostListings.kt:241 | removing an element present in the list drops exactly one occurrence of it (the multiset loses one copy); an absent element leaves the list unchanged |
| `PostListings.RemoveFirstAt` | app/src/main/java/com/jerboa/ui/components/post/PostListings.kt:241 | the occurrence removed is the first one, and the other elements keep their order |
| `PostListings.RemoveFirstIsDelete` | app/src/main/java/com/jerboa/ui/components/post/PostListings.kt:240-241 | with unique keys, removing the current account from the copied list equals filtering out its key |
| `PostListings.DeleteSoleDefault` | app/src/main/java/com/jerboa/ui/components/post/PostListings.kt:239 | deleting the row that is the snapshot's only default leaves a table with no default |
| `PostListings.FirstRemaining` | app/src/main/java/com/jerboa/ui/components/post/PostListings.kt:243-244 | with two or more rows, the table after a delete is non-empty. Its first row is the snapshot's first, or the second when the first is the deleted one |
| `PostListings.SignOutOutcome` | app/src/main/java/com/jerboa/ui/components/post/PostListings.kt:239-245 | with the current account as the snapshot's only default, the table after the delete has no default. The copied list minus the account equals that table. It is empty exactly when the account was the only one. Otherwise its first element is the snapshot's first (second, when the first is the one signed out), and marking it leaves it the sole default |
| `PostListings.AccountDrawer.constructor` | app/src/main/java/com/jerboa/ui/components/post/PostListings.kt:212-217 | the drawer acts on the given view model and starts on the given instance |
| `PostListings.AccountDrawer.SwitchTo` | app/src/main/java/com/jerboa/ui/components/post/PostListings.kt:226-230 | keys stay unique. No row is added or removed, and only flags change. If the chosen account's key is present it becomes the one and only default, and otherwise no row is default. The active instance becomes the account's instance |
| `PostListings.AccountDrawer.SignOut` | app/src/main/java/com/jerboa/ui/components/post/PostListings.kt:238-246 | the account's key is gone and exactly one row fewer remains. The table is the old one after the delete, with the first remaining row flagged when one remains. Other columns are unchanged. From a snapshot whose only default is the account, the only sign-out leaves an empty table, and otherwise the first remaining account in snapshot order is the sole default |

## Left out

- Room and SQLite persistence, the `getAll` query as a `Flow`, `LiveData` and `observeAsState`: the observed list is the table's current sequence.
- Coroutine launching (`viewModelScope.launch`, `@WorkerThread`). The calls of one action are independent coroutines, so their order and any interleaving with other callers are not guaranteed. The model runs them one after another in issue order.
- `AppDB.getDatabase`, the lazily created singleton guarded by `@Volatile` and `synchronized`: this is wiring for concurrency.
- `AccountViewModelFactory`: reflection and a class check only.
- `API.changeLemmyInstance` and the network client: foreign code, modelled only as the assignment of `activeInstance`.
- `getCurrentAccount` is not part of this model. Its result is the `currentAccount` parameter of `SignOut`, and the `!!` at PostListings.kt:235 becomes the precondition that the account is in the snapshot. The failure of `!!` when no account is default (for example after the last account is signed out) is not modelled.
- `PostListings.AccountDrawer.SignOut`: does not state that no `setDefault` is issued when the last account is signed out. It states only the resulting empty table, where a `setDefault` would change nothing anyway.
- The Compose UI, the rest of `PostListings.kt` and `PostListing.kt`: rendering and navigation.
- Storage I/O failures: the data-access calls cannot fail in the model.
