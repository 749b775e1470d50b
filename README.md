# Book tracker store and handlers, in Dafny

This project models the server core of a book-writing tracker:

- the entity store of `server/db.ts`;
- the request handlers of `server/routers.ts` that call it;
- the table definitions of `drizzle/schema.ts`.

A signed-in writer owns books. A book has chapters, and the writer logs work
sessions, atomic notes, rituals and milestones, and keeps one row of
settings.

## Modules

- **Results** (`results.dfy`): `Option`, `Result`, `Outcome` and the four
  errors the core raises:
  - unauthorized;
  - database not available;
  - book not found;
  - openId required.
- **Schema** (`schema.dfy`):
  - the eight row types and the enumerations their columns range over;
  - the column defaults;
  - the partial updates ("patches") each update operation applies, with the
    functions that apply them and their laws (idempotence, composition).
- **Query** (`query.dfy`): `where`, `orderBy` and `limit` over a table held as
  a sequence.
  - Filtering.
  - A stable insertion sort on an integer key; `desc(col)` sorts on the
    negated column.
  - Taking a prefix, and taking the first row.
  - Rewriting the rows that match a condition.
- **Upsert** (`upsert.dfy`): the field-by-field assembly inside `upsertUser`.
  - `values` and `updateSet` are maps from column to value, built by a loop
    over the text columns followed by the role and sign-in rules.
  - The insert-or-update statement runs against the users table.
- **Store** (`store.dfy`): class `Store`.
  - One `seq` field per table, plus a clock that stamps every insert with a
    strictly later instant.
  - Each `get*` function of `db.ts` is a function that reads the store.
  - Each `create*`/`update*` function is a method that modifies only its own
    table (and the clock).
  - `Valid()` holds the table invariants:
    - auto-increment ids (no operation deletes, so row `k` has id `k + 1`);
    - the two unique indexes (users.openId and userSettings.userId);
    - every row of every table created before the current instant, so a row
      just inserted is strictly the newest of its table.
- **Router** (`router.dfy`): the handlers of `book.*`, `chapters.*`,
  `sessions.*`, `notes.*`, `rituals.*`, `milestones.*` and `settings.*`.
  - Each handler takes the store and the signed-in caller's id (`None` when
    nobody is signed in, which the protected procedures refuse).
  - Each handler composes the store calls as the source does.
- **Scenarios** (`scenarios.dfy`): the request sequences of
  `server/book.test.ts`, stated for every store and every user and proved
  from the handlers' contracts.

## Model

| member | source | states |
|---|---|---|
| Query.Filter | server/db.ts:129 | the filtered table holds exactly the rows of the table that satisfy the condition, and is no longer than the table |
| Query.FilterCounts | server/db.ts:129 | filtering keeps every satisfying row as often as it occurs and drops every other row |
| Query.FilterAppend | server/db.ts:111 | filtering a table with one row appended is filtering the table, followed by the new row if it satisfies the condition |
| Query.InsertBy | server/db.ts:129 | inserting into a sorted sequence keeps it sorted and one longer, and its head is either the inserted element or the old head |
| Query.InsertByPermutes | server/db.ts:129 | the insertion adds exactly the inserted element (multiset equality) |
| Query.SortBy | server/db.ts:129 | `orderBy` yields a sorted permutation of its input |
| Query.Take | server/db.ts:185 | `limit(n)` yields the first n rows in order, or all rows when there are fewer |
| Query.First | server/db.ts:98 | `result.length > 0 ? result[0] : undefined`: nothing exactly when the result is empty, otherwise its first row |
| Query.UpdateWhere | server/db.ts:267 | `update ... where` rewrites every matching row with the update and leaves every other row and the table length unchanged |
| Query.OrderedWhere | server/db.ts:206 | `where ... orderBy` holds exactly the matching rows, each as often as the table holds it, sorted on the key |
| Query.LeastIsFirst | server/db.ts:111 | a row whose key is strictly below every other row's comes first after sorting |
| Query.TakeCounts | server/db.ts:185 | `limit(n)` keeps no row more often than the listing holds it, and keeps the whole listing when it is shorter than n |
| Query.TakeSorted | server/db.ts:185 | a limited sorted listing is still sorted and holds only rows of the listing |
| Query.TakeKeepsLeast | server/db.ts:185 | a row cut off by the limit has a key no smaller than that of any row kept |
| Schema.ReminderDefaultsFit | drizzle/schema.ts:142-143 | both reminder defaults are HH:MM readings that fit the 5-character columns |
| Schema.ApplyBookFields | server/db.ts:118 | `set(updates)` on a book overwrites exactly the supplied title, description and target, and keeps id, owner and creation time |
| Schema.ApplyChapterPatch | server/db.ts:157 | a chapter update overwrites exactly the supplied status, progress, notes and next steps, and keeps book, number, title and creation time |
| Schema.ApplySessionPatch | server/db.ts:179 | a session update overwrites exactly the supplied end time, duration, notes count and notes, and keeps every other column |
| Schema.ApplyRitualPatch | server/db.ts:225 | a ritual update overwrites exactly the supplied completion, checklist and notes, and keeps owner, type, date and creation time |
| Schema.ApplySettingsPatch | server/db.ts:267 | a settings update overwrites exactly the supplied preferences, and keeps the id, owner and creation time |
| Schema.FirstSettings | server/db.ts:269-276 | the first settings row holds notifications 1, email 1, "19:00" and "06:45", each overridden by a supplied field |
| Schema.BookFieldsIdempotent | server/db.ts:118 | applying the same book update twice equals applying it once |
| Schema.NoBookFieldsIsIdentity | server/db.ts:118 | a book update supplying nothing leaves the book as it was |
| Schema.BookFieldsCompose | server/db.ts:118 | two book updates in a row equal one update in which the later values win |
| Schema.ChapterPatchIdempotent | server/db.ts:157 | applying the same chapter update twice equals applying it once |
| Schema.NoChapterChangeIsIdentity | server/db.ts:157 | a chapter update supplying nothing leaves the chapter as it was |
| Schema.ChapterPatchesCompose | server/db.ts:157 | two chapter updates in a row equal one update in which the later values win |
| Schema.FirstSettingsIsPatchedDefaults | server/db.ts:269-276 | the first write equals inserting the defaults and then updating them with the same fields |
| Upsert.AssembleTextColumns | server/db.ts:38-49 | after the loop over name, email and loginMethod, a column is in both records exactly when the caller did not leave it out, holding its value or null; `values` is `updateSet` plus the openId |
| Upsert.NoColumnsIsEmpty | server/db.ts:67 | a record assigning none of the six columns has no keys |
| Upsert.AssembleUpsert | server/db.ts:32-69 | per column: `values` always carries the openId and a sign-in time (the supplied one or now); `updateSet` never carries the openId; an explicit role wins, else the owner's openId gets admin, else no role; `updateSet` carries a sign-in time exactly when one was supplied or it would otherwise be empty, so it is never empty |
| Upsert.NewUserRow | server/db.ts:55-65 | a first sign-in row has the caller's openId, is admin exactly when the role says so or the owner signs in without a role, and is signed in at the supplied time or now |
| Upsert.ReturningUserRow | server/db.ts:71-73 | a later sign-in keeps the row's id, openId and creation time; it keeps the role when no role is supplied and the caller is not the owner; it keeps the sign-in time when none is supplied and something else is |
| Upsert.InsertMatchesRecord | server/db.ts:71 | inserting the assembled `values` creates exactly the caller's new row |
| Upsert.UpdateMatchesRecord | server/db.ts:71-73 | applying the assembled `updateSet` to a row gives exactly the caller's merged row |
| Upsert.ExecuteUpsert | server/db.ts:71-73 | with no row holding the openId, the new row is appended; otherwise the table keeps its length and each row holding the openId is merged, the others unchanged |
| Store.UpsertKeepsUsersTable | drizzle/schema.ts:15 | an upsert keeps user ids dense and openIds unique |
| Store.FirstWith | server/db.ts:135 | `where key = v limit 1` returns a row with that key, and nothing only when no row has it |
| Store.FirstWithAfterInsert | server/routers.ts:42-43 | after inserting a row under a key no row had, the lookup by that key returns it |
| Store.DenseRowAt | drizzle/schema.ts:32 | with auto-increment ids, a row's id gives its position |
| Store.FindDenseId | server/db.ts:135 | the lookup of id `i + 1` returns row `i` |
| Store.MissingDenseId | server/db.ts:135 | the lookup of an id outside `1..n` returns nothing |
| Store.UpdateById | server/db.ts:157 | `update ... where id = v` rewrites the rows with that id and no other |
| Store.UpdateDenseId | server/db.ts:157-159 | an update by id rewrites exactly row `id - 1` (or nothing when the id is absent), keeps ids dense, and the re-read returns the rewritten row |
| Store.NewestOwnedBy | server/db.ts:111 | `where owner orderBy desc(createdAt) limit 1` returns nothing exactly when the owner has no row, and otherwise a row of that owner that no other row of theirs comes before in the ordering |
| Store.NewestIsInserted | server/db.ts:111 | the re-read right after an insert returns the inserted row, since it is strictly the newest of its owner's rows |
| Store.StoredTarget | server/db.ts:108 | `targetChapters \|\| 20`: a supplied non-zero target is kept, an omitted or zero target is stored as 20, and the stored target is never 0 |
| Store.Store.UserByOpenId | server/db.ts:80-90 | returns a user with that openId, and nothing only when there is none or the database is missing |
| Store.Store.UpsertUser | server/db.ts:21-78 | an empty openId fails before touching the store; without a database nothing changes; otherwise the users table is exactly the upsert's result, ids stay dense and openIds unique |
| Store.Store.UserBook | server/db.ts:94-99 | returns a book of that user, and nothing only when the user has none or the database is missing |
| Store.Store.BookById | server/db.ts:120-121 | returns the book with that id, and nothing only when there is none |
| Store.Store.NewestBookOf | server/db.ts:111-112 | nothing exactly when the user has no book, and otherwise a book of that user created no earlier than any other of theirs |
| Store.Store.CreateBook | server/db.ts:101-113 | appends one book owned by the user under the next id, with the target stored as `\|\| 20`, and returns that very book; fails with no database |
| Store.Store.UpdateBook | server/db.ts:115-122 | rewrites only the book with that id, only in the supplied fields, and returns the stored row; an absent id changes nothing and returns nothing |
| Store.Store.ChaptersByBook | server/db.ts:126-130 | exactly the book's chapters, each as often as the table holds it, in chapter-number order; empty with no database |
| Store.Store.ChapterById | server/db.ts:132-137 | returns the chapter with that id, and nothing only when there is none |
| Store.Store.NewestChapterOf | server/db.ts:150-151 | nothing exactly when the book has no chapter, and otherwise a chapter of that book created no earlier than any other of its chapters |
| Store.Store.CreateChapter | server/db.ts:139-152 | appends one chapter, not started at progress 0, under the next id, and returns that very chapter |
| Store.Store.UpdateChapter | server/db.ts:154-160 | rewrites only the chapter with that id, only in the supplied fields, and returns the stored row |
| Store.Store.CreateSession | server/db.ts:164-174 | appends one session started now with no end, no duration and 0 notes, and returns its id (the `insertId` of the driver's insert result) |
| Store.Store.UpdateSession | server/db.ts:176-180 | rewrites only the session with that id, only in the supplied fields |
| Store.Store.SessionsByUser | server/db.ts:182-186 | at most `limit` of the user's sessions, newest first; a session left out is older than every one listed, and the limit is full; no session is listed more often than the table holds it, and a listing shorter than the limit holds all the user's sessions |
| Store.Store.CreateAtomicNote | server/db.ts:190-201 | appends one note with the given links and tags, and returns its id (the `insertId` of the driver's insert result) |
| Store.Store.NotesByChapter | server/db.ts:203-207 | exactly the notes linked to the chapter, each as often as the table holds it, newest first |
| Store.Store.CreateRitual | server/db.ts:211-220 | appends one ritual, not completed, and returns its id (the `insertId` of the driver's insert result) |
| Store.Store.UpdateRitual | server/db.ts:222-226 | rewrites only the ritual with that id, only in the supplied fields |
| Store.Store.RitualsByUser | server/db.ts:228-232 | exactly the user's rituals, each as often as the table holds it, latest date first |
| Store.Store.CreateMilestone | server/db.ts:236-245 | appends one milestone dated now with no celebration notes, and returns its id (the `insertId` of the driver's insert result) |
| Store.Store.MilestonesByBook | server/db.ts:247-251 | exactly the book's milestones, each as often as the table holds it, latest date first |
| Store.Store.SettingsOf | server/db.ts:255-260 | returns the user's settings row, and nothing only when there is none |
| Store.Store.CreateOrUpdateUserSettings | server/db.ts:262-278 | updates the user's row in place when it exists, or else appends the defaults overridden by the supplied fields; at most one row per user either way |
| Router.TitleOrFallback | server/routers.ts:33 | `input.title \|\| "My Book"`: a non-empty title is kept, and the result is never empty |
| Router.ChapterUpdates | server/routers.ts:73 | the forwarded update is the input minus the id, and nothing is lost: with the id put back it is the input |
| Router.SessionUpdates | server/routers.ts:96 | the forwarded update is the input minus the id, and nothing is lost |
| Router.RitualUpdates | server/routers.ts:128 | the forwarded update is the input minus the id, and nothing is lost |
| Router.BookGetOrCreate | server/routers.ts:25-38 | an existing book is returned untouched whatever the input; otherwise one book is created from the input (title falling back to "My Book"); the result is then the caller's book |
| Router.BookGet | server/routers.ts:39-46 | an existing book is returned untouched; otherwise exactly one book "Meu Livro" with 20 target chapters is created and returned; the result is then the caller's book |
| Router.BookUpdate | server/routers.ts:47-55 | "Book not found" with nothing changed when the caller has no book; otherwise only that book changes, in the supplied fields, and the updated row is returned |
| Router.ChaptersList | server/routers.ts:60-64 | exactly the book's chapters, each as often as the table holds it, in chapter-number order |
| Router.ChaptersCreate | server/routers.ts:65-69 | appends one not-started chapter with the given book, number and title, and returns it |
| Router.ChaptersUpdate | server/routers.ts:70-75 | every field but the id reaches the chapter with that id; the re-read row is returned |
| Router.ChaptersGet | server/routers.ts:76-80 | returns the chapter with that id only with a database; nothing only without a database or when there is none |
| Router.SessionsList | server/routers.ts:85-87 | the caller's 20 newest sessions, newest first: a session left out is older than every one listed and the list is full; a shorter list holds all the caller's sessions, none repeated |
| Router.SessionsCreate | server/routers.ts:88-92 | the new session belongs to the caller, not to anything in the input |
| Router.SessionsUpdate | server/routers.ts:93-98 | every field but the id reaches only the session with that id |
| Router.NotesCreate | server/routers.ts:103-107 | the new note belongs to the caller |
| Router.NotesGetByChapter | server/routers.ts:108-112 | exactly the chapter's notes, each as often as the table holds it, newest first |
| Router.RitualsList | server/routers.ts:117-119 | exactly the caller's rituals, each as often as the table holds it, latest date first |
| Router.RitualsCreate | server/routers.ts:120-124 | the new ritual belongs to the caller and starts not completed |
| Router.RitualsUpdate | server/routers.ts:125-130 | every field but the id reaches only the ritual with that id |
| Router.MilestonesList | server/routers.ts:135-139 | exactly the book's milestones, each as often as the table holds it, latest date first |
| Router.MilestonesCreate | server/routers.ts:140-145 | the new milestone belongs to the caller and carries no celebration notes, whatever the input held |
| Router.SettingsGet | server/routers.ts:150-152 | the caller's own settings row only with a database; nothing only without a database or when there is none |
| Router.SettingsUpdate | server/routers.ts:153-157 | the caller's settings row is patched in place when it exists, or else the defaults overridden by the input are appended; every other user's row is kept |
| Scenarios.BookGetTwice | server/book.test.ts:48-57 | two calls of book.get return the same book, create at most one, and a first-time book is "Meu Livro" with 20 target chapters |
| Scenarios.GetOrCreateTwice | server/book.test.ts:77-95 | the second getOrCreate ignores its input and returns the first one's book |
| Scenarios.CreateTwoChaptersThenList | server/book.test.ts:126-158 | after two chapters are created in a book, its listing has at least two chapters, all of that book, in chapter order |
| Scenarios.CreateThenUpdateChapter | server/book.test.ts:161-193 | the updated chapter carries the supplied status, progress and notes and keeps its book, number and title |
| Scenarios.CreateSessionThenList | server/routers.ts:85-92 | a session just created through sessions.create heads the caller's sessions.list |
| Scenarios.NewestHeadsList | server/db.ts:185 | a newest-first listing, cut only past older rows at a positive limit, starts with the row stamped after every other row of its table |
| Scenarios.RetitleKeepsTarget | server/book.test.ts:219-238 | a title-only book.update changes the title and nothing else, so the target chapters stay |

## Left out

- The connection handle of `getDb` (server/db.ts:9-19) and the environment
  lookup are left out. The store has a fixed `available` flag: without a
  database, reads return nothing and writes fail with "Database not
  available". upsertUser returns quietly instead, as the code does.
- Wall-clock time is left out; `new Date()` and `defaultNow()` are modelled
  by a clock that strictly increases on every insert.
  - The model therefore never has two rows with the same `createdAt`. The
    re-read after createBook or createChapter could return another row of
    the same owner created in the same instant; that is not modelled.
  - The two `new Date()` calls in upsertUser read the same instant.
- The `updatedAt` / `onUpdateNow` columns are left out.
- Auto-increment ids are dense (row `k` has id `k + 1`). Ids that MySQL
  consumes without keeping a row, for example on the update path of an
  upsert, are not modelled.
- Concurrency is left out, including the race between an insert and the
  re-read that follows it.
- Handlers never check that an id in their input belongs to the caller;
  the model adds no such check.
- The AI router and `server/llm.ts` are left out: they are prompt templates
  around a foreign model call.
- The `auth` and `system` routers and the tRPC middleware are left out. The
  middleware is modelled only as the `caller` parameter: `None` is refused
  with "unauthorized".
- The client files are left out.
- zod validation is modelled by typed inputs. Numbers are `int`, so
  fractions, NaN and values outside MySQL's 32-bit `int` are not modelled.
  Neither are varchar length limits.
- The store's update operations accept only the columns the handlers send,
  not every column that `Partial<Insert*>` would allow.
- An update that supplies no field at all is modelled as changing nothing.
  What happens to an empty `set` is behaviour of the query library, outside
  this repository's code.
- The create operations for sessions, notes, rituals and milestones return
  the raw insert result of the MySQL driver, whose `insertId` is the new id.
  The model returns only that id. updateSession, updateRitual and
  createOrUpdateUserSettings return the driver's raw update or insert
  result; the model returns `Pass`.
- openId matching, in the users table's unique index and in getUserByOpenId,
  is modelled as exact string equality. The collation of the MySQL server
  (case and accent folding under MySQL 8's default) is behaviour of the
  MySQL server, outside this repository's code, and is not modelled, so two openIds that differ only in case
  are two users here. The same holds for other server behaviour, such as
  the varchar limits named above.
- Rows with equal sort keys come out in insertion order here. SQL leaves
  that order open, so no contract relies on it.
- Upsert.AssembleUpsert: a returning user's `lastSignedIn` is rewritten
  only when the caller supplies it or when nothing else would be updated
  (server/db.ts:50-53, 66-68). A sign-in that supplies only a name keeps the
  old sign-in time; the model states exactly that.
- Scenarios.BookGetTwice: states "20 target chapters" only for a book that
  call creates. The test expects a positive target for any existing book,
  but createBook keeps a negative target and book.update can store any
  value, so that expectation does not hold in general.
