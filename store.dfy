/** The entity store of server/db.ts: eight tables held as sequences of rows
    in insertion order, and one clock that stamps `createdAt` (and every
    `new Date()` / `defaultNow()`) with a strictly later instant on each
    insert.

    No operation deletes a row, so an auto-increment id is the row's position
    in its table plus one.

    `available` stands for the lazily opened database handle: when it is
    missing, reads return nothing and writes fail with "Database not
    available" (upsertUser instead returns quietly). */
module Store {
  import opened Results
  import opened Schema
  import opened Query
  import opened Upsert

  // ------------------------------------------------------------- row keys

  function BookId(b: Book): int { b.id }
  function BookCreated(b: Book): int { b.createdAt }
  function ChapterId(c: Chapter): int { c.id }
  function ChapterCreated(c: Chapter): int { c.createdAt }
  function BookOwner(b: Book): int { b.userId }
  function ChapterBook(c: Chapter): int { c.bookId }
  function SessionId(s: Session): int { s.id }
  function SettingsOwner(s: UserSettings): int { s.userId }
  function RitualId(r: Ritual): int { r.id }

  // ordering keys: `orderBy(col)` ascends on the column, `orderBy(desc(col))` on its negation
  function ChapterNumber(c: Chapter): int { c.chapterNumber }
  function BookNewestFirst(b: Book): int { -(b.createdAt as int) }
  function ChapterNewestFirst(c: Chapter): int { -(c.createdAt as int) }
  function SessionNewestFirst(s: Session): int { -(s.createdAt as int) }
  function NoteNewestFirst(n: AtomicNote): int { -(n.createdAt as int) }
  function RitualLatestDateFirst(r: Ritual): int { -r.date }
  function MilestoneLatestDateFirst(m: Milestone): int { -(m.date as int) }

  function UserId(u: User): int { u.id }
  function UserCreated(u: User): int { u.createdAt }
  function SessionCreated(s: Session): int { s.createdAt }
  function NoteCreated(n: AtomicNote): int { n.createdAt }
  function RitualCreated(r: Ritual): int { r.createdAt }
  function MilestoneCreated(m: Milestone): int { m.createdAt }
  function SettingsCreated(s: UserSettings): int { s.createdAt }
  function NoteId(n: AtomicNote): int { n.id }
  function MilestoneId(m: Milestone): int { m.id }
  function SettingsId(s: UserSettings): int { s.id }

  // ------------------------------------------------------------- table invariants

  /** Auto-increment ids with no deletes: row `k` has id `k + 1`. */
  ghost predicate DenseIds<R>(s: seq<R>, id: R -> int) {
    forall k :: 0 <= k < |s| ==> id(s[k]) == k + 1
  }

  /** Every row was created before `clock`. */
  ghost predicate CreatedBefore<R>(s: seq<R>, created: R -> int, clock: int) {
    forall k :: 0 <= k < |s| ==> created(s[k]) < clock
  }

  /** The unique index on users.openId. */
  ghost predicate UniqueOpenIds(users: seq<User>) {
    forall i, j :: 0 <= i < j < |users| ==> users[i].openId != users[j].openId
  }

  /** The unique index on userSettings.userId. */
  ghost predicate UniqueSettingsOwners(settings: seq<UserSettings>) {
    forall i, j :: 0 <= i < j < |settings| ==> settings[i].userId != settings[j].userId
  }

  /** An upsert keeps the users table's ids dense and its openIds unique:
      it either appends a row under the next id and a new openId, or
      rewrites the row holding that openId, keeping its id and openId. */
  lemma UpsertKeepsUsersTable(users: seq<User>, user: InsertUser, ownerOpenId: string, now: Timestamp, after: seq<User>)
    requires DenseIds(users, UserId) && UniqueOpenIds(users)
    requires (forall u :: u in users ==> u.openId != user.openId) ==>
      after == users + [NewUserRow(user, ownerOpenId, |users| + 1, now)]
    requires !(forall u :: u in users ==> u.openId != user.openId) ==>
      && |after| == |users|
      && forall i :: 0 <= i < |users| ==>
           after[i] == if users[i].openId == user.openId then ReturningUserRow(users[i], user, ownerOpenId, now) else users[i]
    ensures DenseIds(after, UserId) && UniqueOpenIds(after)
  {
    if forall u :: u in users ==> u.openId != user.openId {
      forall i, j | 0 <= i < j < |after| ensures after[i].openId != after[j].openId {
        if j == |users| {
          assert users[i] in users;
        }
      }
    } else {
      assert forall i :: 0 <= i < |users| ==> after[i].id == users[i].id && after[i].openId == users[i].openId;
    }
  }

  /** Advancing the clock keeps every row created before it. */
  lemma CreatedBeforeLater<R>(s: seq<R>, created: R -> int, clock: int, later: int)
    requires CreatedBefore(s, created, clock) && clock <= later
    ensures CreatedBefore(s, created, later)
  {
  }

  /** `where key = value limit 1`: the first row, in insertion order, whose
      key is `value`, if the table has one. */
  function FirstWith<R(==,!new)>(s: seq<R>, key: R -> int, value: int): (r: Option<R>)
    ensures r.Some? ==> r.value in s && key(r.value) == value
    ensures r.None? ==> forall x :: x in s ==> key(x) != value
  {
    First(Filter(s, (x: R) => key(x) == value))
  }

  /** Once a row is appended under a key no earlier row has, the lookup by
      that key finds it. */
  lemma FirstWithAfterInsert<R(!new)>(s: seq<R>, x: R, key: R -> int)
    requires forall y :: y in s ==> key(y) != key(x)
    ensures FirstWith(s + [x], key, key(x)) == Some(x)
  {
    assert x in s + [x];
  }

  /** With ids dense from 1, a row's id gives its position. */
  lemma DenseRowAt<R(!new)>(s: seq<R>, key: R -> int, x: R)
    requires DenseIds(s, key) && x in s
    ensures 1 <= key(x) <= |s| && s[key(x) - 1] == x
  {
    var k :| 0 <= k < |s| && s[k] == x;
  }

  /** With ids dense from 1, looking up id `i + 1` finds exactly row `i`. */
  lemma FindDenseId<R(!new)>(s: seq<R>, key: R -> int, i: int)
    requires DenseIds(s, key)
    requires 0 <= i < |s|
    ensures FirstWith(s, key, i + 1) == Some(s[i])
  {
    assert s[i] in s;
    var r := FirstWith(s, key, i + 1);
    var k :| 0 <= k < |s| && s[k] == r.value;
  }

  /** With ids dense from 1, no row has an id outside `1..|s|`. */
  lemma MissingDenseId<R(!new)>(s: seq<R>, key: R -> int, id: int)
    requires DenseIds(s, key)
    requires !(1 <= id <= |s|)
    ensures FirstWith(s, key, id) == None
  {
    forall x | x in s ensures key(x) != id {
      var k :| 0 <= k < |s| && s[k] == x;
    }
  }

  /** `update ... set(f) where key = id` */
  function UpdateById<R>(s: seq<R>, id: int, key: R -> int, f: R -> R): (r: seq<R>)
    ensures |r| == |s|
    ensures forall i :: 0 <= i < |s| ==> r[i] == if key(s[i]) == id then f(s[i]) else s[i]
  {
    UpdateWhere(s, (x: R) => key(x) == id, f)
  }

  /** With ids dense from 1, an update by id rewrites row `id - 1` and no
      other, keeps the ids dense, and the re-read by id finds the new row. */
  lemma UpdateDenseId<R(!new)>(s: seq<R>, key: R -> int, id: int, f: R -> R)
    requires DenseIds(s, key)
    requires forall x :: key(f(x)) == key(x)
    ensures DenseIds(UpdateById(s, id, key, f), key)
    ensures 1 <= id <= |s| ==>
      && UpdateById(s, id, key, f) == s[id - 1 := f(s[id - 1])]
      && FirstWith(UpdateById(s, id, key, f), key, id) == Some(f(s[id - 1]))
    ensures !(1 <= id <= |s|) ==>
      && UpdateById(s, id, key, f) == s
      && FirstWith(s, key, id) == None
  {
    var t := UpdateById(s, id, key, f);
    if 1 <= id <= |s| {
      assert forall k :: 0 <= k < |s| ==> t[k] == s[id - 1 := f(s[id - 1])][k];
      FindDenseId(t, key, id - 1);
    } else {
      assert forall k :: 0 <= k < |s| ==> t[k] == s[k];
      MissingDenseId(s, key, id);
    }
  }

  /** `where owner = ownerId orderBy desc(createdAt) limit 1`: the owner's
      most recently created row. */
  function NewestOwnedBy<R(==,!new)>(s: seq<R>, owner: R -> int, ownerId: int, newestFirst: R -> int): (r: Option<R>)
    ensures r.Some? ==> r.value in s && owner(r.value) == ownerId
    ensures r.None? <==> forall x :: x in s ==> owner(x) != ownerId
    ensures r.Some? ==> forall y :: y in s && owner(y) == ownerId ==> newestFirst(r.value) <= newestFirst(y)
  {
    var mine := Filter(s, (x: R) => owner(x) == ownerId);
    var sorted := SortBy(mine, newestFirst);
    var newest := First(sorted);
    assert newest.Some? ==> newest.value in multiset(mine);
    forall y | y in s && owner(y) == ownerId
      ensures sorted != [] && newestFirst(sorted[0]) <= newestFirst(y)
    {
      assert y in multiset(sorted);
      var k :| 0 <= k < |sorted| && sorted[k] == y;
    }
    newest
  }

  /** The new row is the newest of its owner's rows, so the re-read right
      after an insert returns it. */
  lemma NewestIsInserted<R(!new)>(s: seq<R>, x: R, owner: R -> int, created: R -> int, newestFirst: R -> int, clock: int)
    requires CreatedBefore(s, created, clock)
    requires created(x) == clock
    requires forall y :: newestFirst(y) == -created(y)
    ensures NewestOwnedBy(s + [x], owner, owner(x), newestFirst) == Some(x)
  {
    var mine := (y: R) => owner(y) == owner(x);
    var f := Filter(s + [x], mine);
    FilterAppend(s, x, mine);
    assert f == Filter(s, mine) + [x];
    forall y | y in f && y != x ensures newestFirst(x) < newestFirst(y) {
      assert y in Filter(s, mine);
      var k :| 0 <= k < |s| && s[k] == y;
    }
    LeastIsFirst(f, newestFirst, x);
  }

  /** `targetChapters || 20`: an omitted or zero target falls back to 20. */
  function StoredTarget(targetChapters: Option<int>): (r: int)
    ensures r != 0
    ensures targetChapters.Some? && targetChapters.value != 0 ==> r == targetChapters.value
    ensures targetChapters.None? || targetChapters.value == 0 ==> r == DefaultTargetChapters
  {
    if targetChapters.None? || targetChapters.value == 0 then DefaultTargetChapters else targetChapters.value
  }

  class Store {
    const available: bool
    const ownerOpenId: string

    var clock: Timestamp

    var users: seq<User>
    var books: seq<Book>
    var chapters: seq<Chapter>
    var sessions: seq<Session>
    var notes: seq<AtomicNote>
    var rituals: seq<Ritual>
    var milestones: seq<Milestone>
    var settings: seq<UserSettings>

    /** Auto-increment ids in every table, the schema's two unique indexes
        (one user per openId, one settings row per user), and every row
        created before now, so that a row just inserted is strictly the
        newest of its table. */
    ghost predicate Valid()
      reads this
    {
      UsersValid() && BooksValid() && ChaptersValid() && SessionsValid()
      && NotesValid() && RitualsValid() && MilestonesValid() && SettingsValid()
      && Stamped()
    }

    ghost predicate UsersValid()
      reads this`users
    {
      DenseIds(users, UserId) && UniqueOpenIds(users)
    }

    ghost predicate BooksValid()
      reads this`books
    {
      DenseIds(books, BookId)
    }

    ghost predicate ChaptersValid()
      reads this`chapters
    {
      DenseIds(chapters, ChapterId)
    }

    ghost predicate SessionsValid()
      reads this`sessions
    {
      DenseIds(sessions, SessionId)
    }

    ghost predicate NotesValid()
      reads this`notes
    {
      DenseIds(notes, NoteId)
    }

    ghost predicate RitualsValid()
      reads this`rituals
    {
      DenseIds(rituals, RitualId)
    }

    ghost predicate MilestonesValid()
      reads this`milestones
    {
      DenseIds(milestones, MilestoneId)
    }

    ghost predicate SettingsValid()
      reads this`settings
    {
      DenseIds(settings, SettingsId) && UniqueSettingsOwners(settings)
    }

    /** Every row of every table was created before `clock`. */
    ghost predicate Stamped()
      reads this
    {
      StampedBefore(clock)
    }

    ghost predicate StampedBefore(c: int)
      reads this
    {
      && CreatedBefore(users, UserCreated, c) && CreatedBefore(books, BookCreated, c)
      && CreatedBefore(chapters, ChapterCreated, c) && CreatedBefore(sessions, SessionCreated, c)
      && CreatedBefore(notes, NoteCreated, c) && CreatedBefore(rituals, RitualCreated, c)
      && CreatedBefore(milestones, MilestoneCreated, c) && CreatedBefore(settings, SettingsCreated, c)
    }

    /** Advancing the clock keeps every row of every table created before it. */
    lemma ClockAdvances(later: int)
      requires Valid() && clock <= later
      ensures StampedBefore(later)
    {
    }

    constructor (available: bool, ownerOpenId: string)
      ensures Valid()
      ensures this.available == available && this.ownerOpenId == ownerOpenId
      ensures clock == 0
      ensures users == [] && books == [] && chapters == [] && sessions == []
      ensures notes == [] && rituals == [] && milestones == [] && settings == []
    {
      this.available := available;
      this.ownerOpenId := ownerOpenId;
      clock := 0;
      users, books, chapters, sessions := [], [], [], [];
      notes, rituals, milestones, settings := [], [], [], [];
    }

    // ============================================================ users

    /** getUserByOpenId */
    function UserByOpenId(openId: string): (r: Option<User>)
      reads this
      ensures r.Some? ==> available && r.value in users && r.value.openId == openId
      ensures r.None? ==> !available || forall u :: u in users ==> u.openId != openId
    {
      if !available then None else First(Filter(users, (u: User) => u.openId == openId))
    }

    /** upsertUser: insert the caller's identity, or merge it into the row
        that already has its openId. */
    method UpsertUser(user: InsertUser) returns (r: Outcome)
      requires Valid()
      modifies this`users, this`clock
      ensures Valid()
      ensures user.openId == "" ==> r == Fail(OpenIdRequired) && unchanged(this)
      ensures user.openId != "" ==> r == Pass
      ensures user.openId != "" && !available ==> unchanged(this)
      ensures user.openId != "" && available && old(UserByOpenId(user.openId)).None? ==>
        && users == old(users) + [NewUserRow(user, ownerOpenId, |old(users)| + 1, old(clock))]
        && clock == old(clock) + 1
      ensures user.openId != "" && available && old(UserByOpenId(user.openId)).Some? ==>
        && |users| == |old(users)| && clock == old(clock) + 1
        && forall i :: 0 <= i < |users| ==>
             users[i] == if old(users)[i].openId == user.openId
                         then ReturningUserRow(old(users)[i], user, ownerOpenId, old(clock))
                         else old(users)[i]
    {
      if user.openId == "" {
        return Fail(OpenIdRequired);
      }
      if !available {
        return Pass;
      }
      var after := ExecuteUpsert(users, user, ownerOpenId, |users| + 1, clock);
      UpsertKeepsUsersTable(users, user, ownerOpenId, clock, after);
      ClockAdvances(clock + 1);
      users := after;
      clock := clock + 1;
      return Pass;
    }

    // ============================================================ books

    /** getUserBook: the caller's book (the first one, in insertion order). */
    function UserBook(userId: int): (r: Option<Book>)
      reads this
      ensures r.Some? ==> available && r.value in books && r.value.userId == userId
      ensures r.None? ==> !available || forall b :: b in books ==> b.userId != userId
    {
      if !available then None else FirstWith(books, BookOwner, userId)
    }

    /** The re-read at the end of updateBook: the book with that id. */
    function BookById(bookId: int): (r: Option<Book>)
      reads this
      ensures r.Some? ==> available && r.value in books && r.value.id == bookId
      ensures r.None? ==> !available || forall b :: b in books ==> b.id != bookId
    {
      if !available then None else FirstWith(books, BookId, bookId)
    }

    /** The re-read at the end of createBook: the owner's most recently created book. */
    function NewestBookOf(userId: int): (r: Option<Book>)
      reads this
      ensures r.Some? ==> r.value in books && r.value.userId == userId
      ensures r.None? <==> forall b :: b in books ==> b.userId != userId
      ensures r.Some? ==> forall b :: b in books && b.userId == userId ==> b.createdAt <= r.value.createdAt
    {
      NewestOwnedBy(books, BookOwner, userId, BookNewestFirst)
    }

    /** createBook: insert a book for `userId` and return it. */
    method CreateBook(userId: int, title: string, description: Option<string>, targetChapters: Option<int>)
      returns (r: Result<Option<Book>>)
      requires Valid()
      modifies this`books, this`clock
      ensures Valid()
      ensures !available ==> r == Err(DatabaseNotAvailable) && unchanged(this)
      ensures available ==>
        var b := Book(|old(books)| + 1, userId, title, description, StoredTarget(targetChapters), old(clock));
        && books == old(books) + [b]
        && r == Ok(Some(b))
        && clock == old(clock) + 1
    {
      if !available {
        return Err(DatabaseNotAvailable);
      }
      ClockAdvances(clock + 1);
      var b := Book(|books| + 1, userId, title, description, StoredTarget(targetChapters), clock);
      ghost var before, now := books, clock;
      books := books + [b];
      clock := clock + 1;
      assert Valid();
      NewestIsInserted(before, b, BookOwner, BookCreated, BookNewestFirst, now);
      r := Ok(NewestBookOf(userId));
    }

    /** updateBook: overwrite the supplied fields of the book with `bookId`,
        then re-read it. */
    method UpdateBook(bookId: int, fields: BookFields) returns (r: Result<Option<Book>>)
      requires Valid()
      modifies this`books
      ensures Valid()
      ensures !available ==> r == Err(DatabaseNotAvailable) && unchanged(this)
      ensures available && 1 <= bookId <= |old(books)| ==>
        && books == old(books)[bookId - 1 := ApplyBookFields(old(books)[bookId - 1], fields)]
        && r == Ok(Some(books[bookId - 1]))
      ensures available && !(1 <= bookId <= |old(books)|) ==> books == old(books) && r == Ok(None)
    {
      if !available {
        return Err(DatabaseNotAvailable);
      }
      var update := (b: Book) => ApplyBookFields(b, fields);
      UpdateDenseId(books, BookId, bookId, update);
      books := UpdateById(books, bookId, BookId, update);
      r := Ok(BookById(bookId));
    }

    // ============================================================ chapters

    /** getChaptersByBook: the book's chapters, ordered by chapter number. */
    function ChaptersByBook(bookId: int): (r: seq<Chapter>)
      reads this
      ensures !available ==> r == []
      ensures forall c :: c in r <==> available && c in chapters && c.bookId == bookId
      ensures SortedBy(r, ChapterNumber)
      ensures forall c :: multiset(r)[c] == if available && c.bookId == bookId then multiset(chapters)[c] else 0
    {
      if !available then [] else OrderedWhere(chapters, (c: Chapter) => c.bookId == bookId, ChapterNumber)
    }

    /** getChapterById */
    function ChapterById(chapterId: int): (r: Option<Chapter>)
      reads this
      ensures r.Some? ==> available && r.value in chapters && r.value.id == chapterId
      ensures r.None? ==> !available || forall c :: c in chapters ==> c.id != chapterId
    {
      if !available then None else FirstWith(chapters, ChapterId, chapterId)
    }

    /** The re-read at the end of createChapter: the book's most recently created chapter. */
    function NewestChapterOf(bookId: int): (r: Option<Chapter>)
      reads this
      ensures r.Some? ==> r.value in chapters && r.value.bookId == bookId
      ensures r.None? <==> forall c :: c in chapters ==> c.bookId != bookId
      ensures r.Some? ==> forall c :: c in chapters && c.bookId == bookId ==> c.createdAt <= r.value.createdAt
    {
      NewestOwnedBy(chapters, ChapterBook, bookId, ChapterNewestFirst)
    }

    /** createChapter: a new chapter starts not started, at progress 0. */
    method CreateChapter(bookId: int, chapterNumber: int, title: string) returns (r: Result<Option<Chapter>>)
      requires Valid()
      modifies this`chapters, this`clock
      ensures Valid()
      ensures !available ==> r == Err(DatabaseNotAvailable) && unchanged(this)
      ensures available ==>
        var c := Chapter(|old(chapters)| + 1, bookId, chapterNumber, title, DefaultChapterStatus, DefaultProgress,
                         None, None, old(clock));
        && chapters == old(chapters) + [c]
        && r == Ok(Some(c))
        && clock == old(clock) + 1
    {
      if !available {
        return Err(DatabaseNotAvailable);
      }
      ClockAdvances(clock + 1);
      var c := Chapter(|chapters| + 1, bookId, chapterNumber, title, NotStarted, 0, None, None, clock);
      ghost var before, now := chapters, clock;
      chapters := chapters + [c];
      clock := clock + 1;
      assert Valid();
      NewestIsInserted(before, c, ChapterBook, ChapterCreated, ChapterNewestFirst, now);
      r := Ok(NewestChapterOf(bookId));
    }

    /** updateChapter: overwrite the supplied fields of the chapter with
        `chapterId`, then re-read it with getChapterById. */
    method UpdateChapter(chapterId: int, patch: ChapterPatch) returns (r: Result<Option<Chapter>>)
      requires Valid()
      modifies this`chapters
      ensures Valid()
      ensures !available ==> r == Err(DatabaseNotAvailable) && unchanged(this)
      ensures available && 1 <= chapterId <= |old(chapters)| ==>
        && chapters == old(chapters)[chapterId - 1 := ApplyChapterPatch(old(chapters)[chapterId - 1], patch)]
        && r == Ok(Some(chapters[chapterId - 1]))
      ensures available && !(1 <= chapterId <= |old(chapters)|) ==> chapters == old(chapters) && r == Ok(None)
    {
      if !available {
        return Err(DatabaseNotAvailable);
      }
      var update := (c: Chapter) => ApplyChapterPatch(c, patch);
      UpdateDenseId(chapters, ChapterId, chapterId, update);
      chapters := UpdateById(chapters, chapterId, ChapterId, update);
      r := Ok(ChapterById(chapterId));
    }

    // ============================================================ sessions

    /** createSession: a session starts now, with no end, no duration and
        the column default of 0 notes. The result is the new row's id. */
    method CreateSession(userId: int, bookId: int, mode: SessionMode, chapterId: Option<int>) returns (r: Result<int>)
      requires Valid()
      modifies this`sessions, this`clock
      ensures Valid()
      ensures !available ==> r == Err(DatabaseNotAvailable) && unchanged(this)
      ensures available ==>
        && sessions == old(sessions) + [Session(|old(sessions)| + 1, userId, bookId, chapterId, mode, old(clock),
                                                None, None, Some(DefaultNotesCount), None, old(clock))]
        && r == Ok(|old(sessions)| + 1)
        && clock == old(clock) + 1
    {
      if !available {
        return Err(DatabaseNotAvailable);
      }
      ClockAdvances(clock + 1);
      r := Ok(|sessions| + 1);
      sessions := sessions + [Session(|sessions| + 1, userId, bookId, chapterId, mode, clock, None, None, Some(0), None, clock)];
      clock := clock + 1;
    }

    /** updateSession: overwrite the supplied fields of the session with `sessionId`. */
    method UpdateSession(sessionId: int, patch: SessionPatch) returns (r: Outcome)
      requires Valid()
      modifies this`sessions
      ensures Valid()
      ensures !available ==> r == Fail(DatabaseNotAvailable) && unchanged(this)
      ensures available ==> r == Pass
      ensures available && 1 <= sessionId <= |old(sessions)| ==>
        sessions == old(sessions)[sessionId - 1 := ApplySessionPatch(old(sessions)[sessionId - 1], patch)]
      ensures available && !(1 <= sessionId <= |old(sessions)|) ==> sessions == old(sessions)
    {
      if !available {
        return Fail(DatabaseNotAvailable);
      }
      var update := (s: Session) => ApplySessionPatch(s, patch);
      UpdateDenseId(sessions, SessionId, sessionId, update);
      sessions := UpdateById(sessions, sessionId, SessionId, update);
      r := Pass;
    }

    /** getSessionsByUser: the user's `limit` most recent sessions, newest first. */
    function SessionsByUser(userId: int, limit: nat): (r: seq<Session>)
      reads this
      ensures !available ==> r == []
      ensures |r| <= limit
      ensures forall s :: s in r ==> s in sessions && s.userId == userId
      ensures SortedBy(r, SessionNewestFirst)
      ensures available ==> forall s :: s in sessions && s.userId == userId && s !in r ==>
                |r| == limit && forall t :: t in r ==> s.createdAt <= t.createdAt
      ensures forall s :: multiset(r)[s] <= if available && s.userId == userId then multiset(sessions)[s] else 0
      ensures available && |r| < limit ==>
                forall s :: multiset(r)[s] == if s.userId == userId then multiset(sessions)[s] else 0
    {
      if !available then []
      else
        var all := OrderedWhere(sessions, (s: Session) => s.userId == userId, SessionNewestFirst);
        TakeSorted(all, SessionNewestFirst, limit);
        TakeCounts(all, limit);
        forall s | s in sessions && s.userId == userId && s !in Take(all, limit)
          ensures forall t :: t in Take(all, limit) ==> SessionNewestFirst(t) <= SessionNewestFirst(s)
        {
          TakeKeepsLeast(all, SessionNewestFirst, limit, s);
        }
        Take(all, limit)
    }

    // ============================================================ atomic notes

    /** createAtomicNote; the result is the new row's id. */
    method CreateAtomicNote(userId: int, bookId: int, content: string, chapterId: Option<int>,
                            sessionId: Option<int>, tags: Option<string>) returns (r: Result<int>)
      requires Valid()
      modifies this`notes, this`clock
      ensures Valid()
      ensures !available ==> r == Err(DatabaseNotAvailable) && unchanged(this)
      ensures available ==>
        && notes == old(notes) + [AtomicNote(|old(notes)| + 1, userId, bookId, sessionId, chapterId, content, tags, old(clock))]
        && r == Ok(|old(notes)| + 1)
        && clock == old(clock) + 1
    {
      if !available {
        return Err(DatabaseNotAvailable);
      }
      ClockAdvances(clock + 1);
      r := Ok(|notes| + 1);
      notes := notes + [AtomicNote(|notes| + 1, userId, bookId, sessionId, chapterId, content, tags, clock)];
      clock := clock + 1;
    }

    /** getNotesByChapter: the notes linked to the chapter, newest first; a
        note with no chapter never matches. */
    function NotesByChapter(chapterId: int): (r: seq<AtomicNote>)
      reads this
      ensures !available ==> r == []
      ensures forall n :: n in r <==> available && n in notes && n.chapterId == Some(chapterId)
      ensures SortedBy(r, NoteNewestFirst)
      ensures forall n :: multiset(r)[n] == if available && n.chapterId == Some(chapterId) then multiset(notes)[n] else 0
    {
      if !available then [] else OrderedWhere(notes, (n: AtomicNote) => n.chapterId == Some(chapterId), NoteNewestFirst)
    }

    // ============================================================ rituals

    /** createRitual: a ritual starts not completed. The result is the new row's id. */
    method CreateRitual(userId: int, ritualType: RitualType, date: int) returns (r: Result<int>)
      requires Valid()
      modifies this`rituals, this`clock
      ensures Valid()
      ensures !available ==> r == Err(DatabaseNotAvailable) && unchanged(this)
      ensures available ==>
        && rituals == old(rituals) + [Ritual(|old(rituals)| + 1, userId, ritualType, date, DefaultRitualCompleted,
                                             None, None, old(clock))]
        && r == Ok(|old(rituals)| + 1)
        && clock == old(clock) + 1
    {
      if !available {
        return Err(DatabaseNotAvailable);
      }
      ClockAdvances(clock + 1);
      r := Ok(|rituals| + 1);
      rituals := rituals + [Ritual(|rituals| + 1, userId, ritualType, date, 0, None, None, clock)];
      clock := clock + 1;
    }

    /** updateRitual: overwrite the supplied fields of the ritual with `ritualId`. */
    method UpdateRitual(ritualId: int, patch: RitualPatch) returns (r: Outcome)
      requires Valid()
      modifies this`rituals
      ensures Valid()
      ensures !available ==> r == Fail(DatabaseNotAvailable) && unchanged(this)
      ensures available ==> r == Pass
      ensures available && 1 <= ritualId <= |old(rituals)| ==>
        rituals == old(rituals)[ritualId - 1 := ApplyRitualPatch(old(rituals)[ritualId - 1], patch)]
      ensures available && !(1 <= ritualId <= |old(rituals)|) ==> rituals == old(rituals)
    {
      if !available {
        return Fail(DatabaseNotAvailable);
      }
      var update := (t: Ritual) => ApplyRitualPatch(t, patch);
      UpdateDenseId(rituals, RitualId, ritualId, update);
      rituals := UpdateById(rituals, ritualId, RitualId, update);
      r := Pass;
    }

    /** getRitualsByUser: the user's rituals, latest date first. */
    function RitualsByUser(userId: int): (r: seq<Ritual>)
      reads this
      ensures !available ==> r == []
      ensures forall t :: t in r <==> available && t in rituals && t.userId == userId
      ensures SortedBy(r, RitualLatestDateFirst)
      ensures forall t :: multiset(r)[t] == if available && t.userId == userId then multiset(rituals)[t] else 0
    {
      if !available then [] else OrderedWhere(rituals, (t: Ritual) => t.userId == userId, RitualLatestDateFirst)
    }

    // ============================================================ milestones

    /** createMilestone: dated now, with no celebration notes. The result is
        the new row's id. */
    method CreateMilestone(userId: int, bookId: int, description: string, milestoneType: MilestoneType)
      returns (r: Result<int>)
      requires Valid()
      modifies this`milestones, this`clock
      ensures Valid()
      ensures !available ==> r == Err(DatabaseNotAvailable) && unchanged(this)
      ensures available ==>
        && milestones == old(milestones) + [Milestone(|old(milestones)| + 1, userId, bookId, description, milestoneType,
                                                      old(clock), None, old(clock))]
        && r == Ok(|old(milestones)| + 1)
        && clock == old(clock) + 1
    {
      if !available {
        return Err(DatabaseNotAvailable);
      }
      ClockAdvances(clock + 1);
      r := Ok(|milestones| + 1);
      milestones := milestones + [Milestone(|milestones| + 1, userId, bookId, description, milestoneType, clock, None, clock)];
      clock := clock + 1;
    }

    /** getMilestonesByBook: the book's milestones, latest date first. */
    function MilestonesByBook(bookId: int): (r: seq<Milestone>)
      reads this
      ensures !available ==> r == []
      ensures forall m :: m in r <==> available && m in milestones && m.bookId == bookId
      ensures SortedBy(r, MilestoneLatestDateFirst)
      ensures forall m :: multiset(r)[m] == if available && m.bookId == bookId then multiset(milestones)[m] else 0
    {
      if !available then [] else OrderedWhere(milestones, (m: Milestone) => m.bookId == bookId, MilestoneLatestDateFirst)
    }

    // ============================================================ settings

    /** getUserSettings: the user's settings row, if one was ever written. */
    function SettingsOf(userId: int): (r: Option<UserSettings>)
      reads this
      ensures r.Some? ==> available && r.value in settings && r.value.userId == userId
      ensures r.None? ==> !available || forall s :: s in settings ==> s.userId != userId
    {
      if !available then None else FirstWith(settings, SettingsOwner, userId)
    }

    /** createOrUpdateUserSettings: update the user's settings row in place,
        or insert one built from the defaults on the first write. */
    method CreateOrUpdateUserSettings(userId: int, patch: SettingsPatch) returns (r: Outcome)
      requires Valid()
      modifies this`settings, this`clock
      ensures Valid()
      ensures !available ==> r == Fail(DatabaseNotAvailable) && unchanged(this)
      ensures available ==> r == Pass
      ensures available && old(SettingsOf(userId)).Some? ==>
        && |settings| == |old(settings)| && clock == old(clock)
        && forall i :: 0 <= i < |settings| ==>
             settings[i] == if old(settings)[i].userId == userId then ApplySettingsPatch(old(settings)[i], patch) else old(settings)[i]
      ensures available && old(SettingsOf(userId)).None? ==>
        && settings == old(settings) + [FirstSettings(|old(settings)| + 1, userId, old(clock), patch)]
        && clock == old(clock) + 1
    {
      if !available {
        return Fail(DatabaseNotAvailable);
      }
      ClockAdvances(clock + 1);
      var existing := SettingsOf(userId);
      if existing.Some? {
        settings := UpdateWhere(settings, (s: UserSettings) => s.userId == userId,
                                (s: UserSettings) => ApplySettingsPatch(s, patch));
      } else {
        var s := FirstSettings(|settings| + 1, userId, clock, patch);
        forall i | 0 <= i < |settings| ensures settings[i].userId != userId {
          assert settings[i] in settings;
        }
        settings := settings + [s];
        clock := clock + 1;
      }
      r := Pass;
    }
  }
}
