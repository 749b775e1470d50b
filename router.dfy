/** The request handlers of server/routers.ts that sit on the store. Every
    handler is a protected procedure: `caller` is the id of the signed-in
    user, and with nobody signed in the call is refused before any store
    access. The handlers never check that a book, chapter, session or
    ritual id in the input belongs to the caller; neither does the model. */
module Router {
  import opened Results
  import opened Schema
  import opened Query
  import opened Store

  // ------------------------------------------------------------- constants

  /** The title book.getOrCreate falls back to. */
  const FallbackTitle: string := "My Book"

  /** The book book.get creates for a user who has none. */
  const AutoBookTitle: string := "Meu Livro"
  const AutoBookDescription: string := "Livro criado automaticamente"
  const AutoBookTarget: int := 20

  /** getSessionsByUser's default `limit`, which sessions.list relies on. */
  const SessionListLimit: nat := 20

  // ------------------------------------------------------------- inputs

  /** `input.title || "My Book"`: an omitted or empty title falls back. */
  function TitleOrFallback(title: Option<string>): (r: string)
    ensures r != ""
    ensures title.Some? && title.value != "" ==> r == title.value
    ensures title.None? || title.value == "" ==> r == FallbackTitle
  {
    if title.None? || title.value == "" then FallbackTitle else title.value
  }

  /** The book book.get creates on the first call. */
  function AutoBook(id: int, userId: int, createdAt: Timestamp): Book {
    Book(id, userId, AutoBookTitle, Some(AutoBookDescription), StoredTarget(Some(AutoBookTarget)), createdAt)
  }

  /** The input of chapters.update: the chapter's id and the fields to change. */
  datatype ChapterUpdateInput = ChapterUpdateInput(
    chapterId: int,
    status: Option<ChapterStatus>,
    progress: Option<int>,
    notes: Option<string>,
    nextSteps: Option<string>)

  function WithChapterId(chapterId: int, p: ChapterPatch): ChapterUpdateInput {
    ChapterUpdateInput(chapterId, p.status, p.progress, p.notes, p.nextSteps)
  }

  /** `const { chapterId, ...updates } = input`: everything but the id is
      forwarded, so putting the id back gives the input again. */
  function ChapterUpdates(input: ChapterUpdateInput): (p: ChapterPatch)
    ensures WithChapterId(input.chapterId, p) == input
  {
    ChapterPatch(input.status, input.progress, input.notes, input.nextSteps)
  }

  /** The input of sessions.update. */
  datatype SessionUpdateInput = SessionUpdateInput(
    sessionId: int,
    endTime: Option<Timestamp>,
    duration: Option<int>,
    notesCount: Option<int>,
    sessionNotes: Option<string>)

  function WithSessionId(sessionId: int, p: SessionPatch): SessionUpdateInput {
    SessionUpdateInput(sessionId, p.endTime, p.duration, p.notesCount, p.sessionNotes)
  }

  /** `const { sessionId, ...updates } = input` */
  function SessionUpdates(input: SessionUpdateInput): (p: SessionPatch)
    ensures WithSessionId(input.sessionId, p) == input
  {
    SessionPatch(input.endTime, input.duration, input.notesCount, input.sessionNotes)
  }

  /** The input of rituals.update. */
  datatype RitualUpdateInput = RitualUpdateInput(
    ritualId: int,
    completed: Option<int>,
    checklistItems: Option<string>,
    notes: Option<string>)

  function WithRitualId(ritualId: int, p: RitualPatch): RitualUpdateInput {
    RitualUpdateInput(ritualId, p.completed, p.checklistItems, p.notes)
  }

  /** `const { ritualId, ...updates } = input` */
  function RitualUpdates(input: RitualUpdateInput): (p: RitualPatch)
    ensures WithRitualId(input.ritualId, p) == input
  {
    RitualPatch(input.completed, input.checklistItems, input.notes)
  }

  /** The input of milestones.create; `celebrationNotes` is accepted and
      then dropped. */
  datatype MilestoneInput = MilestoneInput(
    bookId: int,
    description: string,
    milestoneType: MilestoneType,
    celebrationNotes: Option<string>)

  // ============================================================ book

  /** book.getOrCreate: the caller's existing book, untouched and whatever
      the input says; otherwise a new book built from the input. */
  method BookGetOrCreate(store: Store, caller: Option<int>, input: BookFields) returns (r: Result<Option<Book>>)
    requires store.Valid()
    modifies store`books, store`clock
    ensures store.Valid()
    ensures caller.None? ==> r == Err(Unauthorized) && unchanged(store)
    ensures caller.Some? && old(store.UserBook(caller.value)).Some? ==>
      r == Ok(old(store.UserBook(caller.value))) && unchanged(store)
    ensures caller.Some? && !store.available ==> r == Err(DatabaseNotAvailable) && unchanged(store)
    ensures caller.Some? && store.available && old(store.UserBook(caller.value)).None? ==>
      var b := Book(|old(store.books)| + 1, caller.value, TitleOrFallback(input.title), input.description,
                    StoredTarget(input.targetChapters), old(store.clock));
      && store.books == old(store.books) + [b]
      && r == Ok(Some(b))
      && store.clock == old(store.clock) + 1
    ensures caller.Some? && r.Ok? ==> r.value.Some? && r.value == store.UserBook(caller.value)
  {
    if caller.None? {
      return Err(Unauthorized);
    }
    var existing := store.UserBook(caller.value);
    if existing.Some? {
      return Ok(existing);
    }
    ghost var books0 := store.books;
    r := store.CreateBook(caller.value, TitleOrFallback(input.title), input.description, input.targetChapters);
    if store.available {
      FirstWithAfterInsert(books0, r.value.value, BookOwner);
    }
  }

  /** book.get: the caller's book, created with fixed defaults on the first
      call and re-read afterwards. */
  method BookGet(store: Store, caller: Option<int>) returns (r: Result<Option<Book>>)
    requires store.Valid()
    modifies store`books, store`clock
    ensures store.Valid()
    ensures caller.None? ==> r == Err(Unauthorized) && unchanged(store)
    ensures caller.Some? && old(store.UserBook(caller.value)).Some? ==>
      r == Ok(old(store.UserBook(caller.value))) && unchanged(store)
    ensures caller.Some? && !store.available ==> r == Err(DatabaseNotAvailable) && unchanged(store)
    ensures caller.Some? && store.available && old(store.UserBook(caller.value)).None? ==>
      var b := AutoBook(|old(store.books)| + 1, caller.value, old(store.clock));
      && store.books == old(store.books) + [b]
      && r == Ok(Some(b))
      && store.clock == old(store.clock) + 1
    ensures caller.Some? && r.Ok? ==> r.value.Some? && r.value == store.UserBook(caller.value)
  {
    if caller.None? {
      return Err(Unauthorized);
    }
    var book := store.UserBook(caller.value);
    if book.None? {
      ghost var books0 := store.books;
      var created := store.CreateBook(caller.value, AutoBookTitle, Some(AutoBookDescription), Some(AutoBookTarget));
      if created.Err? {
        return Err(created.error);
      }
      FirstWithAfterInsert(books0, created.value.value, BookOwner);
      book := store.UserBook(caller.value);
    }
    r := Ok(book);
  }

  /** book.update: "Book not found" unless the caller has a book; otherwise
      the supplied fields overwrite that book and the updated row is
      returned. */
  method BookUpdate(store: Store, caller: Option<int>, input: BookFields) returns (r: Result<Option<Book>>)
    requires store.Valid()
    modifies store`books
    ensures store.Valid()
    ensures caller.None? ==> r == Err(Unauthorized) && unchanged(store)
    ensures caller.Some? && old(store.UserBook(caller.value)).None? ==> r == Err(BookNotFound) && unchanged(store)
    ensures caller.Some? && old(store.UserBook(caller.value)).Some? ==>
      var b := old(store.UserBook(caller.value)).value;
      && 1 <= b.id <= |old(store.books)| && old(store.books)[b.id - 1] == b
      && store.books == old(store.books)[b.id - 1 := ApplyBookFields(b, input)]
      && r == Ok(Some(ApplyBookFields(b, input)))
  {
    if caller.None? {
      return Err(Unauthorized);
    }
    var book := store.UserBook(caller.value);
    if book.None? {
      return Err(BookNotFound);
    }
    DenseRowAt(store.books, BookId, book.value);
    r := store.UpdateBook(book.value.id, input);
  }

  // ============================================================ chapters

  /** chapters.list: the book's chapters in chapter-number order. */
  function ChaptersList(store: Store, caller: Option<int>, bookId: int): (r: Result<seq<Chapter>>)
    reads store
    ensures caller.None? <==> r == Err(Unauthorized)
    ensures r.Ok? ==> forall c :: c in r.value <==> store.available && c in store.chapters && c.bookId == bookId
    ensures r.Ok? ==> SortedBy(r.value, ChapterNumber)
    ensures r.Ok? ==>
      forall c :: multiset(r.value)[c] ==
        if store.available && c.bookId == bookId then multiset(store.chapters)[c] else 0
  {
    if caller.None? then Err(Unauthorized) else Ok(store.ChaptersByBook(bookId))
  }

  /** chapters.create */
  method ChaptersCreate(store: Store, caller: Option<int>, bookId: int, chapterNumber: int, title: string)
    returns (r: Result<Option<Chapter>>)
    requires store.Valid()
    modifies store`chapters, store`clock
    ensures store.Valid()
    ensures caller.None? ==> r == Err(Unauthorized) && unchanged(store)
    ensures caller.Some? && !store.available ==> r == Err(DatabaseNotAvailable) && unchanged(store)
    ensures caller.Some? && store.available ==>
      var c := Chapter(|old(store.chapters)| + 1, bookId, chapterNumber, title, DefaultChapterStatus, DefaultProgress,
                       None, None, old(store.clock));
      && store.chapters == old(store.chapters) + [c]
      && r == Ok(Some(c))
      && store.clock == old(store.clock) + 1
  {
    if caller.None? {
      return Err(Unauthorized);
    }
    r := store.CreateChapter(bookId, chapterNumber, title);
  }

  /** chapters.update: the fields other than the id overwrite the chapter
      with that id, which is then re-read. */
  method ChaptersUpdate(store: Store, caller: Option<int>, input: ChapterUpdateInput) returns (r: Result<Option<Chapter>>)
    requires store.Valid()
    modifies store`chapters
    ensures store.Valid()
    ensures caller.None? ==> r == Err(Unauthorized) && unchanged(store)
    ensures caller.Some? && !store.available ==> r == Err(DatabaseNotAvailable) && unchanged(store)
    ensures caller.Some? && store.available && 1 <= input.chapterId <= |old(store.chapters)| ==>
      var c := ApplyChapterPatch(old(store.chapters)[input.chapterId - 1], ChapterUpdates(input));
      && store.chapters == old(store.chapters)[input.chapterId - 1 := c]
      && r == Ok(Some(c))
    ensures caller.Some? && store.available && !(1 <= input.chapterId <= |old(store.chapters)|) ==>
      store.chapters == old(store.chapters) && r == Ok(None)
  {
    if caller.None? {
      return Err(Unauthorized);
    }
    r := store.UpdateChapter(input.chapterId, ChapterUpdates(input));
  }

  /** chapters.get */
  function ChaptersGet(store: Store, caller: Option<int>, chapterId: int): (r: Result<Option<Chapter>>)
    reads store
    ensures caller.None? <==> r == Err(Unauthorized)
    ensures r.Ok? && r.value.Some? ==> store.available && r.value.value in store.chapters && r.value.value.id == chapterId
    ensures r.Ok? && r.value.None? ==> !store.available || forall c :: c in store.chapters ==> c.id != chapterId
  {
    if caller.None? then Err(Unauthorized) else Ok(store.ChapterById(chapterId))
  }

  // ============================================================ sessions

  /** sessions.list: the caller's 20 most recent sessions, newest first. */
  function SessionsList(store: Store, caller: Option<int>): (r: Result<seq<Session>>)
    reads store
    ensures caller.None? <==> r == Err(Unauthorized)
    ensures r.Ok? ==> |r.value| <= SessionListLimit && SortedBy(r.value, SessionNewestFirst)
    ensures r.Ok? ==> forall s :: s in r.value ==> s in store.sessions && s.userId == caller.value
    ensures r.Ok? && store.available ==>
      forall s :: s in store.sessions && s.userId == caller.value && s !in r.value ==>
        |r.value| == SessionListLimit && forall t :: t in r.value ==> s.createdAt <= t.createdAt
    ensures r.Ok? ==>
      forall s :: multiset(r.value)[s] <=
        if store.available && s.userId == caller.value then multiset(store.sessions)[s] else 0
    ensures r.Ok? && store.available && |r.value| < SessionListLimit ==>
      forall s :: multiset(r.value)[s] ==
        if s.userId == caller.value then multiset(store.sessions)[s] else 0
  {
    if caller.None? then Err(Unauthorized) else Ok(store.SessionsByUser(caller.value, SessionListLimit))
  }

  /** sessions.create: the session belongs to the caller, whatever book or
      chapter the input names. */
  method SessionsCreate(store: Store, caller: Option<int>, bookId: int, mode: SessionMode, chapterId: Option<int>)
    returns (r: Result<int>)
    requires store.Valid()
    modifies store`sessions, store`clock
    ensures store.Valid()
    ensures caller.None? ==> r == Err(Unauthorized) && unchanged(store)
    ensures caller.Some? && !store.available ==> r == Err(DatabaseNotAvailable) && unchanged(store)
    ensures caller.Some? && store.available ==>
      && store.sessions == old(store.sessions) + [Session(|old(store.sessions)| + 1, caller.value, bookId, chapterId, mode,
                                                         old(store.clock), None, None, Some(DefaultNotesCount), None,
                                                         old(store.clock))]
      && r == Ok(|store.sessions|)
      && store.clock == old(store.clock) + 1
  {
    if caller.None? {
      return Err(Unauthorized);
    }
    r := store.CreateSession(caller.value, bookId, mode, chapterId);
  }

  /** sessions.update */
  method SessionsUpdate(store: Store, caller: Option<int>, input: SessionUpdateInput) returns (r: Outcome)
    requires store.Valid()
    modifies store`sessions
    ensures store.Valid()
    ensures caller.None? ==> r == Fail(Unauthorized) && unchanged(store)
    ensures caller.Some? && !store.available ==> r == Fail(DatabaseNotAvailable) && unchanged(store)
    ensures caller.Some? && store.available ==> r == Pass
    ensures caller.Some? && store.available && 1 <= input.sessionId <= |old(store.sessions)| ==>
      store.sessions == old(store.sessions)[input.sessionId - 1 :=
                          ApplySessionPatch(old(store.sessions)[input.sessionId - 1], SessionUpdates(input))]
    ensures caller.Some? && store.available && !(1 <= input.sessionId <= |old(store.sessions)|) ==>
      store.sessions == old(store.sessions)
  {
    if caller.None? {
      return Fail(Unauthorized);
    }
    r := store.UpdateSession(input.sessionId, SessionUpdates(input));
  }

  // ============================================================ notes

  /** notes.create: the note belongs to the caller. */
  method NotesCreate(store: Store, caller: Option<int>, bookId: int, content: string, chapterId: Option<int>,
                     sessionId: Option<int>, tags: Option<string>) returns (r: Result<int>)
    requires store.Valid()
    modifies store`notes, store`clock
    ensures store.Valid()
    ensures caller.None? ==> r == Err(Unauthorized) && unchanged(store)
    ensures caller.Some? && !store.available ==> r == Err(DatabaseNotAvailable) && unchanged(store)
    ensures caller.Some? && store.available ==>
      && store.notes == old(store.notes) + [AtomicNote(|old(store.notes)| + 1, caller.value, bookId, sessionId, chapterId,
                                                       content, tags, old(store.clock))]
      && r == Ok(|store.notes|)
      && store.clock == old(store.clock) + 1
  {
    if caller.None? {
      return Err(Unauthorized);
    }
    r := store.CreateAtomicNote(caller.value, bookId, content, chapterId, sessionId, tags);
  }

  /** notes.getByChapter */
  function NotesGetByChapter(store: Store, caller: Option<int>, chapterId: int): (r: Result<seq<AtomicNote>>)
    reads store
    ensures caller.None? <==> r == Err(Unauthorized)
    ensures r.Ok? ==> forall n :: n in r.value <==> store.available && n in store.notes && n.chapterId == Some(chapterId)
    ensures r.Ok? ==> SortedBy(r.value, NoteNewestFirst)
    ensures r.Ok? ==>
      forall n :: multiset(r.value)[n] ==
        if store.available && n.chapterId == Some(chapterId) then multiset(store.notes)[n] else 0
  {
    if caller.None? then Err(Unauthorized) else Ok(store.NotesByChapter(chapterId))
  }

  // ============================================================ rituals

  /** rituals.list: the caller's rituals, latest date first. */
  function RitualsList(store: Store, caller: Option<int>): (r: Result<seq<Ritual>>)
    reads store
    ensures caller.None? <==> r == Err(Unauthorized)
    ensures r.Ok? ==> forall t :: t in r.value <==> store.available && t in store.rituals && t.userId == caller.value
    ensures r.Ok? ==> SortedBy(r.value, RitualLatestDateFirst)
    ensures r.Ok? ==>
      forall t :: multiset(r.value)[t] ==
        if store.available && t.userId == caller.value then multiset(store.rituals)[t] else 0
  {
    if caller.None? then Err(Unauthorized) else Ok(store.RitualsByUser(caller.value))
  }

  /** rituals.create: the ritual belongs to the caller. */
  method RitualsCreate(store: Store, caller: Option<int>, ritualType: RitualType, date: int) returns (r: Result<int>)
    requires store.Valid()
    modifies store`rituals, store`clock
    ensures store.Valid()
    ensures caller.None? ==> r == Err(Unauthorized) && unchanged(store)
    ensures caller.Some? && !store.available ==> r == Err(DatabaseNotAvailable) && unchanged(store)
    ensures caller.Some? && store.available ==>
      && store.rituals == old(store.rituals) + [Ritual(|old(store.rituals)| + 1, caller.value, ritualType, date,
                                                       DefaultRitualCompleted, None, None, old(store.clock))]
      && r == Ok(|store.rituals|)
      && store.clock == old(store.clock) + 1
  {
    if caller.None? {
      return Err(Unauthorized);
    }
    r := store.CreateRitual(caller.value, ritualType, date);
  }

  /** rituals.update */
  method RitualsUpdate(store: Store, caller: Option<int>, input: RitualUpdateInput) returns (r: Outcome)
    requires store.Valid()
    modifies store`rituals
    ensures store.Valid()
    ensures caller.None? ==> r == Fail(Unauthorized) && unchanged(store)
    ensures caller.Some? && !store.available ==> r == Fail(DatabaseNotAvailable) && unchanged(store)
    ensures caller.Some? && store.available ==> r == Pass
    ensures caller.Some? && store.available && 1 <= input.ritualId <= |old(store.rituals)| ==>
      store.rituals == old(store.rituals)[input.ritualId - 1 :=
                         ApplyRitualPatch(old(store.rituals)[input.ritualId - 1], RitualUpdates(input))]
    ensures caller.Some? && store.available && !(1 <= input.ritualId <= |old(store.rituals)|) ==>
      store.rituals == old(store.rituals)
  {
    if caller.None? {
      return Fail(Unauthorized);
    }
    r := store.UpdateRitual(input.ritualId, RitualUpdates(input));
  }

  // ============================================================ milestones

  /** milestones.list */
  function MilestonesList(store: Store, caller: Option<int>, bookId: int): (r: Result<seq<Milestone>>)
    reads store
    ensures caller.None? <==> r == Err(Unauthorized)
    ensures r.Ok? ==> forall m :: m in r.value <==> store.available && m in store.milestones && m.bookId == bookId
    ensures r.Ok? ==> SortedBy(r.value, MilestoneLatestDateFirst)
    ensures r.Ok? ==>
      forall m :: multiset(r.value)[m] ==
        if store.available && m.bookId == bookId then multiset(store.milestones)[m] else 0
  {
    if caller.None? then Err(Unauthorized) else Ok(store.MilestonesByBook(bookId))
  }

  /** milestones.create: the milestone belongs to the caller, and the
      celebration notes in the input are not stored. */
  method MilestonesCreate(store: Store, caller: Option<int>, input: MilestoneInput) returns (r: Result<int>)
    requires store.Valid()
    modifies store`milestones, store`clock
    ensures store.Valid()
    ensures caller.None? ==> r == Err(Unauthorized) && unchanged(store)
    ensures caller.Some? && !store.available ==> r == Err(DatabaseNotAvailable) && unchanged(store)
    ensures caller.Some? && store.available ==>
      && store.milestones == old(store.milestones) + [Milestone(|old(store.milestones)| + 1, caller.value, input.bookId,
                                                                 input.description, input.milestoneType,
                                                                 old(store.clock), None, old(store.clock))]
      && r == Ok(|store.milestones|)
      && store.clock == old(store.clock) + 1
  {
    if caller.None? {
      return Err(Unauthorized);
    }
    r := store.CreateMilestone(caller.value, input.bookId, input.description, input.milestoneType);
  }

  // ============================================================ settings

  /** settings.get: the caller's settings row, if any. */
  function SettingsGet(store: Store, caller: Option<int>): (r: Result<Option<UserSettings>>)
    reads store
    ensures caller.None? <==> r == Err(Unauthorized)
    ensures r.Ok? && r.value.Some? ==> store.available && r.value.value in store.settings && r.value.value.userId == caller.value
    ensures r.Ok? && r.value.None? ==> !store.available || forall s :: s in store.settings ==> s.userId != caller.value
  {
    if caller.None? then Err(Unauthorized) else Ok(store.SettingsOf(caller.value))
  }

  /** settings.update: patches the caller's settings row in place, or
      inserts the defaults overridden by the input on the first write; no
      other user's row changes. */
  method SettingsUpdate(store: Store, caller: Option<int>, input: SettingsPatch) returns (r: Outcome)
    requires store.Valid()
    modifies store`settings, store`clock
    ensures store.Valid()
    ensures caller.None? ==> r == Fail(Unauthorized) && unchanged(store)
    ensures caller.Some? && !store.available ==> r == Fail(DatabaseNotAvailable) && unchanged(store)
    ensures caller.Some? && store.available ==>
      && r == Pass
      && store.SettingsOf(caller.value).Some?
      && forall s :: s in old(store.settings) && s.userId != caller.value ==> s in store.settings
    ensures caller.Some? && store.available && old(store.SettingsOf(caller.value)).Some? ==>
      && |store.settings| == |old(store.settings)| && store.clock == old(store.clock)
      && forall i :: 0 <= i < |store.settings| ==>
           store.settings[i] == if old(store.settings)[i].userId == caller.value
                                then ApplySettingsPatch(old(store.settings)[i], input)
                                else old(store.settings)[i]
    ensures caller.Some? && store.available && old(store.SettingsOf(caller.value)).None? ==>
      && store.settings == old(store.settings) + [FirstSettings(|old(store.settings)| + 1, caller.value, old(store.clock), input)]
      && store.clock == old(store.clock) + 1
  {
    if caller.None? {
      return Fail(Unauthorized);
    }
    r := store.CreateOrUpdateUserSettings(caller.value, input);
  }
}
