/** The eight tables of the book tracker: their row shapes, the enumerations
    their columns range over, the column defaults, and the partial updates
    ("patches") the store applies to rows.

    Timestamps are instants of the store's monotonic clock (a `nat`); text is
    `string`; a nullable column is an `Option`. */
module Schema {
  import opened Results

  type Timestamp = nat

  // ---------------------------------------------------------------- enums

  datatype Role = UserRole | AdminRole

  datatype ChapterStatus = NotStarted | Writing | Reviewing | Completed

  datatype SessionMode = Maintenance | Construction

  datatype RitualType = EntryMaintenance | ExitMaintenance | EntryConstruction | ExitConstruction

  datatype MilestoneType = ChapterCompleted | MilestoneWords | ConsistencyStreak | Custom

  // ---------------------------------------------------------------- rows

  datatype User = User(
    id: int,
    openId: string,                // unique across users
    name: Option<string>,
    email: Option<string>,
    loginMethod: Option<string>,
    role: Role,
    lastSignedIn: Timestamp,
    createdAt: Timestamp)

  datatype Book = Book(
    id: int,
    userId: int,
    title: string,
    description: Option<string>,
    targetChapters: int,
    createdAt: Timestamp)

  datatype Chapter = Chapter(
    id: int,
    bookId: int,
    chapterNumber: int,
    title: string,
    status: ChapterStatus,
    progress: int,                 // meant as 0-100, never checked
    notes: Option<string>,
    nextSteps: Option<string>,
    createdAt: Timestamp)

  datatype Session = Session(
    id: int,
    userId: int,
    bookId: int,
    chapterId: Option<int>,
    mode: SessionMode,
    startTime: Timestamp,
    endTime: Option<Timestamp>,
    duration: Option<int>,         // minutes
    notesCount: Option<int>,
    sessionNotes: Option<string>,
    createdAt: Timestamp)

  datatype AtomicNote = AtomicNote(
    id: int,
    userId: int,
    bookId: int,
    sessionId: Option<int>,
    chapterId: Option<int>,
    content: string,
    tags: Option<string>,          // comma-separated, free text
    createdAt: Timestamp)

  datatype Ritual = Ritual(
    id: int,
    userId: int,
    ritualType: RitualType,
    date: int,
    completed: int,                // meant as 0 or 1, never checked
    checklistItems: Option<string>,
    notes: Option<string>,
    createdAt: Timestamp)

  datatype Milestone = Milestone(
    id: int,
    userId: int,
    bookId: int,
    description: string,
    milestoneType: MilestoneType,
    date: Timestamp,
    celebrationNotes: Option<string>,
    createdAt: Timestamp)

  datatype UserSettings = UserSettings(
    id: int,
    userId: int,                   // unique across settings rows
    notificationsEnabled: int,
    maintenanceReminderTime: Option<string>,
    constructionReminderTime: Option<string>,
    emailNotifications: int,
    createdAt: Timestamp)

  // ---------------------------------------------------------------- defaults

  const DefaultRole: Role := UserRole
  const DefaultTargetChapters: int := 20
  const DefaultChapterStatus: ChapterStatus := NotStarted
  const DefaultProgress: int := 0
  const DefaultNotesCount: int := 0
  const DefaultRitualCompleted: int := 0
  const DefaultNotificationsEnabled: int := 1
  const DefaultEmailNotifications: int := 1
  const DefaultMaintenanceReminderTime: string := "19:00"
  const DefaultConstructionReminderTime: string := "06:45"

  /** The longest text the reminder-time columns hold. */
  const ReminderTimeWidth: nat := 5

  /** An `HH:MM` clock reading. */
  predicate IsClockTime(t: string) {
    && |t| == 5 && t[2] == ':'
    && '0' <= t[0] <= '2' && '0' <= t[1] <= '9'
    && '0' <= t[3] <= '5' && '0' <= t[4] <= '9'
  }

  /** The two reminder defaults are clock readings that fit their columns. */
  lemma ReminderDefaultsFit()
    ensures IsClockTime(DefaultMaintenanceReminderTime) && |DefaultMaintenanceReminderTime| <= ReminderTimeWidth
    ensures IsClockTime(DefaultConstructionReminderTime) && |DefaultConstructionReminderTime| <= ReminderTimeWidth
  {
  }

  // ---------------------------------------------------------------- patches

  /** The value a column takes under a partial update: the supplied value, or
      the one already there. */
  function Overwrite<T>(current: T, supplied: Option<T>): T {
    supplied.GetOr(current)
  }

  /** Two partial updates applied one after the other: the later one wins on
      every field it supplies. */
  function Later<T>(first: Option<T>, second: Option<T>): Option<T> {
    if second.Some? then second else first
  }

  /** The optional book fields that book.getOrCreate and book.update accept. */
  datatype BookFields = BookFields(
    title: Option<string>,
    description: Option<string>,
    targetChapters: Option<int>)

  const NoBookFields := BookFields(None, None, None)

  function ApplyBookFields(b: Book, p: BookFields): (r: Book)
    ensures r.id == b.id && r.userId == b.userId && r.createdAt == b.createdAt
    ensures p.title.None? ==> r.title == b.title
    ensures p.title.Some? ==> r.title == p.title.value
    ensures p.description.None? ==> r.description == b.description
    ensures p.description.Some? ==> r.description == p.description
    ensures p.targetChapters.None? ==> r.targetChapters == b.targetChapters
    ensures p.targetChapters.Some? ==> r.targetChapters == p.targetChapters.value
  {
    b.(title := Overwrite(b.title, p.title),
       description := if p.description.Some? then p.description else b.description,
       targetChapters := Overwrite(b.targetChapters, p.targetChapters))
  }

  function MergeBookFields(p: BookFields, q: BookFields): BookFields {
    BookFields(Later(p.title, q.title), Later(p.description, q.description),
               Later(p.targetChapters, q.targetChapters))
  }

  /** The fields of a chapter that chapters.update may change. */
  datatype ChapterPatch = ChapterPatch(
    status: Option<ChapterStatus>,
    progress: Option<int>,
    notes: Option<string>,
    nextSteps: Option<string>)

  const NoChapterChange := ChapterPatch(None, None, None, None)

  function ApplyChapterPatch(c: Chapter, p: ChapterPatch): (r: Chapter)
    ensures r.id == c.id && r.bookId == c.bookId && r.chapterNumber == c.chapterNumber
    ensures r.title == c.title && r.createdAt == c.createdAt
    ensures r.status == Overwrite(c.status, p.status)
    ensures r.progress == Overwrite(c.progress, p.progress)
    ensures p.notes.None? ==> r.notes == c.notes
    ensures p.notes.Some? ==> r.notes == p.notes
    ensures p.nextSteps.None? ==> r.nextSteps == c.nextSteps
    ensures p.nextSteps.Some? ==> r.nextSteps == p.nextSteps
  {
    c.(status := Overwrite(c.status, p.status),
       progress := Overwrite(c.progress, p.progress),
       notes := if p.notes.Some? then p.notes else c.notes,
       nextSteps := if p.nextSteps.Some? then p.nextSteps else c.nextSteps)
  }

  function MergeChapterPatches(p: ChapterPatch, q: ChapterPatch): ChapterPatch {
    ChapterPatch(Later(p.status, q.status), Later(p.progress, q.progress),
                 Later(p.notes, q.notes), Later(p.nextSteps, q.nextSteps))
  }

  /** The fields of a session that sessions.update may change. */
  datatype SessionPatch = SessionPatch(
    endTime: Option<Timestamp>,
    duration: Option<int>,
    notesCount: Option<int>,
    sessionNotes: Option<string>)

  function ApplySessionPatch(s: Session, p: SessionPatch): (r: Session)
    ensures r.id == s.id && r.userId == s.userId && r.bookId == s.bookId && r.chapterId == s.chapterId
    ensures r.mode == s.mode && r.startTime == s.startTime && r.createdAt == s.createdAt
    ensures p.endTime.None? ==> r.endTime == s.endTime
    ensures p.endTime.Some? ==> r.endTime == p.endTime
    ensures p.duration.None? ==> r.duration == s.duration
    ensures p.duration.Some? ==> r.duration == p.duration
    ensures p.notesCount.None? ==> r.notesCount == s.notesCount
    ensures p.notesCount.Some? ==> r.notesCount == p.notesCount
    ensures p.sessionNotes.None? ==> r.sessionNotes == s.sessionNotes
    ensures p.sessionNotes.Some? ==> r.sessionNotes == p.sessionNotes
  {
    s.(endTime := if p.endTime.Some? then p.endTime else s.endTime,
       duration := if p.duration.Some? then p.duration else s.duration,
       notesCount := if p.notesCount.Some? then p.notesCount else s.notesCount,
       sessionNotes := if p.sessionNotes.Some? then p.sessionNotes else s.sessionNotes)
  }

  /** The fields of a ritual that rituals.update may change. */
  datatype RitualPatch = RitualPatch(
    completed: Option<int>,
    checklistItems: Option<string>,
    notes: Option<string>)

  function ApplyRitualPatch(t: Ritual, p: RitualPatch): (r: Ritual)
    ensures r.id == t.id && r.userId == t.userId && r.ritualType == t.ritualType
    ensures r.date == t.date && r.createdAt == t.createdAt
    ensures r.completed == Overwrite(t.completed, p.completed)
    ensures p.checklistItems.None? ==> r.checklistItems == t.checklistItems
    ensures p.checklistItems.Some? ==> r.checklistItems == p.checklistItems
    ensures p.notes.None? ==> r.notes == t.notes
    ensures p.notes.Some? ==> r.notes == p.notes
  {
    t.(completed := Overwrite(t.completed, p.completed),
       checklistItems := if p.checklistItems.Some? then p.checklistItems else t.checklistItems,
       notes := if p.notes.Some? then p.notes else t.notes)
  }

  /** The settings fields settings.update accepts. */
  datatype SettingsPatch = SettingsPatch(
    notificationsEnabled: Option<int>,
    maintenanceReminderTime: Option<string>,
    constructionReminderTime: Option<string>,
    emailNotifications: Option<int>)

  function ApplySettingsPatch(s: UserSettings, p: SettingsPatch): (r: UserSettings)
    ensures r.id == s.id && r.userId == s.userId && r.createdAt == s.createdAt
    ensures r.notificationsEnabled == Overwrite(s.notificationsEnabled, p.notificationsEnabled)
    ensures r.emailNotifications == Overwrite(s.emailNotifications, p.emailNotifications)
    ensures p.maintenanceReminderTime.None? ==> r.maintenanceReminderTime == s.maintenanceReminderTime
    ensures p.maintenanceReminderTime.Some? ==> r.maintenanceReminderTime == p.maintenanceReminderTime
    ensures p.constructionReminderTime.None? ==> r.constructionReminderTime == s.constructionReminderTime
    ensures p.constructionReminderTime.Some? ==> r.constructionReminderTime == p.constructionReminderTime
  {
    s.(notificationsEnabled := Overwrite(s.notificationsEnabled, p.notificationsEnabled),
       maintenanceReminderTime := if p.maintenanceReminderTime.Some? then p.maintenanceReminderTime else s.maintenanceReminderTime,
       constructionReminderTime := if p.constructionReminderTime.Some? then p.constructionReminderTime else s.constructionReminderTime,
       emailNotifications := Overwrite(s.emailNotifications, p.emailNotifications))
  }

  /** The settings row createOrUpdateUserSettings inserts on a user's first
      write: the column defaults with the supplied fields spread over them. */
  function FirstSettings(id: int, userId: int, createdAt: Timestamp, p: SettingsPatch): (r: UserSettings)
    ensures r.id == id && r.userId == userId && r.createdAt == createdAt
    ensures r.notificationsEnabled == p.notificationsEnabled.GetOr(DefaultNotificationsEnabled)
    ensures r.emailNotifications == p.emailNotifications.GetOr(DefaultEmailNotifications)
    ensures r.maintenanceReminderTime == Some(p.maintenanceReminderTime.GetOr(DefaultMaintenanceReminderTime))
    ensures r.constructionReminderTime == Some(p.constructionReminderTime.GetOr(DefaultConstructionReminderTime))
  {
    var defaults := UserSettings(id, userId, DefaultNotificationsEnabled,
                                 Some(DefaultMaintenanceReminderTime), Some(DefaultConstructionReminderTime),
                                 DefaultEmailNotifications, createdAt);
    ApplySettingsPatch(defaults, p)
  }

  // ---------------------------------------------------------------- laws

  /** Applying the same partial update twice is applying it once. */
  lemma BookFieldsIdempotent(b: Book, p: BookFields)
    ensures ApplyBookFields(ApplyBookFields(b, p), p) == ApplyBookFields(b, p)
  {
  }

  /** An update that supplies nothing leaves the row as it was. */
  lemma NoBookFieldsIsIdentity(b: Book)
    ensures ApplyBookFields(b, NoBookFields) == b
  {
  }

  /** Two partial updates in a row are one update with the later values winning. */
  lemma BookFieldsCompose(b: Book, p: BookFields, q: BookFields)
    ensures ApplyBookFields(ApplyBookFields(b, p), q) == ApplyBookFields(b, MergeBookFields(p, q))
  {
  }

  lemma ChapterPatchIdempotent(c: Chapter, p: ChapterPatch)
    ensures ApplyChapterPatch(ApplyChapterPatch(c, p), p) == ApplyChapterPatch(c, p)
  {
  }

  lemma NoChapterChangeIsIdentity(c: Chapter)
    ensures ApplyChapterPatch(c, NoChapterChange) == c
  {
  }

  lemma ChapterPatchesCompose(c: Chapter, p: ChapterPatch, q: ChapterPatch)
    ensures ApplyChapterPatch(ApplyChapterPatch(c, p), q) == ApplyChapterPatch(c, MergeChapterPatches(p, q))
  {
  }

  /** The first settings write equals inserting the defaults and then
      updating them with the same fields. */
  lemma FirstSettingsIsPatchedDefaults(id: int, userId: int, createdAt: Timestamp, p: SettingsPatch)
    ensures FirstSettings(id, userId, createdAt, p)
         == ApplySettingsPatch(FirstSettings(id, userId, createdAt, SettingsPatch(None, None, None, None)), p)
  {
  }
}
