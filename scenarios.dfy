/** The request sequences server/book.test.ts exercises, stated for every
    store and every signed-in user rather than for one fixture, and proved
    from the handlers' contracts. */
module Scenarios {
  import opened Results
  import opened Schema
  import opened Query
  import opened Store
  import opened Router

  /** book.get twice: the second call returns the very book the first one
      returned, and at most one book is created in all. */
  method BookGetTwice(store: Store, userId: int) returns (first: Result<Option<Book>>, second: Result<Option<Book>>)
    requires store.Valid()
    modifies store`books, store`clock
    ensures store.Valid()
    ensures second == first
    ensures |store.books| <= |old(store.books)| + 1
    ensures store.available ==>
      && first.Ok? && first.value.Some?
      && first.value.value.userId == userId
    ensures store.available && old(store.UserBook(userId)).None? ==>
      first.value.value.title == AutoBookTitle && first.value.value.targetChapters == DefaultTargetChapters
  {
    first := BookGet(store, Some(userId));
    second := BookGet(store, Some(userId));
  }

  /** book.getOrCreate twice: the second call ignores its input and returns
      the first call's book. */
  method GetOrCreateTwice(store: Store, userId: int, firstInput: BookFields, secondInput: BookFields)
    returns (first: Result<Option<Book>>, second: Result<Option<Book>>)
    requires store.Valid()
    modifies store`books, store`clock
    ensures store.Valid()
    ensures second == first
    ensures store.available && old(store.UserBook(userId)).None? ==>
      && first.Ok? && first.value.Some?
      && first.value.value.title == TitleOrFallback(firstInput.title)
      && first.value.value.description == firstInput.description
      && first.value.value.targetChapters == StoredTarget(firstInput.targetChapters)
  {
    first := BookGetOrCreate(store, Some(userId), firstInput);
    second := BookGetOrCreate(store, Some(userId), secondInput);
  }

  /** Two chapters created in a book, then chapters.list: both are listed,
      every listed chapter is in that book, and the list runs in chapter
      order. */
  method CreateTwoChaptersThenList(store: Store, userId: int, bookId: int, title1: string, title2: string)
    returns (listed: Result<seq<Chapter>>)
    requires store.Valid()
    modifies store`chapters, store`clock
    ensures store.Valid()
    ensures store.available ==>
      && listed.Ok?
      && |listed.value| >= 2
      && (forall c :: c in listed.value ==> c.bookId == bookId)
      && SortedBy(listed.value, ChapterNumber)
  {
    var one := ChaptersCreate(store, Some(userId), bookId, 1, title1);
    var two := ChaptersCreate(store, Some(userId), bookId, 2, title2);
    listed := ChaptersList(store, Some(userId), bookId);
    if store.available {
      var c1, c2 := one.value.value, two.value.value;
      assert c1 in store.chapters && c2 in store.chapters;
      assert c1 in listed.value && c2 in listed.value;
      TwoDistinctMembers(listed.value, c1, c2);
    }
  }

  /** A sequence holding two different values has at least two elements. */
  lemma TwoDistinctMembers<T>(s: seq<T>, x: T, y: T)
    requires x in s && y in s && x != y
    ensures |s| >= 2
  {
    var i :| 0 <= i < |s| && s[i] == x;
    var j :| 0 <= j < |s| && s[j] == y;
    assert i != j;
  }

  /** A chapter created and then updated: the re-read chapter carries the
      supplied status, progress and notes, and keeps its book, number and
      title. */
  method CreateThenUpdateChapter(store: Store, userId: int, bookId: int, title: string,
                                 status: ChapterStatus, progress: int, notes: string)
    returns (updated: Result<Option<Chapter>>)
    requires store.Valid()
    modifies store`chapters, store`clock
    ensures store.Valid()
    ensures store.available ==>
      && updated.Ok? && updated.value.Some?
      && updated.value.value.status == status && updated.value.value.progress == progress
      && updated.value.value.notes == Some(notes)
      && updated.value.value.bookId == bookId && updated.value.value.chapterNumber == 1
      && updated.value.value.title == title
  {
    var created := ChaptersCreate(store, Some(userId), bookId, 1, title);
    if created.Err? {
      return created;
    }
    var c := created.value.value;
    updated := ChaptersUpdate(store, Some(userId), ChapterUpdateInput(c.id, Some(status), Some(progress), Some(notes), None));
  }

  /** book.update with only a title, after getOrCreate: only the title
      changes; target chapters and everything else stay. */
  method RetitleKeepsTarget(store: Store, userId: int, input: BookFields, newTitle: string)
    returns (created: Result<Option<Book>>, updated: Result<Option<Book>>)
    requires store.Valid()
    modifies store`books, store`clock
    ensures store.Valid()
    ensures store.available ==>
      && created.Ok? && created.value.Some?
      && updated == Ok(Some(created.value.value.(title := newTitle)))
  {
    created := BookGetOrCreate(store, Some(userId), input);
    updated := BookUpdate(store, Some(userId), BookFields(Some(newTitle), None, None));
  }

  /** sessions.create, then sessions.list: the session just created heads
      the list, because every earlier session was stamped before it. */
  method CreateSessionThenList(store: Store, userId: int, bookId: int, mode: SessionMode, chapterId: Option<int>)
    returns (created: Result<int>, listed: Result<seq<Session>>)
    requires store.Valid()
    modifies store`sessions, store`clock
    ensures store.Valid()
    ensures store.available ==>
      && created.Ok? && listed.Ok? && |listed.value| > 0
      && listed.value[0].id == created.value && listed.value[0].userId == userId
  {
    ghost var before := store.sessions;
    ghost var now := store.clock;
    assert CreatedBefore(before, SessionCreated, now);
    created := SessionsCreate(store, Some(userId), bookId, mode, chapterId);
    listed := SessionsList(store, Some(userId));
    if store.available {
      NewestHeadsList(listed.value, before, store.sessions[|before|], SessionListLimit);
    }
  }

  /** A listing ordered newest first, holding only rows of a table that ends
      in a row stamped after all the others, and cut only at a positive limit
      past older rows, starts with that last row. */
  lemma NewestHeadsList(r: seq<Session>, before: seq<Session>, s: Session, limit: nat)
    requires limit > 0
    requires CreatedBefore(before, SessionCreated, s.createdAt)
    requires forall t :: t in r ==> t in before + [s]
    requires SortedBy(r, SessionNewestFirst)
    requires s !in r ==> |r| == limit && forall t :: t in r ==> s.createdAt <= t.createdAt
    ensures |r| > 0 && r[0] == s
  {
    forall t | t in before + [s] && t != s ensures t.createdAt < s.createdAt {
      var k :| 0 <= k < |before + [s]| && (before + [s])[k] == t;
      assert k < |before| && before[k] == t;
    }
    var k :| 0 <= k < |r| && r[k] == s;
    if k != 0 {
      assert SessionNewestFirst(r[0]) <= SessionNewestFirst(r[k]);
    }
  }
}
