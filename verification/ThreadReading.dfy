/** Reading a thread page by page while it changes: what following `next_cursor` returns. */
module ThreadReading {
  import opened Prelude
  import opened Keyset
  import opened Instants
  import opened Discussion

  /** Who reads which thread, and the page size asked for. */
  datatype Reader = Reader(project: Id, caller: Caller, limit: Size)

  /** The pages fetched so far, each from the database as it was then. */
  datatype Reading = Nothing | Fetch(before: Reading, db: Db, page: Page)

  function NextCursor(h: Reading): Option<string> {
    match h
    case Nothing => None
    case Fetch(_, _, page) => page.nextCursor
  }

  /** The rows read, with the database reduced to the rows of the thread. */
  function AsWalk(h: Reading, project: Id): Walk {
    match h
    case Nothing => Start
    case Fetch(before, db, page) => Read(AsWalk(before, project), View(db, project), page)
  }

  predicate Fetched(db: Db, r: Reader, before: Option<string>, page: Page) {
    ListMessages(db, r.project, r.caller, r.limit, before) == Ok(page)
  }

  function Follows(h: Reading, r: Reader): Walk {
    AsWalk(h, r.project)
  }

  /** Each page answers a request with the cursor that the page before it returned. */
  predicate IsReading(h: Reading, r: Reader) {
    match h
    case Nothing => true
    case Fetch(before, db, page) =>
      IsReading(before, r) && GoesOn(Follows(before, r)) && Fetched(db, r, NextCursor(before), page)
  }

  lemma FetchedIsExact(db: Db, r: Reader, before: Option<string>, key: Option<Key>, page: Page)
    requires Fetched(db, r, before, page) && CursorKey(before) == Ok(key)
    ensures CanRead(db, r.project, r.caller) && IsExact(page, Older(Live(View(db, r.project)), key), r.limit)
    ensures page.hasMore ==> CursorKey(page.nextCursor) == Ok(LastKey(page.items))
  {
    ListingIsExact(db, r.project, r.caller, r.limit, before);
  }

  /** The text of the cursors never matters: each page follows the key of the page before. */
  lemma {:induction false} ReadingIsAWalk(h: Reading, r: Reader)
    requires IsReading(h, r)
    ensures IsWalk(Follows(h, r), r.limit)
    ensures GoesOn(Follows(h, r)) ==> CursorKey(NextCursor(h)) == Ok(KeyAfter(Follows(h, r)))
    ensures h.Fetch? ==> CanRead(h.db, r.project, r.caller)
  {
    match h
    case Nothing =>
    case Fetch(before, db, page) =>
      ReadingIsAWalk(before, r);
      FetchedIsExact(db, r, NextCursor(before), KeyAfter(Follows(before, r)), page);
  }

  // ----- what changes between pages -----

  /** Comments are never removed and never restamped; they may be posted with any timestamp, deleted
      and moved between any two pages. */
  predicate KeepsComments(a: Db, b: Db) {
    forall id | id in a.comments ::
      id in b.comments && Instant(b.comments[id].createdAt) == Instant(a.comments[id].createdAt)
  }

  predicate IsUndisturbed(h: Reading) {
    h.Fetch? ==> IsUndisturbed(h.before) && (h.before.Fetch? ==> KeepsComments(h.before.db, h.db))
  }

  /** In the project and not deleted at every page of the reading. */
  predicate Lasts(h: Reading, project: Id, id: nat) {
    h.Fetch? ==>
      Lasts(h.before, project, id)
      && id in h.db.comments && h.db.comments[id].project == Some(project) && !h.db.comments[id].deleted
  }

  lemma KeptIsStable(a: Db, b: Db, project: Id)
    requires KeepsComments(a, b)
    ensures Stable(View(a, project), View(b, project))
  {}

  lemma {:induction false} UndisturbedIsHistory(h: Reading, project: Id)
    requires IsUndisturbed(h)
    ensures IsHistory(AsWalk(h, project))
  {
    if h.Fetch? {
      UndisturbedIsHistory(h.before, project);
      if h.before.Fetch? {
        KeptIsStable(h.before.db, h.db, project);
      }
    }
  }

  lemma {:induction false} LastingIsLive(h: Reading, project: Id, id: nat)
    requires Lasts(h, project, id)
    ensures LiveThroughout(AsWalk(h, project), id)
  {
    if h.Fetch? {
      LastingIsLive(h.before, project, id);
      ListedIsLive(h.db, project, id);
    }
  }

  // ----- main results -----

  /** Whatever is posted or deleted between pages, the keys returned strictly fall over the whole
      reading and no comment is returned twice. */
  lemma NothingIsRepeated(h: Reading, r: Reader)
    requires IsReading(h, r) && IsUndisturbed(h)
    ensures Descending(Items(Follows(h, r))) && NoneTwice(Items(Follows(h, r)))
    ensures var items := Items(Follows(h, r));
            forall i, j | 0 <= i < j < |items| ::
              items[i].instant > items[j].instant
              || (items[i].instant == items[j].instant && items[i].id > items[j].id)
  {
    ReadingIsAWalk(h, r);
    UndisturbedIsHistory(h, r.project);
    WalkRepeatsNothing(Follows(h, r), r.limit);
  }

  /** A finished reading returns every comment that was in the project, and not deleted, throughout:
      at one position and no other. */
  lemma EveryLastingCommentIsReadOnce(h: Reading, r: Reader, id: nat)
    requires IsReading(h, r) && IsUndisturbed(h) && !GoesOn(Follows(h, r)) && Lasts(h, r.project, id)
    ensures exists i: nat :: OnlyAt(Items(Follows(h, r)), i, id)
  {
    ReadingIsAWalk(h, r);
    UndisturbedIsHistory(h, r.project);
    LastingIsLive(h, r.project, id);
    WalkMissesNothing(Follows(h, r), r.limit, id);
  }

  /** What every page was when it was read: the project was there, not deleted and in the caller's
      organization, the caller an administrator or a member, and each row a comment of the project, not
      deleted, keyed by the instant of its timestamp. */
  predicate PagesAreTrue(h: Reading, r: Reader) {
    h.Fetch? ==>
      && PagesAreTrue(h.before, r)
      && r.project in h.db.projects && !h.db.projects[r.project].deleted
      && r.caller.organization == Some(h.db.projects[r.project].organization)
      && (r.caller.isAdmin || r.caller.id in h.db.projects[r.project].members)
      && |h.page.items| <= r.limit
      && forall key | key in h.page.items ::
           key.id in h.db.comments && h.db.comments[key.id].project == Some(r.project)
           && !h.db.comments[key.id].deleted && key.instant == Instant(h.db.comments[key.id].createdAt)
  }

  lemma {:induction false} PagesHoldOnlyLiveComments(h: Reading, r: Reader)
    requires IsReading(h, r)
    ensures PagesAreTrue(h, r)
  {
    if h.Fetch? {
      PagesHoldOnlyLiveComments(h.before, r);
      PageIsTrue(h.db, r.project, r.caller, r.limit, NextCursor(h.before));
    }
  }

  // ----- an unchanged database -----

  predicate Same(h: Reading, db: Db) {
    h.Fetch? ==> Same(h.before, db) && h.db == db
  }

  lemma {:induction false} SameIsUnchanged(h: Reading, db: Db, project: Id)
    requires Same(h, db)
    ensures Unchanged(AsWalk(h, project), View(db, project))
  {
    if h.Fetch? {
      SameIsUnchanged(h.before, db, project);
    }
  }

  function Thread(db: Db, r: Reader): set<Key> {
    Live(View(db, r.project))
  }

  /** On a database that does not change, the pages of a finished reading join up to the whole
      thread: every comment of the project that is not deleted, nothing else, newest first. */
  lemma PagesJoinToTheThread(h: Reading, db: Db, r: Reader)
    requires IsReading(h, r) && Same(h, db) && !GoesOn(Follows(h, r))
    ensures Items(Follows(h, r)) == Ranked(Thread(db, r)) && Descending(Items(Follows(h, r)))
    ensures forall key :: key in Items(Follows(h, r)) <==>
              key.id in db.comments && db.comments[key.id].project == Some(r.project)
              && !db.comments[key.id].deleted && key.instant == Instant(db.comments[key.id].createdAt)
  {
    ReadingIsAWalk(h, r);
    SameIsUnchanged(h, db, r.project);
    WalkReadsAll(Follows(h, r), View(db, r.project), r.limit);
    RankedDescends(Thread(db, r));
    forall key
      ensures key in Thread(db, r) <==>
              key.id in db.comments && db.comments[key.id].project == Some(r.project)
              && !db.comments[key.id].deleted && key.instant == Instant(db.comments[key.id].createdAt)
    {
      ThreadIsTheProjects(db, r.project, key);
    }
  }

  /** On an unchanged database fewer than |thread| / limit pages promise another. */
  lemma PromisingPagesAreFew(h: Reading, db: Db, r: Reader)
    requires h.Fetch? && IsReading(h, r) && Same(h, db) && GoesOn(Follows(h, r))
    ensures r.limit * Pages(Follows(h, r)) < |Thread(db, r)|
  {
    ReadingIsAWalk(h, r);
    SameIsUnchanged(h, db, r.project);
    UnfinishedPagesAreFew(Follows(h, r), View(db, r.project), r.limit);
  }

  /** The cursor a page returns is good for another call, on whatever the database then is, as long
      as the caller may still read the project. */
  lemma NextPageExists(h: Reading, db: Db, r: Reader) returns (page: Page)
    requires IsReading(h, r) && GoesOn(Follows(h, r)) && CanRead(db, r.project, r.caller)
    ensures IsReading(Fetch(h, db, page), r)
  {
    ReadingIsAWalk(h, r);
    ListingIsExact(db, r.project, r.caller, r.limit, NextCursor(h));
    page := ListMessages(db, r.project, r.caller, r.limit, NextCursor(h)).value;
  }

  predicate Extends(h: Reading, longer: Reading) {
    h == longer || (longer.Fetch? && Extends(h, longer.before))
  }

  /** The whole thread, newest first, read in at most one page more than |thread| / limit. */
  predicate ReadsAll(h: Reading, db: Db, r: Reader) {
    && IsReading(h, r) && Same(h, db) && !GoesOn(Follows(h, r))
    && Items(Follows(h, r)) == Ranked(Thread(db, r))
    && FewPages(Follows(h, r), View(db, r.project), r.limit)
  }

  lemma FinishedPagesAreFew(h: Reading, db: Db, r: Reader)
    requires h.Fetch? && IsReading(h, r) && Same(h, db)
    ensures FewPages(Follows(h, r), View(db, r.project), r.limit)
  {
    ReadingIsAWalk(h, r);
    SameIsUnchanged(h, db, r.project);
    PagesBeforeTheLast(Follows(h, r), View(db, r.project), r.limit);
  }

  lemma FinishedReadsAll(h: Reading, db: Db, r: Reader)
    requires IsReading(h, r) && Same(h, db) && !GoesOn(Follows(h, r))
    ensures ReadsAll(h, db, r)
  {
    PagesJoinToTheThread(h, db, r);
    FinishedPagesAreFew(h, db, r);
  }

  lemma ExtendsBack(h: Reading, db: Db, page: Page, longer: Reading)
    requires Extends(Fetch(h, db, page), longer)
    ensures Extends(h, longer)
  {
    if longer != Fetch(h, db, page) {
      ExtendsBack(h, db, page, longer.before);
    }
  }

  lemma PagesStayWithinTheThread(h: Reading, db: Db, r: Reader)
    requires IsReading(h, r) && Same(h, db) && GoesOn(Follows(h, r))
    ensures Pages(Follows(h, r)) <= |Thread(db, r)|
  {
    if h.Fetch? {
      PromisingPagesAreFew(h, db, r);
      PagesAtMost(r.limit, Pages(Follows(h, r)));
    }
  }

  lemma PagesAtMost(limit: Size, pages: nat)
    ensures limit * pages >= pages
  {}

  /** Following the cursor on an unchanged database ends with the whole thread read, however many
      pages have been read so far. */
  lemma {:induction false} ReadingEnds(h: Reading, db: Db, r: Reader) returns (longer: Reading)
    requires IsReading(h, r) && Same(h, db) && CanRead(db, r.project, r.caller)
    ensures Extends(h, longer) && ReadsAll(longer, db, r)
    decreases |Thread(db, r)| + 1 - Pages(Follows(h, r))
  {
    if !GoesOn(Follows(h, r)) {
      FinishedReadsAll(h, db, r);
      longer := h;
    } else {
      var page := NextPageExists(h, db, r);
      PagesStayWithinTheThread(h, db, r);
      longer := ReadingEnds(Fetch(h, db, page), db, r);
      ExtendsBack(h, db, page, longer);
    }
  }
}
