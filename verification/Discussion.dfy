/** A project's discussion thread: newest-first keyset pages of its live comments. */
module Discussion {
  import opened Prelude
  import opened Cursor
  import opened Instants
  import opened Keyset

  type Id = nat
  type Size = n: nat | n >= 1 witness 1

  datatype Comment = Comment(project: Option<Id>, createdAt: Aware, deleted: bool)
  datatype Project = Project(organization: Id, deleted: bool, members: set<Id>)
  datatype Caller = Caller(id: Id, organization: Option<Id>, isAdmin: bool)
  datatype Db = Db(projects: map<Id, Project>, comments: map<Uuid, Comment>)

  datatype Error = ProjectNotFound | BadCursor

  /** The comments as rows of one project's thread. */
  function View(db: Db, project: Id): Table {
    map id: Uuid | id in db.comments ::
      Row(Instant(db.comments[id].createdAt), db.comments[id].project == Some(project) && !db.comments[id].deleted)
  }

  /** Deleted projects, other organizations' projects and projects the caller is no member of all
      look alike; administrators need no membership. */
  predicate CanRead(db: Db, project: Id, caller: Caller) {
    project in db.projects && !db.projects[project].deleted
    && Some(db.projects[project].organization) == caller.organization
    && (caller.isAdmin || caller.id in db.projects[project].members)
  }

  /** An absent or empty cursor starts at the newest comment. */
  function CursorKey(before: Option<string>): Result<Option<Key>, Error> {
    if before.None? || before.value == "" then Ok(None)
    else match DecodeCursor(before.value)
      case Err(_) => Err(BadCursor)
      case Ok((createdAt, id)) =>
        if createdAt.offset.Some? then Ok(Some(Key(Instant(createdAt), id))) else Err(BadCursor)
  }

  /** The cursor made of a listed comment. */
  function CursorOf(db: Db, id: nat): string {
    if id in db.comments then EncodeCursor(db.comments[id].createdAt, id) else ""
  }

  /** One row more than the page holds has been read, to learn whether another page follows. */
  function PageFrom(db: Db, rows: seq<Key>, limit: Size): Page {
    var hasMore := |rows| > limit;
    var items := FirstRows(rows, limit);
    Page(items, if hasMore then Some(CursorOf(db, items[limit - 1].id)) else None, hasMore)
  }

  function ListMessages(db: Db, project: Id, caller: Caller, limit: Size, before: Option<string>): Result<Page, Error> {
    if !CanRead(db, project, caller) then Err(ProjectNotFound)
    else match CursorKey(before)
      case Err(e) => Err(e)
      case Ok(key) => Ok(PageFrom(db, ListPage(View(db, project), limit + 1, key), limit))
  }

  /** A thread is the project's comments that are not deleted, each under the instant of its timestamp. */
  lemma ThreadIsTheProjects(db: Db, project: Id, key: Key)
    ensures key in Live(View(db, project)) <==>
            key.id in db.comments && db.comments[key.id].project == Some(project) && !db.comments[key.id].deleted
            && key.instant == Instant(db.comments[key.id].createdAt)
  {
    if key in Live(View(db, project)) {
      assert key.id in View(db, project) && key == KeyIn(View(db, project), key.id);
    } else if key.id in db.comments {
      var id: Uuid := key.id;
      assert IsLive(View(db, project), id) ==> KeyIn(View(db, project), id) in Live(View(db, project));
    }
  }

  lemma ListedIsLive(db: Db, project: Id, id: nat)
    requires id in db.comments && db.comments[id].project == Some(project) && !db.comments[id].deleted
    ensures IsLive(View(db, project), id)
  {}

  /** A cursor handed out by one call is read by the next as the key of the comment it was made
      from; it is never empty, so it never restarts the thread. */
  lemma EncodedCursorIsItsKey(createdAt: Aware, id: Uuid)
    ensures CursorKey(Some(EncodeCursor(createdAt, id))) == Ok(Some(Key(Instant(createdAt), id)))
  {
    CursorRoundTrip(createdAt, id);
    RawIsAscii(createdAt, id);
  }

  lemma NextCursorIsItsKey(db: Db, project: Id, key: Key)
    requires key in Live(View(db, project))
    ensures CursorKey(Some(CursorOf(db, key.id))) == Ok(Some(key))
  {
    EncodedCursorIsItsKey(db.comments[key.id].createdAt, key.id);
  }

  lemma CursorFollowsThePage(db: Db, project: Id, rows: seq<Key>, limit: Size)
    requires forall key | key in rows :: key in Live(View(db, project))
    ensures var page := PageFrom(db, rows, limit);
            if page.hasMore then CursorKey(page.nextCursor) == Ok(LastKey(page.items)) else page.nextCursor == None
  {
    if |rows| > limit {
      var last := rows[limit - 1];
      assert LastKey(FirstRows(rows, limit)) == Some(last);
      NextCursorIsItsKey(db, project, last);
    }
  }

  lemma PageFromIsExact(db: Db, project: Id, limit: Size, key: Option<Key>)
    ensures var page := PageFrom(db, ListPage(View(db, project), limit + 1, key), limit);
            IsExact(page, Older(Live(View(db, project)), key), limit)
  {
    var older := Older(Live(View(db, project)), key);
    var rows := FirstRows(Ranked(older), limit + 1);
    PageIsExact(older, rows, PageFrom(db, rows, limit), limit);
  }

  lemma RowsAreOlder(older: set<Key>, rows: seq<Key>, limit: nat)
    requires rows == FirstRows(Ranked(older), limit)
    ensures forall key | key in rows :: key in older
  {
    assert forall key | key in rows :: key in Ranked(older);
  }

  /** An exact page of the thread below the key; its next cursor, given exactly when more is to
      come, is read as the key of its last comment. */
  predicate Serves(page: Page, db: Db, project: Id, limit: Size, key: Option<Key>) {
    IsExact(page, Older(Live(View(db, project)), key), limit)
    && (if page.hasMore then CursorKey(page.nextCursor) == Ok(LastKey(page.items)) else page.nextCursor == None)
  }

  lemma PageServes(db: Db, project: Id, limit: Size, key: Option<Key>)
    ensures Serves(PageFrom(db, ListPage(View(db, project), limit + 1, key), limit), db, project, limit, key)
  {
    var older := Older(Live(View(db, project)), key);
    var rows := FirstRows(Ranked(older), limit + 1);
    RowsAreOlder(older, rows, limit + 1);
    CursorFollowsThePage(db, project, rows, limit);
    PageFromIsExact(db, project, limit, key);
  }

  /** The service refuses an unreadable project, then an unreadable cursor; otherwise it serves the
      page the cursor asks for. */
  lemma ListingIsExact(db: Db, project: Id, caller: Caller, limit: Size, before: Option<string>)
    ensures var result := ListMessages(db, project, caller, limit, before);
            if !CanRead(db, project, caller) then result == Err(ProjectNotFound)
            else if CursorKey(before).Err? then result == Err(BadCursor)
            else result.Ok? && Serves(result.value, db, project, limit, CursorKey(before).value)
  {
    if CanRead(db, project, caller) && CursorKey(before).Ok? {
      PageServes(db, project, limit, CursorKey(before).value);
    }
  }

  /** The call on the database's own columns. A page is refused exactly when the project is missing,
      deleted or another organization's, or the caller neither an administrator nor a member; then
      when a cursor is given that cannot be read. */
  lemma PageIsTrue(db: Db, project: Id, caller: Caller, limit: Size, before: Option<string>)
    ensures var result := ListMessages(db, project, caller, limit, before);
            var open := project in db.projects && !db.projects[project].deleted
                        && caller.organization == Some(db.projects[project].organization)
                        && (caller.isAdmin || caller.id in db.projects[project].members);
            var readable := before.None? || before.value == "" || DecodeCursor(before.value).Ok?;
            && (result == Err(ProjectNotFound) <==> !open)
            && (result == Err(BadCursor) <==> open && !readable)
            && (result.Ok? ==>
                  |result.value.items| <= limit
                  && forall key | key in result.value.items ::
                       key.id in db.comments && db.comments[key.id].project == Some(project)
                       && !db.comments[key.id].deleted && key.instant == Instant(db.comments[key.id].createdAt))
  {
    ListingIsExact(db, project, caller, limit, before);
    var result := ListMessages(db, project, caller, limit, before);
    if result.Ok? {
      forall key | key in result.value.items
        ensures key in Live(View(db, project))
      {}
      forall key | key in Live(View(db, project))
        ensures key.id in db.comments && db.comments[key.id].project == Some(project)
                && !db.comments[key.id].deleted && key.instant == Instant(db.comments[key.id].createdAt)
      {
        ThreadIsTheProjects(db, project, key);
      }
    }
  }
}
