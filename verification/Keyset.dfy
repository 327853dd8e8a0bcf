/** Keyset pages over a table of stamped rows, and walks over its pages while the table changes. */
module Keyset {
  import opened Prelude

  /** A row as one thread sees it: its timestamp, and whether it is listed. */
  datatype Row = Row(instant: int, live: bool)
  type Table = map<nat, Row>

  /** What rows are ordered by, and identified with: the instant of the timestamp, then the id. */
  datatype Key = Key(instant: int, id: nat)

  /** The listed rows by key; `nextCursor` is the text the service makes of the last one. */
  datatype Page = Page(items: seq<Key>, nextCursor: Option<string>, hasMore: bool)

  /** SQL row comparison. */
  predicate Below(a: Key, b: Key) {
    a.instant < b.instant || (a.instant == b.instant && a.id < b.id)
  }

  function KeyIn(t: Table, id: nat): Key
    requires id in t
  {
    Key(t[id].instant, id)
  }

  predicate IsLive(t: Table, id: nat) {
    id in t && t[id].live
  }

  function Live(t: Table): set<Key> {
    set id | id in t && t[id].live :: KeyIn(t, id)
  }

  function Older(thread: set<Key>, before: Option<Key>): set<Key> {
    set k | k in thread && (before.None? || Below(k, before.value))
  }

  predicate IsNewest(keys: set<Key>, newest: Key) {
    newest in keys && forall k | k in keys && k != newest :: Below(k, newest)
  }

  lemma {:induction false} NewestExists(keys: set<Key>)
    requires keys != {}
    ensures exists k | k in keys :: IsNewest(keys, k)
    decreases |keys|
  {
    var x :| x in keys;
    if keys == {x} {
      assert IsNewest(keys, x);
    } else {
      NewestExists(keys - {x});
      var rest :| rest in keys - {x} && IsNewest(keys - {x}, rest);
      var newest := if Below(x, rest) then rest else x;
      forall k | k in keys && k != newest
        ensures Below(k, newest)
      {
        assert k == x || k in keys - {x};
      }
      assert IsNewest(keys, newest);
    }
  }

  /** Newest first. */
  function Ranked(keys: set<Key>): (order: seq<Key>)
    ensures |order| == |keys|
    ensures forall k :: k in order <==> k in keys
    decreases |keys|
  {
    if keys == {} then []
    else
      NewestExists(keys);
      var newest :| newest in keys && IsNewest(keys, newest);
      [newest] + Ranked(keys - {newest})
  }

  function FirstRows(order: seq<Key>, limit: nat): seq<Key> {
    if |order| <= limit then order else order[..limit]
  }

  /** The page query: live rows of the thread below the cursor, newest first, at most `limit`. */
  function ListPage(t: Table, limit: nat, before: Option<Key>): seq<Key> {
    FirstRows(Ranked(Older(Live(t), before)), limit)
  }

  // ----- one page -----

  predicate Descending(keys: seq<Key>) {
    forall i, j | 0 <= i < j < |keys| :: Below(keys[j], keys[i])
  }

  lemma {:induction false} RankedDescends(keys: set<Key>)
    ensures Descending(Ranked(keys))
    decreases |keys|
  {
    if keys != {} {
      var order := Ranked(keys);
      RankedDescends(keys - {order[0]});
      assert order[1..] == Ranked(keys - {order[0]});
      forall i, j | 0 <= i < j < |order|
        ensures Below(order[j], order[i])
      {
        if i > 0 {
          assert order[i] == order[1..][i - 1] && order[j] == order[1..][j - 1];
        } else {
          assert order[j] in order[1..];
        }
      }
    }
  }

  /** A set of rows has one newest-first listing. */
  lemma {:induction false} ListingIsUnique(a: seq<Key>, b: seq<Key>)
    requires Descending(a) && Descending(b)
    requires forall m :: m in a <==> m in b
    ensures a == b
  {
    assert a != [] ==> a[0] in b;
    assert b != [] ==> b[0] in a;
    if a != [] {
      assert a[0] == b[0];
      forall m
        ensures m in a[1..] <==> m in b[1..]
      {
        assert m in a[1..] <==> m in a && m != a[0] by { HeadIsApart(a, m); }
        assert m in b[1..] <==> m in b && m != b[0] by { HeadIsApart(b, m); }
      }
      ListingIsUnique(a[1..], b[1..]);
      assert a == [a[0]] + a[1..] && b == [b[0]] + b[1..];
    }
  }

  lemma HeadIsApart(a: seq<Key>, m: Key)
    requires a != [] && Descending(a)
    ensures m in a[1..] <==> m in a && m != a[0]
  {
    if m in a[1..] {
      var i :| 0 <= i < |a[1..]| && a[1..][i] == m;
      assert a[i + 1] == m;
    }
  }

  /** The key of the last row listed. */
  function LastKey(items: seq<Key>): Option<Key> {
    if items == [] then None else Some(items[|items| - 1])
  }

  /** What one page is. Its rows are live, older than the cursor and newest first. A last page
      leaves out nothing older than the cursor; any other page is full, whatever it leaves out is
      older than its last row, and something is left out. */
  predicate IsExact(page: Page, older: set<Key>, limit: nat) {
    Descending(page.items)
    && (forall k | k in page.items :: k in older)
    && (!page.hasMore ==> forall k | k in older :: k in page.items)
    && (page.hasMore ==> 1 <= |page.items| == limit && IsFull(page, older, page.items[limit - 1]))
  }

  predicate IsFull(page: Page, older: set<Key>, last: Key) {
    (forall k | k in older && k !in page.items :: Below(k, last))
    && exists k | k in older :: Below(k, last)
  }

  /** The first `limit` rows of a listing, and the rows they leave out. */
  lemma HeadIsNewest(order: seq<Key>, limit: nat, k: Key)
    requires Descending(order) && 1 <= limit < |order| && k in order
    ensures k in order[..limit] || Below(k, order[limit - 1])
  {
    var i :| 0 <= i < |order| && order[i] == k;
    if i < limit {
      assert order[..limit][i] == k;
    }
  }

  /** Reading one row more than the page holds tells exactly whether another page follows. */
  lemma PageIsExact(older: set<Key>, rows: seq<Key>, page: Page, limit: nat)
    requires limit >= 1 && rows == FirstRows(Ranked(older), limit + 1)
    requires page.hasMore == (|rows| > limit) && page.items == FirstRows(rows, limit)
    ensures IsExact(page, older, limit)
  {
    var order := Ranked(older);
    RankedDescends(older);
    if page.hasMore {
      assert page.items == order[..limit];
      forall k | k in older && k !in page.items
        ensures Below(k, page.items[limit - 1])
      {
        HeadIsNewest(order, limit, k);
      }
      assert order[limit] in older && Below(order[limit], order[limit - 1]);
      assert IsFull(page, older, page.items[limit - 1]);
      assert forall k | k in page.items :: k in order;
    } else {
      assert page.items == order;
    }
  }

  // ----- walks -----

  /** Pages read one after the other, each from the table as it was then. */
  datatype Walk = Start | Read(before: Walk, table: Table, page: Page)

  function Items(w: Walk): seq<Key> {
    match w
    case Start => []
    case Read(before, _, page) => Items(before) + page.items
  }

  function Pages(w: Walk): nat {
    match w
    case Start => 0
    case Read(before, _, _) => Pages(before) + 1
  }

  /** Nothing read yet, or the last page promises another. */
  predicate GoesOn(w: Walk) {
    w.Read? ==> w.page.hasMore
  }

  /** The key of the last row of the last page. */
  function KeyAfter(w: Walk): Option<Key> {
    match w
    case Start => None
    case Read(_, _, page) => LastKey(page.items)
  }

  /** Each page is exact for the table as it was, below the last row of the page before. */
  predicate IsWalk(w: Walk, limit: nat) {
    match w
    case Start => true
    case Read(before, t, page) =>
      IsWalk(before, limit) && GoesOn(before) && IsExact(page, Older(Live(t), KeyAfter(before)), limit)
  }

  /** What all change must respect: no row is removed, and none is restamped. Rows may be added with
      any timestamp, and taken off the listing, between any two pages. */
  predicate Stable(a: Table, b: Table) {
    forall id | id in a :: id in b && KeyIn(a, id) == KeyIn(b, id)
  }

  predicate IsHistory(w: Walk) {
    match w
    case Start => true
    case Read(before, t, _) => IsHistory(before) && (before.Read? ==> Stable(before.table, t))
  }

  predicate LiveThroughout(w: Walk, id: nat) {
    match w
    case Start => true
    case Read(before, t, _) => LiveThroughout(before, id) && IsLive(t, id)
  }

  // ----- the invariant of a walk -----

  predicate Lists(items: seq<Key>, id: nat) {
    exists k | k in items :: k.id == id
  }

  /** Every row read is stamped as it still is. */
  predicate Current(items: seq<Key>, t: Table) {
    forall k | k in items :: k.id in t && k == KeyIn(t, k.id)
  }

  /** Read already, or still to come below the key reached. */
  predicate Covered(items: seq<Key>, goesOn: bool, t: Table, id: nat) {
    Lists(items, id)
    || (goesOn && (items != [] ==> id in t && Below(KeyIn(t, id), items[|items| - 1])))
  }

  predicate AllCovered(w: Walk) {
    w.Read? ==> forall id | id in w.table && LiveThroughout(w, id) :: Covered(Items(w), GoesOn(w), w.table, id)
  }

  /** The listing so far falls strictly and is current; full pages leave the key of its last row. */
  predicate Inv(w: Walk, limit: nat) {
    && Descending(Items(w))
    && (w.Read? ==> Current(Items(w), w.table))
    && (GoesOn(w) ==> |Items(w)| == limit * Pages(w) && KeyAfter(w) == LastKey(Items(w)))
    && AllCovered(w)
  }

  lemma DescendingJoin(a: seq<Key>, b: seq<Key>)
    requires Descending(a) && Descending(b)
    requires a != [] ==> forall k | k in b :: Below(k, a[|a| - 1])
    ensures Descending(a + b)
  {
    var c := a + b;
    forall i, j | 0 <= i < j < |c|
      ensures Below(c[j], c[i])
    {
      if i < |a| <= j {
        assert b[j - |a|] in b;
        assert i == |a| - 1 || Below(a[|a| - 1], a[i]);
      }
    }
  }

  lemma CurrentAfter(w: Walk, t: Table, page: Page)
    requires w.Read? ==> Current(Items(w), w.table) && Stable(w.table, t)
    requires forall k | k in page.items :: k in Live(t)
    ensures Current(Items(w) + page.items, t)
  {}

  /** A live row the key admits is on the page, or below its last row. */
  lemma PageCovers(page: Page, t: Table, limit: nat, key: Option<Key>, id: nat)
    requires IsExact(page, Older(Live(t), key), limit) && IsLive(t, id)
    requires key.None? || Below(KeyIn(t, id), key.value)
    ensures Covered(page.items, page.hasMore, t, id)
  {
    assert KeyIn(t, id) in Older(Live(t), key);
  }

  lemma CoverJoins(prior: seq<Key>, page: Page, t: Table, limit: nat, id: nat)
    requires IsExact(page, Older(Live(t), LastKey(prior)), limit) && IsLive(t, id)
    requires Covered(prior, true, t, id)
    ensures Covered(prior + page.items, page.hasMore, t, id)
  {
    var items := prior + page.items;
    if Lists(prior, id) {
      var k :| k in prior && k.id == id;
      assert k in items;
    } else {
      PageCovers(page, t, limit, LastKey(prior), id);
      if Lists(page.items, id) {
        var k :| k in page.items && k.id == id;
        assert k in items;
      } else {
        assert items[|items| - 1] == page.items[limit - 1];
      }
    }
  }

  lemma AllCoveredAfter(w: Walk, t: Table, page: Page, limit: nat)
    requires AllCovered(w) && GoesOn(w) && (w.Read? ==> Stable(w.table, t))
    requires IsExact(page, Older(Live(t), LastKey(Items(w))), limit)
    ensures AllCovered(Read(w, t, page))
  {
    forall id | id in t && LiveThroughout(Read(w, t, page), id)
      ensures Covered(Items(w) + page.items, page.hasMore, t, id)
    {
      assert LiveThroughout(w, id);
      if w.Read? {
        assert LiveThroughout(w.before, id) && IsLive(w.table, id);
        assert Covered(Items(w), true, w.table, id);
        assert KeyIn(w.table, id) == KeyIn(t, id);
      }
      CoverJoins(Items(w), page, t, limit, id);
    }
  }

  lemma FullPagesAddUp(limit: nat, pages: nat)
    ensures limit * pages + limit == limit * (pages + 1)
  {}

  lemma PageKeepsInv(w: Walk, t: Table, page: Page, limit: nat)
    requires Inv(w, limit) && GoesOn(w) && (w.Read? ==> Stable(w.table, t))
    requires IsExact(page, Older(Live(t), LastKey(Items(w))), limit)
    ensures Inv(Read(w, t, page), limit)
  {
    DescendingJoin(Items(w), page.items);
    CurrentAfter(w, t, page);
    AllCoveredAfter(w, t, page, limit);
    FullPagesAddUp(limit, Pages(w));
  }

  lemma {:induction false} WalkKeepsInv(w: Walk, limit: nat)
    requires IsWalk(w, limit) && IsHistory(w)
    ensures Inv(w, limit)
  {
    match w
    case Start =>
    case Read(before, t, page) =>
      WalkKeepsInv(before, limit);
      PageKeepsInv(before, t, page, limit);
  }

  // ----- what every walk shows -----

  predicate OnlyAt(items: seq<Key>, i: nat, id: nat) {
    i < |items| && items[i].id == id && forall j | 0 <= j < |items| && j != i :: items[j].id != id
  }

  predicate NoneTwice(items: seq<Key>) {
    forall i, j | 0 <= i < j < |items| :: items[i].id != items[j].id
  }

  lemma CurrentListingRepeatsNothing(items: seq<Key>, t: Table)
    requires Descending(items) && Current(items, t)
    ensures NoneTwice(items)
  {
    forall i, j | 0 <= i < j < |items|
      ensures items[i].id != items[j].id
    {
      assert items[i] in items && items[j] in items;
      assert Below(items[j], items[i]);
    }
  }

  lemma WalkRepeatsNothing(w: Walk, limit: nat)
    requires IsWalk(w, limit) && IsHistory(w)
    ensures Descending(Items(w)) && NoneTwice(Items(w))
  {
    WalkKeepsInv(w, limit);
    if w.Read? {
      CurrentListingRepeatsNothing(Items(w), w.table);
    }
  }

  lemma ListedOnce(items: seq<Key>, id: nat)
    requires Lists(items, id) && NoneTwice(items)
    ensures exists i: nat :: OnlyAt(items, i, id)
  {
    var k :| k in items && k.id == id;
    var i :| 0 <= i < |items| && items[i] == k;
    assert OnlyAt(items, i, id);
  }

  lemma WalkMissesNothing(w: Walk, limit: nat, id: nat)
    requires IsWalk(w, limit) && IsHistory(w) && !GoesOn(w) && LiveThroughout(w, id)
    ensures exists i: nat :: OnlyAt(Items(w), i, id)
  {
    WalkKeepsInv(w, limit);
    WalkRepeatsNothing(w, limit);
    assert Covered(Items(w), false, w.table, id);
    ListedOnce(Items(w), id);
  }

  /** Every row of every page was live when the page was read. */
  predicate AllLive(w: Walk) {
    match w
    case Start => true
    case Read(before, t, page) => AllLive(before) && forall k | k in page.items :: k in Live(t)
  }

  lemma {:induction false} PagesAreLive(w: Walk, limit: nat)
    requires IsWalk(w, limit)
    ensures AllLive(w)
  {
    if w.Read? {
      PagesAreLive(w.before, limit);
    }
  }

  // ----- a table that does not change -----

  predicate Unchanged(w: Walk, t: Table) {
    match w
    case Start => true
    case Read(before, table, _) => Unchanged(before, t) && table == t
  }

  lemma {:induction false} UnchangedIsHistory(w: Walk, t: Table)
    requires Unchanged(w, t)
    ensures IsHistory(w)
    ensures forall id | IsLive(t, id) :: LiveThroughout(w, id)
  {
    if w.Read? {
      UnchangedIsHistory(w.before, t);
    }
  }

  lemma {:induction false} ItemsAreLive(w: Walk, t: Table)
    requires AllLive(w) && Unchanged(w, t)
    ensures forall k | k in Items(w) :: k in Live(t)
  {
    if w.Read? {
      ItemsAreLive(w.before, t);
    }
  }

  lemma WalkReadsAll(w: Walk, t: Table, limit: nat)
    requires IsWalk(w, limit) && Unchanged(w, t) && !GoesOn(w)
    ensures Items(w) == Ranked(Live(t))
  {
    UnchangedIsHistory(w, t);
    WalkRepeatsNothing(w, limit);
    PagesAreLive(w, limit);
    ItemsAreLive(w, t);
    forall key | key in Live(t)
      ensures key in Items(w)
    {
      WalkMissesNothing(w, limit, key.id);
      var i: nat :| OnlyAt(Items(w), i, key.id);
      assert Items(w)[i] in Live(t);
    }
    RankedDescends(Live(t));
    ListingIsUnique(Items(w), Ranked(Live(t)));
  }

  lemma {:induction false} DistinctCount(items: seq<Key>, thread: set<Key>)
    requires Descending(items) && forall k | k in items :: k in thread
    ensures |items| <= |thread|
  {
    if items != [] {
      forall x | x in items[1..]
        ensures x in thread - {items[0]}
      {
        HeadIsApart(items, x);
      }
      DistinctCount(items[1..], thread - {items[0]});
    }
  }

  lemma SomethingIsLeft(w: Walk, t: Table, limit: nat)
    requires w.Read? && w.table == t && IsWalk(w, limit) && GoesOn(w)
    ensures KeyAfter(w).Some? && exists key | key in Live(t) :: Below(key, KeyAfter(w).value)
  {
    var older := Older(Live(t), KeyAfter(w.before));
    var key :| key in older && Below(key, w.page.items[limit - 1]);
    assert key in Live(t);
  }

  /** A page that promises another leaves something unread, so fewer than |thread| / limit pages do. */
  lemma UnfinishedPagesAreFew(w: Walk, t: Table, limit: nat)
    requires w.Read? && IsWalk(w, limit) && Unchanged(w, t) && GoesOn(w)
    ensures limit * Pages(w) < |Live(t)|
  {
    UnchangedIsHistory(w, t);
    WalkKeepsInv(w, limit);
    PagesAreLive(w, limit);
    ItemsAreLive(w, t);
    SomethingIsLeft(w, t, limit);
    var key :| key in Live(t) && Below(key, KeyAfter(w).value);
    DescendingJoin(Items(w), [key]);
    DistinctCount(Items(w) + [key], Live(t));
  }

  /** At most one page more than |thread| / limit. */
  predicate FewPages(w: Walk, t: Table, limit: nat) {
    Pages(w) == 1 || limit * (Pages(w) - 1) < |Live(t)|
  }

  lemma PagesBeforeTheLast(w: Walk, t: Table, limit: nat)
    requires w.Read? && IsWalk(w, limit) && Unchanged(w, t)
    ensures FewPages(w, t, limit)
  {
    if w.before.Read? {
      UnfinishedPagesAreFew(w.before, t, limit);
    }
  }
}
