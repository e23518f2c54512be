/** Listing issues page by page: order, cursor, and what following cursors returns. */
module TrackerPages {
  import opened SearchVarint
  import opened SearchOrder

  /** What an issue is sorted by: the value of the sort column, its project's key and its number. */
  datatype Row = Row(v: int, key: seq<Byte>, num: nat)

  /** Sorting by key alone, or by a column with the key to settle ties. */
  datatype Sorting = Sorting(byKey: bool, desc: bool)

  datatype Maybe<T> = None | Some(value: T)

  // ----- order and cursor condition -----

  /** (a.key, a.num) < (b.key, b.num) */
  predicate KeyBefore(a: Row, b: Row) {
    BytesLess(a.key, b.key) || (a.key == b.key && a.num < b.num)
  }

  /** The order of the list. For sorting by key the column value only settles what cannot be equal. */
  predicate Before(srt: Sorting, a: Row, b: Row) {
    if srt.byKey then
      (if srt.desc then KeyBefore(b, a) else KeyBefore(a, b)) || (a.key == b.key && a.num == b.num && a.v < b.v)
    else
      (if srt.desc then b.v < a.v else a.v < b.v) || (a.v == b.v && KeyBefore(a, b))
  }

  /** The condition a cursor adds to the query. */
  predicate Behind(srt: Sorting, c: Row, r: Row) {
    if srt.byKey then if srt.desc then KeyBefore(r, c) else KeyBefore(c, r)
    else if srt.desc then r.v <= c.v && (r.v < c.v || KeyBefore(c, r))
    else r.v >= c.v && (r.v > c.v || KeyBefore(c, r))
  }

  /** Issues have distinct keys and numbers. */
  ghost predicate Distinct(table: seq<Row>) {
    forall i, j :: 0 <= i < |table| && 0 <= j < |table| && table[i].key == table[j].key && table[i].num == table[j].num ==> i == j
  }

  lemma KeyBeforeTotal(a: Row, b: Row, c: Row)
    ensures !KeyBefore(a, a) && (KeyBefore(a, b) && KeyBefore(b, c) ==> KeyBefore(a, c))
    ensures KeyBefore(a, b) || KeyBefore(b, a) || (a.key == b.key && a.num == b.num)
  {
    BytesLessIrreflexive(a.key);
    BytesLessConnected(a.key, b.key);
    if BytesLess(a.key, b.key) && BytesLess(b.key, c.key) {
      BytesLessTransitive(a.key, b.key, c.key);
    }
  }

  lemma BeforeIrreflexive(srt: Sorting, a: Row)
    ensures !Before(srt, a, a)
  {
    KeyBeforeTotal(a, a, a);
  }

  lemma BeforeTransitive(srt: Sorting, a: Row, b: Row, c: Row)
    requires Before(srt, a, b) && Before(srt, b, c)
    ensures Before(srt, a, c)
  {
    KeyBeforeTotal(a, b, c);
    KeyBeforeTotal(c, b, a);
  }

  lemma BeforeConnected(srt: Sorting, a: Row, b: Row)
    ensures a == b || Before(srt, a, b) || Before(srt, b, a)
  {
    KeyBeforeTotal(a, b, a);
  }

  lemma BeforeIsTotal(srt: Sorting)
    ensures StrictTotal((a, b) => Before(srt, a, b))
  {
    var less := (a, b) => Before(srt, a, b);
    forall a
      ensures !less(a, a)
    {
      BeforeIrreflexive(srt, a);
    }
    forall a, b, c | less(a, b) && less(b, c)
      ensures less(a, c)
    {
      BeforeTransitive(srt, a, b, c);
    }
    forall a, b
      ensures a == b || less(a, b) || less(b, a)
    {
      BeforeConnected(srt, a, b);
    }
  }

  /** The cursor condition selects exactly what comes later in the order, among rows with other keys and numbers. */
  lemma BehindMeans(srt: Sorting, c: Row, r: Row)
    requires c.key == r.key && c.num == r.num ==> c == r
    ensures Behind(srt, c, r) <==> Before(srt, c, r)
  {
    KeyBeforeTotal(c, r, c);
  }

  // ----- pages -----

  /** The rows behind a cursor; without one, all. */
  function After(srt: Sorting, cur: Maybe<Row>, table: seq<Row>): seq<Row> {
    if table == [] then []
    else
      var n := |table| - 1;
      After(srt, cur, table[..n]) + (if cur.None? || Behind(srt, cur.value, table[n]) then [table[n]] else [])
  }

  function Ordered(srt: Sorting, rows: seq<Row>): seq<Row> {
    Sort((a, b) => Before(srt, a, b), rows)
  }

  datatype Page = Page(items: seq<Row>, next: Maybe<Row>)

  /** Rows up to the limit, and a cursor at the last one if there are more. */
  function PageOf(srt: Sorting, table: seq<Row>, cur: Maybe<Row>, limit: nat): Page
    requires limit >= 1
  {
    var all := Ordered(srt, After(srt, cur, table));
    if |all| <= limit then Page(all, None) else Page(all[..limit], Some(all[limit - 1]))
  }

  /** The page loop, over one row more than the limit. */
  method TakePage(srt: Sorting, table: seq<Row>, cur: Maybe<Row>, limit: nat) returns (p: Page)
    requires limit >= 1
    ensures p == PageOf(srt, table, cur, limit)
  {
    var all := Ordered(srt, After(srt, cur, table));
    var rows := if |all| <= limit + 1 then all else all[..limit + 1];
    var items, n, more := [], 0, false;
    while n < |rows|
      invariant 0 <= n <= |rows| && items == rows[..n] && n <= limit && !more
    {
      if n == limit {
        more := true;
        break;
      }
      items := items + [rows[n]];
      n := n + 1;
    }
    p := Page(items, if more then Some(items[n - 1]) else None);
  }

  predicate Passes(srt: Sorting, cur: Maybe<Row>, r: Row) {
    cur.None? || Behind(srt, cur.value, r)
  }

  lemma {:induction false} AfterCount(srt: Sorting, cur: Maybe<Row>, table: seq<Row>, x: Row)
    ensures multiset(After(srt, cur, table))[x] == if Passes(srt, cur, x) then multiset(table)[x] else 0
  {
    hide Behind;
    if table != [] {
      var n := |table| - 1;
      AfterCount(srt, cur, table[..n], x);
      assert table == table[..n] + [table[n]];
    }
  }

  lemma OrderedMeans(srt: Sorting, rows: seq<Row>)
    ensures multiset(Ordered(srt, rows)) == multiset(rows) && |Ordered(srt, rows)| == |rows|
    ensures forall i, j :: 0 <= i < j < |rows| ==> !Before(srt, Ordered(srt, rows)[j], Ordered(srt, rows)[i])
  {
    var less := (a, b) => Before(srt, a, b);
    BeforeIsTotal(srt);
    SortPermutes(less, rows);
    SortInOrder(less, rows);
    var r := Ordered(srt, rows);
    forall i, j | 0 <= i < j < |rows|
      ensures !Before(srt, r[j], r[i])
    {
      assert !less(r[j], r[i]);
    }
  }

  /** Two arrangements in order of the same rows are the same. */
  lemma SameOrder(srt: Sorting, s: seq<Row>, t: seq<Row>)
    requires multiset(s) == multiset(t)
    requires forall i, j :: 0 <= i < j < |s| ==> !Before(srt, s[j], s[i])
    requires forall i, j :: 0 <= i < j < |t| ==> !Before(srt, t[j], t[i])
    ensures s == t
  {
    BeforeIsTotal(srt);
    OrderUnique((a, b) => Before(srt, a, b), s, t);
  }

  /** Rows in the two tables that are the same issue have the same place. */
  ghost predicate Agree(a: seq<Row>, b: seq<Row>) {
    forall i, j :: 0 <= i < |a| && 0 <= j < |b| && a[i].key == b[j].key && a[i].num == b[j].num ==> a[i] == b[j]
  }

  lemma DistinctAgree(table: seq<Row>)
    requires Distinct(table)
    ensures Agree(table, table)
  {}

  lemma {:induction false} DistinctOnce(table: seq<Row>, x: Row)
    requires Distinct(table)
    ensures multiset(table)[x] == if x in table then 1 else 0
  {
    if table != [] {
      var n := |table| - 1;
      assert table == table[..n] + [table[n]];
      DistinctOnce(table[..n], x);
      assert table[n] !in table[..n];
    }
  }

  /** The rows of a page's list: those behind the cursor, each once. */
  lemma Listed(srt: Sorting, table: seq<Row>, cur: Maybe<Row>, x: Row)
    requires Distinct(table)
    ensures var all := Ordered(srt, After(srt, cur, table));
      && (x in all <==> x in table && Passes(srt, cur, x)) && multiset(all)[x] <= 1
  {
    OrderedMeans(srt, After(srt, cur, table));
    AfterCount(srt, cur, table, x);
    DistinctOnce(table, x);
    InMultiset(Ordered(srt, After(srt, cur, table)), x);
  }

  lemma ListedStrictly(srt: Sorting, table: seq<Row>, cur: Maybe<Row>, i: nat, j: nat)
    requires Distinct(table)
    requires i < j < |Ordered(srt, After(srt, cur, table))|
    ensures var all := Ordered(srt, After(srt, cur, table)); Before(srt, all[i], all[j])
  {
    var all := Ordered(srt, After(srt, cur, table));
    OrderedMeans(srt, After(srt, cur, table));
    BeforeConnected(srt, all[i], all[j]);
    if all[i] == all[j] {
      TwiceInMultiset(all, i, j);
      Listed(srt, table, cur, all[i]);
    }
  }

  /** a's key comes first in byte order, or it is the same and a's number is less. */
  ghost predicate Earlier(a: Row, b: Row) {
    (exists i: nat :: LessAt(a.key, b.key, i)) || (a.key == b.key && a.num < b.num)
  }

  /** Sorted by a column its values ascend, or descend, with equal values by ascending key and number; sorted by key, keys
      and numbers ascend, or descend. */
  ghost predicate InSequence(srt: Sorting, a: Row, b: Row) {
    && (!srt.byKey && !srt.desc ==> a.v <= b.v) && (!srt.byKey && srt.desc ==> a.v >= b.v)
    && (!srt.byKey && a.v == b.v ==> Earlier(a, b))
    && (srt.byKey && !srt.desc ==> Earlier(a, b)) && (srt.byKey && srt.desc ==> Earlier(b, a))
  }

  ghost predicate Sorted(srt: Sorting, rows: seq<Row>) {
    forall i, j :: 0 <= i < j < |rows| ==> InSequence(srt, rows[i], rows[j])
  }

  lemma ListSorted(srt: Sorting, table: seq<Row>, cur: Maybe<Row>)
    requires Distinct(table)
    ensures Sorted(srt, Ordered(srt, After(srt, cur, table)))
  {
    hide Earlier, BytesLess, Ordered, After;
    var all := Ordered(srt, After(srt, cur, table));
    forall i, j | 0 <= i < j < |all|
      ensures Before(srt, all[i], all[j]) && (KeyBefore(all[i], all[j]) <==> Earlier(all[i], all[j]))
      ensures (KeyBefore(all[j], all[i]) <==> Earlier(all[j], all[i])) && (all[i].key != all[j].key || all[i].num != all[j].num)
    {
      ListedStrictly(srt, table, cur, i, j);
      EarlierMeans(all[i], all[j]);
      EarlierMeans(all[j], all[i]);
      TwoRows(srt, table, cur, i, j);
    }
  }

  lemma EarlierMeans(a: Row, b: Row)
    ensures KeyBefore(a, b) <==> Earlier(a, b)
  {
    BytesLessMeans(a.key, b.key);
  }

  /** Two places of a list have issues with different keys or numbers. */
  lemma TwoRows(srt: Sorting, table: seq<Row>, cur: Maybe<Row>, i: nat, j: nat)
    requires Distinct(table) && i < j < |Ordered(srt, After(srt, cur, table))|
    ensures var all := Ordered(srt, After(srt, cur, table)); all[i].key != all[j].key || all[i].num != all[j].num
  {
    hide Ordered, After;
    var all := Ordered(srt, After(srt, cur, table));
    Listed(srt, table, cur, all[i]);
    Listed(srt, table, cur, all[j]);
    ListedStrictly(srt, table, cur, i, j);
    BeforeIrreflexive(srt, all[i]);
  }

  /** The rows of a page are in that order. */
  lemma PageSorted(srt: Sorting, table: seq<Row>, cur: Maybe<Row>, limit: nat)
    requires Distinct(table) && limit >= 1
    ensures Sorted(srt, PageOf(srt, table, cur, limit).items)
  {
    hide Earlier;
    ListSorted(srt, table, cur);
  }

  /** A cursor selects the rows that the list, in that order, has behind it. */
  lemma CursorMeans(srt: Sorting, c: Row, r: Row)
    requires c.key != r.key || c.num != r.num
    ensures Behind(srt, c, r) <==> InSequence(srt, c, r)
  {
    hide Earlier, BytesLess;
    EarlierMeans(c, r);
    EarlierMeans(r, c);
    KeyBeforeTotal(c, r, c);
    KeyBeforeTotal(r, c, r);
  }

  /** A row is on the page exactly if it is behind the page's cursor and not behind the next one. */
  lemma OnPage(srt: Sorting, table: seq<Row>, cur: Maybe<Row>, limit: nat, x: Row)
    requires Distinct(table) && limit >= 1
    ensures var p := PageOf(srt, table, cur, limit);
      x in p.items <==> x in table && Passes(srt, cur, x) && (p.next.None? || !Behind(srt, p.next.value, x))
  {
    var all, p := Ordered(srt, After(srt, cur, table)), PageOf(srt, table, cur, limit);
    Listed(srt, table, cur, x);
    if |all| > limit && x in all {
      var k :| 0 <= k < |all| && all[k] == x;
      var c := all[limit - 1];
      assert c in all;
      Listed(srt, table, cur, c);
      DistinctAgree(table);
      BehindMeans(srt, c, x);
      PlaceOnPage(srt, table, cur, limit, k);
    }
  }

  lemma PlaceOnPage(srt: Sorting, table: seq<Row>, cur: Maybe<Row>, limit: nat, k: nat)
    requires Distinct(table) && 1 <= limit < |Ordered(srt, After(srt, cur, table))|
    requires k < |Ordered(srt, After(srt, cur, table))|
    ensures var all := Ordered(srt, After(srt, cur, table));
      && (all[k] in all[..limit] <==> k < limit) && (Before(srt, all[limit - 1], all[k]) <==> k >= limit)
  {
    var all := Ordered(srt, After(srt, cur, table));
    BeforeIrreflexive(srt, all[k]);
    if k < limit {
      assert all[..limit][k] == all[k];
      if k < limit - 1 {
        ListedStrictly(srt, table, cur, k, limit - 1);
        if Before(srt, all[limit - 1], all[k]) {
          BeforeTransitive(srt, all[k], all[limit - 1], all[k]);
        }
      }
    } else {
      ListedStrictly(srt, table, cur, limit - 1, k);
      forall i | 0 <= i < limit
        ensures all[i] != all[k]
      {
        ListedStrictly(srt, table, cur, i, k);
      }
    }
  }

  // ----- following cursors -----

  lemma BehindTransitive(srt: Sorting, a: Row, b: Row, c: Row)
    requires Behind(srt, a, b) && Behind(srt, b, c)
    ensures Behind(srt, a, c)
  {
    KeyBeforeTotal(a, b, c);
    KeyBeforeTotal(c, b, a);
  }

  function CursorOf(ps: seq<Page>, i: nat): Maybe<Row>
    requires i <= |ps|
  {
    if i == 0 then None else ps[i - 1].next
  }

  /** Pages fetched one after the other by following cursors, the table being ts[i] at page i. */
  ghost predicate Follow(srt: Sorting, ts: seq<seq<Row>>, limits: seq<nat>, ps: seq<Page>) {
    && |ts| == |limits| == |ps|
    && (forall i :: 0 <= i < |ps| ==> limits[i] >= 1 && ps[i] == PageOf(srt, ts[i], CursorOf(ps, i), limits[i]))
    && (forall i :: 0 <= i < |ps| - 1 ==> ps[i].next.Some?)
  }

  /** Until there is no next cursor. */
  ghost predicate Walk(srt: Sorting, ts: seq<seq<Row>>, limits: seq<nat>, ps: seq<Page>) {
    Follow(srt, ts, limits, ps) && |ps| > 0 && ps[|ps| - 1].next.None?
  }

  lemma FollowLengths(srt: Sorting, ts: seq<seq<Row>>, limits: seq<nat>, ps: seq<Page>)
    requires Follow(srt, ts, limits, ps)
    ensures |ts| == |limits| == |ps|
  {}

  lemma FollowAt(srt: Sorting, ts: seq<seq<Row>>, limits: seq<nat>, ps: seq<Page>, i: nat)
    requires Follow(srt, ts, limits, ps) && i < |ps|
    ensures |ts| == |limits| == |ps| && limits[i] >= 1 && ps[i] == PageOf(srt, ts[i], CursorOf(ps, i), limits[i])
    ensures i < |ps| - 1 ==> ps[i].next.Some?
  {}

  lemma FollowOn(srt: Sorting, ts: seq<seq<Row>>, limits: seq<nat>, ps: seq<Page>, table: seq<Row>, limit: nat)
    requires Follow(srt, ts, limits, ps) && limit >= 1 && (ps != [] ==> ps[|ps| - 1].next.Some?)
    ensures Follow(srt, ts + [table], limits + [limit], ps + [PageOf(srt, table, CursorOf(ps, |ps|), limit)])
  {
    hide PageOf;
    var ps' := ps + [PageOf(srt, table, CursorOf(ps, |ps|), limit)];
    forall i | 0 <= i < |ps'|
      ensures CursorOf(ps', i) == CursorOf(ps, i)
    {}
  }

  /** The next cursor is behind this one, so it lets less pass. */
  lemma NextBehind(srt: Sorting, table: seq<Row>, cur: Maybe<Row>, limit: nat, x: Row)
    requires Distinct(table) && limit >= 1 && PageOf(srt, table, cur, limit).next.Some?
    ensures Passes(srt, PageOf(srt, table, cur, limit).next, x) ==> Passes(srt, cur, x)
  {
    var all := Ordered(srt, After(srt, cur, table));
    var c := all[limit - 1];
    assert c in all;
    Listed(srt, table, cur, c);
    if cur.Some? && Behind(srt, c, x) {
      BehindTransitive(srt, cur.value, c, x);
    }
  }

  lemma {:induction false} CursorsAdvance(srt: Sorting, ts: seq<seq<Row>>, limits: seq<nat>, ps: seq<Page>, i: nat, j: nat, x: Row)
    requires Walk(srt, ts, limits, ps) && i <= j < |ps| && Passes(srt, CursorOf(ps, j), x)
    requires forall k :: 0 <= k < |ts| ==> Distinct(ts[k])
    ensures Passes(srt, CursorOf(ps, i), x)
    decreases j
  {
    hide PageOf, Passes, Distinct;
    if i < j {
      NextBehind(srt, ts[j - 1], CursorOf(ps, j - 1), limits[j - 1], x);
      CursorsAdvance(srt, ts, limits, ps, i, j - 1, x);
    }
  }

  lemma {:induction false} FirstPage(srt: Sorting, ts: seq<seq<Row>>, limits: seq<nat>, ps: seq<Page>, x: Row, i: nat) returns (k: nat)
    requires Walk(srt, ts, limits, ps) && i < |ps| && Passes(srt, CursorOf(ps, i), x)
    ensures k < |ps| && Passes(srt, CursorOf(ps, k), x) && (ps[k].next.None? || !Behind(srt, ps[k].next.value, x))
    decreases |ps| - i
  {
    hide PageOf, Behind;
    if ps[i].next.None? || !Behind(srt, ps[i].next.value, x) {
      k := i;
    } else {
      k := FirstPage(srt, ts, limits, ps, x, i + 1);
    }
  }

  /** While issues come and go, one that is there at every page, with its place in the order unchanged, is listed on
      exactly one page. */
  lemma ListedOnce(srt: Sorting, ts: seq<seq<Row>>, limits: seq<nat>, ps: seq<Page>, x: Row) returns (k: nat)
    requires Walk(srt, ts, limits, ps) && forall i :: 0 <= i < |ts| ==> Distinct(ts[i]) && x in ts[i]
    ensures k < |ps| && x in ps[k].items && multiset(ps[k].items)[x] == 1
    ensures forall j :: 0 <= j < |ps| && j != k ==> x !in ps[j].items
  {
    k := FirstPage(srt, ts, limits, ps, x, 0);
    OnPage(srt, ts[k], CursorOf(ps, k), limits[k], x);
    OnceOnPage(srt, ts[k], CursorOf(ps, k), limits[k], x);
    forall j | 0 <= j < |ps| && j != k
      ensures x !in ps[j].items
    {
      OnPage(srt, ts[j], CursorOf(ps, j), limits[j], x);
      if x in ps[j].items {
        NotTwice(srt, ts, limits, ps, x, if j < k then j else k, if j < k then k else j);
      }
    }
  }

  /** Only one page can have x behind its cursor and not behind the next. */
  lemma NotTwice(srt: Sorting, ts: seq<seq<Row>>, limits: seq<nat>, ps: seq<Page>, x: Row, i: nat, j: nat)
    requires Walk(srt, ts, limits, ps) && (forall k :: 0 <= k < |ts| ==> Distinct(ts[k])) && i < j < |ps|
    ensures !(Passes(srt, CursorOf(ps, j), x) && !Behind(srt, ps[i].next.value, x))
  {
    hide PageOf, Distinct, Behind;
    if Passes(srt, CursorOf(ps, j), x) {
      CursorsAdvance(srt, ts, limits, ps, i + 1, j, x);
    }
  }

  lemma OnceOnPage(srt: Sorting, table: seq<Row>, cur: Maybe<Row>, limit: nat, x: Row)
    requires Distinct(table) && limit >= 1
    ensures multiset(PageOf(srt, table, cur, limit).items)[x] <= 1
  {
    var all := Ordered(srt, After(srt, cur, table));
    Listed(srt, table, cur, x);
    if |all| > limit {
      assert all == all[..limit] + all[limit..];
    }
  }

  // ----- a table that does not change -----

  function Items(ps: seq<Page>): seq<Row> {
    if ps == [] then [] else Items(ps[..|ps| - 1]) + ps[|ps| - 1].items
  }

  /** What is left after a page is what the next cursor selects. */
  lemma RestOfList(srt: Sorting, table: seq<Row>, cur: Maybe<Row>, limit: nat)
    requires Distinct(table) && limit >= 1 && PageOf(srt, table, cur, limit).next.Some?
    ensures var p := PageOf(srt, table, cur, limit);
      Ordered(srt, After(srt, cur, table)) == p.items + Ordered(srt, After(srt, p.next, table))
  {
    hide Ordered, After, Behind, Distinct, PageOf, Before;
    var all, p := Ordered(srt, After(srt, cur, table)), PageOf(srt, table, cur, limit);
    PageParts(srt, table, cur, limit);
    var rest := Ordered(srt, After(srt, p.next, table));
    SameRest(srt, table, cur, limit);
    OrderedMeans(srt, After(srt, cur, table));
    OrderedMeans(srt, After(srt, p.next, table));
    TailInOrder(srt, all, limit);
    SameOrder(srt, rest, all[limit..]);
    assert all == all[..limit] + all[limit..];
  }

  lemma TailInOrder(srt: Sorting, all: seq<Row>, limit: nat)
    requires limit <= |all| && forall i, j :: 0 <= i < j < |all| ==> !Before(srt, all[j], all[i])
    ensures forall i, j :: 0 <= i < j < |all[limit..]| ==> !Before(srt, all[limit..][j], all[limit..][i])
  {
    hide Before;
  }

  lemma SameRest(srt: Sorting, table: seq<Row>, cur: Maybe<Row>, limit: nat)
    requires Distinct(table) && limit >= 1 && PageOf(srt, table, cur, limit).next.Some?
    ensures var all, p := Ordered(srt, After(srt, cur, table)), PageOf(srt, table, cur, limit);
      |all| > limit && multiset(Ordered(srt, After(srt, p.next, table))) == multiset(all[limit..])
  {
    hide Ordered, After, Distinct, PageOf;
    PageParts(srt, table, cur, limit);
    forall x
      ensures multiset(Ordered(srt, After(srt, PageOf(srt, table, cur, limit).next, table)))[x] ==
        multiset(Ordered(srt, After(srt, cur, table))[limit..])[x]
    {
      SameCount(srt, table, cur, limit, x);
    }
  }

  lemma PageParts(srt: Sorting, table: seq<Row>, cur: Maybe<Row>, limit: nat)
    requires limit >= 1 && PageOf(srt, table, cur, limit).next.Some?
    ensures var all := Ordered(srt, After(srt, cur, table)); |all| > limit && PageOf(srt, table, cur, limit).items == all[..limit]
  {}

  lemma SameCount(srt: Sorting, table: seq<Row>, cur: Maybe<Row>, limit: nat, x: Row)
    requires Distinct(table) && limit >= 1 && PageOf(srt, table, cur, limit).next.Some?
    ensures var all, p := Ordered(srt, After(srt, cur, table)), PageOf(srt, table, cur, limit);
      multiset(Ordered(srt, After(srt, p.next, table)))[x] == multiset(all[limit..])[x]
  {
    PageParts(srt, table, cur, limit);
    hide Ordered, After, Behind, Distinct, PageOf, Before;
    var all, p := Ordered(srt, After(srt, cur, table)), PageOf(srt, table, cur, limit);
    OrderedMeans(srt, After(srt, cur, table));
    OrderedMeans(srt, After(srt, p.next, table));
    AfterCount(srt, cur, table, x);
    AfterCount(srt, p.next, table, x);
    OnPage(srt, table, cur, limit, x);
    NextBehind(srt, table, cur, limit, x);
    OnceOnPage(srt, table, cur, limit, x);
    Listed(srt, table, cur, x);
    CountSplit(all, limit, x);
    InMultiset(p.items, x);
    DistinctOnce(table, x);
  }

  lemma CountSplit<T>(xs: seq<T>, n: nat, x: T)
    requires n <= |xs|
    ensures multiset(xs)[x] == multiset(xs[..n])[x] + multiset(xs[n..])[x]
  {
    assert xs == xs[..n] + xs[n..];
  }

  lemma {:induction false} WalkUpTo(srt: Sorting, ts: seq<seq<Row>>, limits: seq<nat>, ps: seq<Page>, table: seq<Row>, i: nat)
    requires Follow(srt, ts, limits, ps) && Distinct(table) && (forall k :: 0 <= k < |ts| ==> ts[k] == table) && i < |ps|
    ensures Ordered(srt, After(srt, None, table)) == Items(ps[..i]) + Ordered(srt, After(srt, CursorOf(ps, i), table))
  {
    hide PageOf, Distinct, Ordered, After;
    if i > 0 {
      WalkUpTo(srt, ts, limits, ps, table, i - 1);
      RestOfList(srt, table, CursorOf(ps, i - 1), limits[i - 1]);
      assert ps[..i][..i - 1] == ps[..i - 1];
    }
  }

  lemma {:induction false} AllPass(srt: Sorting, table: seq<Row>)
    ensures After(srt, None, table) == table
  {
    if table != [] {
      AllPass(srt, table[..|table| - 1]);
    }
  }

  /** Following the cursors with any limits lists every row of a table exactly once, in order. */
  lemma WalkListsAll(srt: Sorting, ts: seq<seq<Row>>, limits: seq<nat>, ps: seq<Page>, table: seq<Row>)
    requires Walk(srt, ts, limits, ps) && Distinct(table) && forall k :: 0 <= k < |ts| ==> ts[k] == table
    ensures Items(ps) == Ordered(srt, table)
  {
    hide PageOf, Ordered, After, Distinct;
    var n := |ps| - 1;
    WalkUpTo(srt, ts, limits, ps, table, n);
    AllPass(srt, table);
    LastPage(srt, table, CursorOf(ps, n), limits[n]);
  }

  /** All pages together are sorted and have exactly the rows of the table. */
  lemma WalkSorted(srt: Sorting, ts: seq<seq<Row>>, limits: seq<nat>, ps: seq<Page>, table: seq<Row>)
    requires Walk(srt, ts, limits, ps) && Distinct(table) && forall k :: 0 <= k < |ts| ==> ts[k] == table
    ensures Sorted(srt, Items(ps)) && multiset(Items(ps)) == multiset(table)
  {
    hide Sorted, Distinct, Before, Walk;
    WalkListsAll(srt, ts, limits, ps, table);
    AllPass(srt, table);
    ListSorted(srt, table, None);
    OrderedMeans(srt, table);
  }

  /** Every page with a next cursor has a row, so no more pages can be followed than the table has rows, except the first. */
  lemma PagesEnd(srt: Sorting, ts: seq<seq<Row>>, limits: seq<nat>, ps: seq<Page>, table: seq<Row>)
    requires Follow(srt, ts, limits, ps) && Distinct(table) && forall k :: 0 <= k < |ts| ==> ts[k] == table
    ensures |ps| <= 1 || |ps| <= |table|
  {
    hide PageOf, Ordered, After, Distinct, Follow;
    FollowLengths(srt, ts, limits, ps);
    if |ps| > 1 {
      var n := |ps| - 1;
      FollowAt(srt, ts, limits, ps, n - 1);
      WalkUpTo(srt, ts, limits, ps, table, n);
      ItemsGrow(srt, ts, limits, ps, n - 1);
      RowsFrom(srt, table, CursorOf(ps, n - 1), limits[n - 1]);
      assert ps[..n][..n - 1] == ps[..n - 1];
      AllPass(srt, table);
      OrderedMeans(srt, table);
    }
  }

  lemma {:induction false} ItemsGrow(srt: Sorting, ts: seq<seq<Row>>, limits: seq<nat>, ps: seq<Page>, n: nat)
    requires Follow(srt, ts, limits, ps) && n < |ps|
    ensures |Items(ps[..n])| >= n
  {
    hide PageOf, Follow;
    FollowLengths(srt, ts, limits, ps);
    if n > 0 {
      ItemsGrow(srt, ts, limits, ps, n - 1);
      FollowAt(srt, ts, limits, ps, n - 1);
      assert ps[..n][..n - 1] == ps[..n - 1];
      PageParts(srt, ts[n - 1], CursorOf(ps, n - 1), limits[n - 1]);
    }
  }

  /** Behind a page with a next cursor there is at least one more row. */
  lemma RowsFrom(srt: Sorting, table: seq<Row>, cur: Maybe<Row>, limit: nat)
    requires Distinct(table) && limit >= 1 && PageOf(srt, table, cur, limit).next.Some?
    ensures |PageOf(srt, table, cur, limit).items| >= 1
    ensures |Ordered(srt, After(srt, PageOf(srt, table, cur, limit).next, table))| >= 1
  {
    hide PageOf, Ordered, After, Distinct;
    PageParts(srt, table, cur, limit);
    RestOfList(srt, table, cur, limit);
  }

  /** So a client that follows the cursors comes to the end, whatever limits it chooses. */
  lemma {:induction false} WalkEnds(srt: Sorting, table: seq<Row>, limit: nat -> nat, ps0: seq<Page>) returns (ps: seq<Page>)
    requires Distinct(table) && forall i :: limit(i) >= 1
    requires Follow(srt, Copies(table, |ps0|), Limits(limit, |ps0|), ps0) && (ps0 != [] ==> ps0[|ps0| - 1].next.Some?)
    ensures Walk(srt, Copies(table, |ps|), Limits(limit, |ps|), ps) && ps0 <= ps
    decreases |table| + 1 - |ps0|
  {
    hide PageOf, Distinct, Follow, CursorOf;
    PagesEnd(srt, Copies(table, |ps0|), Limits(limit, |ps0|), ps0, table);
    ps := ps0 + [PageOf(srt, table, CursorOf(ps0, |ps0|), limit(|ps0|))];
    FollowOn(srt, Copies(table, |ps0|), Limits(limit, |ps0|), ps0, table, limit(|ps0|));
    assert Copies(table, |ps0|) + [table] == Copies(table, |ps|) && Limits(limit, |ps0|) + [limit(|ps0|)] == Limits(limit, |ps|);
    if ps[|ps0|].next.Some? {
      ps := WalkEnds(srt, table, limit, ps);
    }
  }

  function Copies(table: seq<Row>, n: nat): seq<seq<Row>> {
    seq(n, i => table)
  }

  function Limits(limit: nat -> nat, n: nat): seq<nat> {
    seq(n, i requires 0 <= i => limit(i))
  }

  lemma LastPage(srt: Sorting, table: seq<Row>, cur: Maybe<Row>, limit: nat)
    requires limit >= 1 && PageOf(srt, table, cur, limit).next.None?
    ensures PageOf(srt, table, cur, limit).items == Ordered(srt, After(srt, cur, table))
  {}

  // ----- the cursor's text -----

  const BAR: Byte := 124

  /** The fields of a text, separated by bars. */
  function Split(t: seq<Byte>): (fs: seq<seq<Byte>>)
    ensures fs != []
  {
    if t == [] then [[]]
    else
      var n := |t| - 1;
      var fs := Split(t[..n]);
      if t[n] == BAR then fs + [[]] else fs[..|fs| - 1] + [fs[|fs| - 1] + [t[n]]]
  }

  lemma {:induction false} SplitField(t: seq<Byte>, f: seq<Byte>)
    requires BAR !in f
    ensures Split(t + f) == Split(t)[..|Split(t)| - 1] + [Split(t)[|Split(t)| - 1] + f]
  {
    var fs := Split(t);
    if f == [] {
      assert t + f == t && fs[|fs| - 1] + f == fs[|fs| - 1];
    } else {
      var n := |f| - 1;
      SplitField(t, f[..n]);
      assert (t + f)[..|t| + n] == t + f[..n];
      assert f == f[..n] + [f[n]];
      assert fs[|fs| - 1] + f == fs[|fs| - 1] + f[..n] + [f[n]];
    }
  }

  function CursorText(v: seq<Byte>, key: seq<Byte>, num: seq<Byte>): seq<Byte> {
    v + [BAR] + key + [BAR] + num
  }

  /** Splitting the text of a cursor gives back its three fields. */
  lemma CursorRoundTrip(v: seq<Byte>, key: seq<Byte>, num: seq<Byte>)
    requires BAR !in v && BAR !in key && BAR !in num
    ensures Split(CursorText(v, key, num)) == [v, key, num]
  {
    SplitField([], v);
    assert [] + v == v;
    assert Split(v) == [v];
    var a := v + [BAR];
    assert a[..|v|] == v;
    assert Split(a) == [v, []];
    SplitField(a, key);
    assert [] + key == key;
    var b := a + key + [BAR];
    assert b[..|a + key|] == a + key;
    assert Split(b) == [v, key, []];
    SplitField(b, num);
    assert [] + num == num;
  }
}
