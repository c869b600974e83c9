/** The workout-id enumerator: the pages of `/api/user/{id}/workouts` are
    fetched as 0, 1, 2, ... until the first page whose `data` is empty.
    The provider's answers are an input: `pages[n]` is the `data` array of
    page n, and every page past the end of `pages` is empty. */
module Pagination {
  import opened Calendar

  /** The `/api/me` response: the rider's id and display name. */
  datatype Me = Me(id: string, name: string)

  /** One element of a workout-list page. */
  datatype ListItem = ListItem(id: string, startTime: int)

  type Pages = seq<seq<ListItem>>

  /** The `data` array the provider answers for page `n`. */
  function Page(pages: Pages, n: nat): seq<ListItem> {
    if n < |pages| then pages[n] else []
  }

  /** The number of the first empty page: the last page requested. */
  function FirstEmpty(pages: Pages): (k: nat)
    ensures k <= |pages| && Page(pages, k) == []
    ensures forall j :: 0 <= j < k ==> pages[j] != []
  {
    if pages == [] || pages[0] == [] then 0
    else
      var k := 1 + FirstEmpty(pages[1..]);
      assert forall j :: 1 <= j < k ==> pages[j] == pages[1..][j - 1];
      k
  }

  /** The page numbers requested, in order: 0, 1, ..., k. */
  function Requests(k: nat): (r: seq<nat>)
    ensures |r| == k + 1 && forall i :: 0 <= i <= k ==> r[i] == i
  {
    seq(k + 1, i => i)
  }

  /** Items of pages in page order, then in-page order. */
  function Flatten(ps: Pages): seq<ListItem> {
    if ps == [] then [] else Flatten(ps[..|ps| - 1]) + ps[|ps| - 1]
  }

  function Ids(items: seq<ListItem>): (r: seq<string>)
    ensures |r| == |items| && forall i :: 0 <= i < |items| ==> r[i] == items[i].id
  {
    seq(|items|, i requires 0 <= i < |items| => items[i].id)
  }

  /** The items whose UTC start date is `day`, in their original order. */
  function OnDay(items: seq<ListItem>, day: int): seq<ListItem> {
    if items == [] then []
    else (if DayOf(items[0].startTime) == day then [items[0]] else []) + OnDay(items[1..], day)
  }

  /** The pages that hold data: those before the first empty one. */
  function Fetched(pages: Pages): Pages {
    pages[..FirstEmpty(pages)]
  }

  /** What the unfiltered enumerator collects. */
  function AllIds(pages: Pages): seq<string> {
    Ids(Flatten(Fetched(pages)))
  }

  /** What the date-filtered enumerator collects. */
  function IdsOnDay(pages: Pages, day: int): seq<string> {
    Ids(OnDay(Flatten(Fetched(pages)), day))
  }

  /** `a` is `b` with some elements deleted, the rest kept in order. */
  ghost predicate IsSubsequence<T>(a: seq<T>, b: seq<T>)
    decreases |b|
  {
    if a == [] then true
    else if b == [] then false
    else (a[0] == b[0] && IsSubsequence(a[1..], b[1..])) || IsSubsequence(a, b[1..])
  }

  // ---- lemmas ----

  /**
   * The first empty page is the only page number k with every page before k
   * non-empty and page k empty: the loop can stop nowhere else.
   */
  lemma FirstEmptyUnique(pages: Pages, k: nat)
    requires Page(pages, k) == []
    requires forall j :: 0 <= j < k ==> Page(pages, j) != []
    ensures k == FirstEmpty(pages)
  {
  }

  lemma IdsAppend(a: seq<ListItem>, b: seq<ListItem>)
    ensures Ids(a + b) == Ids(a) + Ids(b)
  {
  }

  lemma {:induction false} OnDayAppend(a: seq<ListItem>, b: seq<ListItem>, day: int)
    ensures OnDay(a + b, day) == OnDay(a, day) + OnDay(b, day)
  {
    if a == [] {
      assert a + b == b;
    } else {
      var h := if DayOf(a[0].startTime) == day then [a[0]] else [];
      assert (a + b)[0] == a[0];
      assert (a + b)[1..] == a[1..] + b;
      assert OnDay(a + b, day) == h + OnDay(a[1..] + b, day);
      OnDayAppend(a[1..], b, day);
      assert OnDay(a, day) == h + OnDay(a[1..], day);
      assert h + (OnDay(a[1..], day) + OnDay(b, day)) == (h + OnDay(a[1..], day)) + OnDay(b, day);
    }
  }

  lemma FlattenSnoc(ps: Pages, k: nat)
    requires k < |ps|
    ensures Flatten(ps[..k + 1]) == Flatten(ps[..k]) + ps[k]
  {
    assert ps[..k + 1][..k] == ps[..k];
  }

  /** One more page: the ids of its items on `day` are appended. */
  lemma OnDayStep(pages: Pages, k: nat, day: int)
    requires k < |pages|
    ensures Ids(OnDay(Flatten(pages[..k + 1]), day)) == Ids(OnDay(Flatten(pages[..k]), day)) + Ids(OnDay(pages[k], day))
  {
    FlattenSnoc(pages, k);
    OnDayAppend(Flatten(pages[..k]), pages[k], day);
    IdsAppend(OnDay(Flatten(pages[..k]), day), OnDay(pages[k], day));
  }

  /** One more page: the ids of all its items are appended. */
  lemma IdsStep(pages: Pages, k: nat)
    requires k < |pages|
    ensures Ids(Flatten(pages[..k + 1])) == Ids(Flatten(pages[..k])) + Ids(pages[k])
  {
    FlattenSnoc(pages, k);
    IdsAppend(Flatten(pages[..k]), pages[k]);
  }

  /**
   * An item is kept by the date filter exactly when its UTC start date is
   * the filter day: equal day numbers, no range matching.
   */
  lemma {:induction false} OnDayMembership(items: seq<ListItem>, day: int, x: ListItem)
    ensures x in OnDay(items, day) <==> x in items && DayOf(x.startTime) == day
  {
    if items != [] {
      assert items == [items[0]] + items[1..];
      OnDayMembership(items[1..], day, x);
    }
  }

  /** The kept items appear in the same order as in the pages. */
  lemma {:induction false} OnDaySubsequence(items: seq<ListItem>, day: int)
    ensures IsSubsequence(Ids(OnDay(items, day)), Ids(items))
  {
    if items != [] {
      OnDaySubsequence(items[1..], day);
      var rest := OnDay(items[1..], day);
      if DayOf(items[0].startTime) == day {
        assert OnDay(items, day) == [items[0]] + rest;
        assert Ids(OnDay(items, day))[1..] == Ids(rest);
      } else {
        assert OnDay(items, day) == rest;
      }
      assert Ids(items)[1..] == Ids(items[1..]);
    }
  }

  /** The filtered ids are an order-preserving subsequence of all page ids. */
  lemma IdsOnDaySubsequence(pages: Pages, day: int)
    ensures IsSubsequence(IdsOnDay(pages, day), AllIds(pages))
  {
    OnDaySubsequence(Flatten(Fetched(pages)), day);
  }

  /**
   * Page order: when page 0 holds data its ids come first, followed by what
   * the enumeration of the remaining pages collects; when page 0 is empty
   * nothing is collected.
   */
  lemma {:induction false} AllIdsUnfold(pages: Pages)
    ensures pages == [] || pages[0] == [] ==> AllIds(pages) == []
    ensures pages != [] && pages[0] != [] ==> AllIds(pages) == Ids(pages[0]) + AllIds(pages[1..])
  {
    if pages != [] && pages[0] != [] {
      var k := FirstEmpty(pages[1..]);
      assert FirstEmpty(pages) == k + 1;
      FlattenCons(pages[0], pages[1..][..k]);
      assert Fetched(pages) == [pages[0]] + Fetched(pages[1..]);
      IdsAppend(pages[0], Flatten(Fetched(pages[1..])));
    }
  }

  lemma {:induction false} FlattenCons(p: seq<ListItem>, ps: Pages)
    ensures Flatten([p] + ps) == p + Flatten(ps)
    decreases |ps|
  {
    if ps == [] {
      assert [p] + ps == [p];
      assert [p][..0] == [];
    } else {
      var n := |ps|;
      assert ([p] + ps)[..n] == [p] + ps[..n - 1];
      FlattenCons(p, ps[..n - 1]);
    }
  }

  /**
   * Pages after the first empty one are never looked at: replacing them by
   * anything leaves both enumerations unchanged.
   */
  lemma LaterPagesIgnored(pages: Pages, rest: Pages, day: int)
    ensures var q := Fetched(pages) + [[]] + rest;
      AllIds(q) == AllIds(pages) && IdsOnDay(q, day) == IdsOnDay(pages, day)
  {
    var k := FirstEmpty(pages);
    var q := Fetched(pages) + [[]] + rest;
    assert Page(q, k) == [];
    assert forall j :: 0 <= j < k ==> Page(q, j) == pages[j];
    FirstEmptyUnique(q, k);
    assert Fetched(q) == Fetched(pages);
  }

  /** The number of ids collected is the number of items on the fetched pages. */
  function TotalItems(ps: Pages): nat {
    if ps == [] then 0 else TotalItems(ps[..|ps| - 1]) + |ps[|ps| - 1]|
  }

  lemma {:induction false} FlattenLength(ps: Pages)
    ensures |Flatten(ps)| == TotalItems(ps)
  {
    if ps != [] {
      FlattenLength(ps[..|ps| - 1]);
    }
  }

  /** Two full pages of 100 followed by an empty page give exactly 200 ids. */
  lemma TwoFullPages(p0: seq<ListItem>, p1: seq<ListItem>, rest: Pages)
    requires |p0| == 100 && |p1| == 100
    ensures |AllIds([p0, p1, []] + rest)| == 200
  {
    var pages := [p0, p1, []] + rest;
    FirstEmptyUnique(pages, 2);
    assert Fetched(pages) == [p0, p1];
    FlattenLength([p0, p1]);
    assert [p0, p1][..1] == [p0];
    assert [p0][..0] == [];
    assert TotalItems([p0]) == 100;
    assert TotalItems([p0, p1]) == 200;
  }
}
