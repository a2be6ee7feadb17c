/** `searchWindow`: commits dated in a window, through a paged service that answers at most 900
results per query, with a cache of finished windows.

Times are epoch milliseconds; shas are numbers.  The service searches a fixed corpus; `lost`
says which results of a request it left out, in which case it flags them as incomplete. */
module CommitSearch {
  import opened Optional

  const SEARCH_WINDOW_LIMIT := 900
  const MIN_WINDOW_MS := 60_000
  const PER_PAGE := 100

  type Sha = int

  /** A search result; `details` is what `ingestSearchItems` copies into the cache. */
  datatype Item = Item(sha: Sha, date: int, details: string)

  datatype Request = Request(start: int, end: int, page: nat)

  datatype Service = Service(corpus: seq<Item>, lost: Request -> set<Sha>)

  datatype Response = Response(incomplete: bool, totalCount: nat, items: seq<Item>)

  datatype CachedCommit = CachedCommit(sha: Sha, details: string)

  datatype Stats = Stats(additions: int, deletions: int, total: int)

  datatype WindowEntry = WindowEntry(shas: set<Sha>, totalCount: nat)

  /** Finished windows by their start and end. */
  type Windows = map<(int, int), WindowEntry>

  // ----- the service -----

  function Matches(corpus: seq<Item>, start: int, end: int): (r: seq<Item>)
    ensures forall x :: x in r <==> x in corpus && start <= x.date <= end
  {
    if |corpus| == 0 then []
    else
      var last := corpus[|corpus| - 1];
      assert corpus == corpus[..|corpus| - 1] + [last];
      Matches(corpus[..|corpus| - 1], start, end) + if start <= last.date <= end then [last] else []
  }

  function Upto(n: nat, i: nat): nat {
    if i <= n then i else n
  }

  function PageOf(items: seq<Item>, page: nat): seq<Item> {
    items[Upto(|items|, (if page == 0 then 0 else page - 1) * PER_PAGE)..Upto(|items|, page * PER_PAGE)]
  }

  function Kept(items: seq<Item>, lost: set<Sha>): (r: seq<Item>)
    ensures forall x :: x in r <==> x in items && x.sha !in lost
  {
    if |items| == 0 then []
    else
      var last := items[|items| - 1];
      assert items == items[..|items| - 1] + [last];
      Kept(items[..|items| - 1], lost) + if last.sha in lost then [] else [last]
  }

  function Answer(service: Service, request: Request): Response {
    var all := Matches(service.corpus, request.start, request.end);
    Response(service.lost(request) != {}, |all|, Kept(PageOf(all, request.page), service.lost(request)))
  }

  function ShasOf(items: seq<Item>): set<Sha> {
    set x | x in items :: x.sha
  }

  /** The shas a search for the window is to find. */
  function Dated(corpus: seq<Item>, start: int, end: int): set<Sha> {
    ShasOf(Matches(corpus, start, end))
  }

  function Total(corpus: seq<Item>, start: int, end: int, shas: set<Sha>): nat {
    var n := |Matches(corpus, start, end)|;
    if n > SEARCH_WINDOW_LIMIT then |shas| else n
  }

  ghost predicate DistinctShas(items: seq<Item>) {
    forall i, j :: 0 <= i < j < |items| ==> items[i].sha != items[j].sha
  }

  // ----- halving -----

  function Midpoint(start: int, end: int): int {
    start + (end - start) / 2
  }

  /** The halves share no millisecond and leave none out; both are shorter, and about equally long. */
  lemma HalvesPartition(corpus: seq<Item>, start: int, end: int)
    requires end - start > MIN_WINDOW_MS
    ensures var m := Midpoint(start, end);
      && 0 <= m - start < end - start && 0 <= end - (m + 1) < end - start
      && end - (m + 1) <= m - start <= end - m
      && Dated(corpus, start, m) + Dated(corpus, m + 1, end) == Dated(corpus, start, end)
      && forall x :: !(x in Matches(corpus, start, m) && x in Matches(corpus, m + 1, end))
  {
    var m := Midpoint(start, end);
    forall s ensures s in Dated(corpus, start, m) + Dated(corpus, m + 1, end) <==> s in Dated(corpus, start, end) {
      if s in Dated(corpus, start, end) {
        var x :| x in Matches(corpus, start, end) && x.sha == s;
        assert x in Matches(corpus, start, m) || x in Matches(corpus, m + 1, end);
      }
      if s in Dated(corpus, start, m) {
        var x :| x in Matches(corpus, start, m) && x.sha == s;
        assert x in Matches(corpus, start, end);
      }
      if s in Dated(corpus, m + 1, end) {
        var x :| x in Matches(corpus, m + 1, end) && x.sha == s;
        assert x in Matches(corpus, start, end);
      }
    }
  }

  /** Does a search of the window complete, given these cached windows? */
  ghost predicate Splittable(service: Service, cached: Windows, start: int, end: int)
    decreases end - start
  {
    || (start, end) in cached
    || (&& service.lost(Request(start, end, 1)) == {}
        && (|Matches(service.corpus, start, end)| > SEARCH_WINDOW_LIMIT ==>
            && end - start > MIN_WINDOW_MS
            && Splittable(service, cached, start, Midpoint(start, end))
            && Splittable(service, cached, Midpoint(start, end) + 1, end)))
  }

  // ----- pages -----

  /** `Math.ceil(total / 100)` */
  function PageCount(total: nat): nat {
    (total + PER_PAGE - 1) / PER_PAGE
  }

  lemma NextPage(all: seq<Item>, page: nat)
    requires page >= 1
    ensures ShasOf(all[..Upto(|all|, (page - 1) * PER_PAGE)]) + ShasOf(PageOf(all, page)) == ShasOf(all[..Upto(|all|, page * PER_PAGE)])
  {
    var a, b := Upto(|all|, (page - 1) * PER_PAGE), Upto(|all|, page * PER_PAGE);
    assert all[..b] == all[..a] + all[a..b];
  }

  lemma PageWithin(all: seq<Item>, page: nat, lost: set<Sha>)
    ensures ShasOf(Kept(PageOf(all, page), lost)) <= ShasOf(PageOf(all, page)) <= ShasOf(all)
  {
    forall x | x in PageOf(all, page) ensures x in all {
    }
  }

  // ----- what the pages show, and what they lose -----

  /** The shas on the first pages of a window, as the service answers them. */
  function Shown(service: Service, start: int, end: int, pages: nat): set<Sha> {
    if pages == 0 then {}
    else Shown(service, start, end, pages - 1) + ShasOf(Answer(service, Request(start, end, pages)).items)
  }

  /** The first page is always read. */
  function PagesRead(total: nat): nat {
    if PageCount(total) == 0 then 1 else PageCount(total)
  }

  ghost predicate PageWhole(service: Service, start: int, end: int, page: nat) {
    forall s :: s in ShasOf(PageOf(Matches(service.corpus, start, end), page)) ==> s !in service.lost(Request(start, end, page))
  }

  /** No page after the first of an unsplit window loses anything it holds. */
  ghost predicate LaterPagesWhole(service: Service, start: int, end: int) {
    forall page :: 2 <= page <= PageCount(|Matches(service.corpus, start, end)|) ==> PageWhole(service, start, end, page)
  }

  /** Nothing that a search of the window looks at lacks anything: the cached windows that it takes
      over hold all their commits, and no page that it reads loses any.  Only pages after the first
      matter: the first page's flag is checked. */
  ghost predicate NothingLost(service: Service, cached: Windows, start: int, end: int)
    decreases end - start
  {
    if (start, end) in cached then cached[(start, end)].shas == Dated(service.corpus, start, end)
    else if |Matches(service.corpus, start, end)| <= SEARCH_WINDOW_LIMIT then LaterPagesWhole(service, start, end)
    else
      end - start > MIN_WINDOW_MS ==>
        NothingLost(service, cached, start, Midpoint(start, end)) && NothingLost(service, cached, Midpoint(start, end) + 1, end)
  }

  /** The windows that a search of this one may look up or store. */
  predicate Within(key: (int, int), start: int, end: int) {
    key == (start, end) || start <= key.0 <= key.1 <= end
  }

  predicate SameAt(a: Windows, b: Windows, key: (int, int)) {
    (key in a <==> key in b) && (key in a ==> a[key] == b[key])
  }

  lemma {:induction false} OnlyWithin(service: Service, a: Windows, b: Windows, start: int, end: int)
    requires forall key :: Within(key, start, end) ==> SameAt(a, b, key)
    ensures Splittable(service, a, start, end) <==> Splittable(service, b, start, end)
    ensures NothingLost(service, a, start, end) <==> NothingLost(service, b, start, end)
    decreases end - start
  {
    hide Matches, Dated, LaterPagesWhole;
    assert SameAt(a, b, (start, end));
    if (start, end) !in a && end - start > MIN_WINDOW_MS {
      OnlyWithin(service, a, b, start, Midpoint(start, end));
      OnlyWithin(service, a, b, Midpoint(start, end) + 1, end);
    }
  }

  lemma {:induction false} ShownWithin(service: Service, start: int, end: int, pages: nat)
    ensures Shown(service, start, end, pages) <= Dated(service.corpus, start, end)
  {
    hide Matches, Kept, PageOf, ShasOf;
    if pages > 0 {
      ShownWithin(service, start, end, pages - 1);
      PageWithin(Matches(service.corpus, start, end), pages, service.lost(Request(start, end, pages)));
    }
  }

  lemma KeptIfWhole(items: seq<Item>, lost: set<Sha>)
    ensures ShasOf(items) !! lost ==> ShasOf(Kept(items, lost)) == ShasOf(items)
    ensures ShasOf(Kept(items, lost)) !! lost
  {
    if ShasOf(items) !! lost {
      forall s | s in ShasOf(items) ensures s in ShasOf(Kept(items, lost)) {
        var x :| x in items && x.sha == s;
        assert x in Kept(items, lost);
      }
    }
  }

  lemma {:induction false} WholePagesShowAll(service: Service, start: int, end: int, pages: nat)
    requires forall page :: 1 <= page <= pages ==> PageWhole(service, start, end, page)
    ensures var all := Matches(service.corpus, start, end);
      Shown(service, start, end, pages) == ShasOf(all[..Upto(|all|, pages * PER_PAGE)])
  {
    hide Matches, Kept, PageOf;
    if pages > 0 {
      var all := Matches(service.corpus, start, end);
      WholePagesShowAll(service, start, end, pages - 1);
      NextPage(all, pages);
      assert PageWhole(service, start, end, pages);
      KeptIfWhole(PageOf(all, pages), service.lost(Request(start, end, pages)));
    }
  }

  lemma OnPage(all: seq<Item>, page: nat, s: Sha) returns (a: nat)
    requires page >= 1 && s in ShasOf(PageOf(all, page))
    ensures a < |all| && (page - 1) * PER_PAGE <= a < page * PER_PAGE && all[a].sha == s
  {
    var x :| x in PageOf(all, page) && x.sha == s;
    var i :| 0 <= i < |PageOf(all, page)| && PageOf(all, page)[i] == x;
    a := (page - 1) * PER_PAGE + i;
  }

  /** With distinct shas, what is on one page is on no other. */
  lemma PagesApart(all: seq<Item>, p: nat, q: nat, s: Sha)
    requires DistinctShas(all) && 1 <= p && 1 <= q && p != q && s in ShasOf(PageOf(all, p))
    ensures s !in ShasOf(PageOf(all, q))
  {
    hide PageOf;
    var a := OnPage(all, p, s);
    if s in ShasOf(PageOf(all, q)) {
      var b := OnPage(all, q, s);
    }
  }

  lemma {:induction false} LostStaysLost(service: Service, start: int, end: int, p: nat, s: Sha, pages: nat)
    requires DistinctShas(Matches(service.corpus, start, end)) && 1 <= p
    requires s in ShasOf(PageOf(Matches(service.corpus, start, end), p)) && s in service.lost(Request(start, end, p))
    ensures s !in Shown(service, start, end, pages)
  {
    hide Matches, PageOf, DistinctShas, Kept, ShasOf;
    if pages > 0 {
      LostStaysLost(service, start, end, p, s, pages - 1);
      var all := Matches(service.corpus, start, end);
      KeptIfWhole(PageOf(all, pages), service.lost(Request(start, end, pages)));
      PageWithin(all, pages, service.lost(Request(start, end, pages)));
      if pages != p {
        PagesApart(all, p, pages, s);
      }
    }
  }

  /** An unsplit window shows all its shas if no later page loses one; with distinct shas, only then. */
  lemma ShownExactly(service: Service, start: int, end: int)
    requires service.lost(Request(start, end, 1)) == {}
    requires |Matches(service.corpus, start, end)| <= SEARCH_WINDOW_LIMIT
    ensures var all := Matches(service.corpus, start, end);
      var shown := Shown(service, start, end, PagesRead(|all|));
      && (LaterPagesWhole(service, start, end) ==> shown == ShasOf(all))
      && (DistinctShas(all) && shown == ShasOf(all) ==> LaterPagesWhole(service, start, end))
  {
    hide Matches, PageOf, ShasOf, Kept, DistinctShas, Shown;
    var all := Matches(service.corpus, start, end);
    var pages := PagesRead(|all|);
    if LaterPagesWhole(service, start, end) {
      forall page | 1 <= page <= pages ensures PageWhole(service, start, end, page) {
      }
      WholePagesShowAll(service, start, end, pages);
      assert all[..Upto(|all|, pages * PER_PAGE)] == all;
    } else if DistinctShas(all) {
      var page :| 2 <= page <= PageCount(|all|) && !PageWhole(service, start, end, page);
      var s :| s in ShasOf(PageOf(all, page)) && s in service.lost(Request(start, end, page));
      LostStaysLost(service, start, end, page, s, pages);
      PageWithin(all, page, {});
    }
  }

  // ----- distinct shas -----

  lemma {:induction false} MatchesDistinct(corpus: seq<Item>, start: int, end: int)
    requires DistinctShas(corpus)
    ensures DistinctShas(Matches(corpus, start, end))
  {
    if |corpus| > 0 {
      var front, last := corpus[..|corpus| - 1], corpus[|corpus| - 1];
      MatchesDistinct(front, start, end);
      forall x | x in Matches(front, start, end) ensures x.sha != last.sha {
        assert x in front;
      }
    }
  }

  lemma HalvesApart(corpus: seq<Item>, start: int, end: int)
    requires DistinctShas(corpus)
    ensures Dated(corpus, start, Midpoint(start, end)) !! Dated(corpus, Midpoint(start, end) + 1, end)
  {
    hide Matches;
    var m := Midpoint(start, end);
    forall s | s in Dated(corpus, start, m) ensures s !in Dated(corpus, m + 1, end) {
      var x :| x in Matches(corpus, start, m) && x.sha == s;
      var i :| 0 <= i < |corpus| && corpus[i] == x;
      forall y | y in Matches(corpus, m + 1, end) ensures y.sha != s {
        var j :| 0 <= j < |corpus| && corpus[j] == y;
        assert i < j || j < i;
      }
    }
  }

  lemma ShownIsExact(service: Service, start: int, end: int)
    requires service.lost(Request(start, end, 1)) == {}
    requires |Matches(service.corpus, start, end)| <= SEARCH_WINDOW_LIMIT
    ensures var shown := Shown(service, start, end, PagesRead(|Matches(service.corpus, start, end)|));
      && (LaterPagesWhole(service, start, end) ==> shown == Dated(service.corpus, start, end))
      && (DistinctShas(service.corpus) && shown == Dated(service.corpus, start, end) ==> LaterPagesWhole(service, start, end))
  {
    hide Shown, LaterPagesWhole, Matches, ShasOf;
    ShownExactly(service, start, end);
    if DistinctShas(service.corpus) {
      MatchesDistinct(service.corpus, start, end);
    }
  }

  /** What the halves found is all there is if they lost nothing; with distinct shas, only then. */
  lemma HalvesExact(service: Service, start: int, end: int, left: set<Sha>, right: set<Sha>)
    requires |Matches(service.corpus, start, end)| > SEARCH_WINDOW_LIMIT && end - start > MIN_WINDOW_MS
    requires left <= Dated(service.corpus, start, Midpoint(start, end)) && right <= Dated(service.corpus, Midpoint(start, end) + 1, end)
    ensures left + right <= Dated(service.corpus, start, end)
    ensures left == Dated(service.corpus, start, Midpoint(start, end)) && right == Dated(service.corpus, Midpoint(start, end) + 1, end) ==>
      left + right == Dated(service.corpus, start, end)
    ensures DistinctShas(service.corpus) && left + right == Dated(service.corpus, start, end) ==>
      left == Dated(service.corpus, start, Midpoint(start, end)) && right == Dated(service.corpus, Midpoint(start, end) + 1, end)
  {
    HalvesPartition(service.corpus, start, end);
    hide Dated, Matches;
    if DistinctShas(service.corpus) && left + right == Dated(service.corpus, start, end) {
      HalvesApart(service.corpus, start, end);
      forall s | s in Dated(service.corpus, start, Midpoint(start, end)) ensures s in left {
        assert s in left + right;
      }
      forall s | s in Dated(service.corpus, Midpoint(start, end) + 1, end) ensures s in right {
        assert s in left + right;
      }
    }
  }

  /** With these windows cached, a search completes exactly if it can, and finds all that is dated
      in the window if nothing is lost; with distinct shas only then. */
  ghost predicate IsResult(service: Service, cached: Windows, start: int, end: int, found: Option<WindowEntry>) {
    && (found.Some? <==> Splittable(service, cached, start, end))
    && (found.Some? && NothingLost(service, cached, start, end) ==> found.value.shas == Dated(service.corpus, start, end))
    && (found.Some? && DistinctShas(service.corpus) && found.value.shas == Dated(service.corpus, start, end) ==>
        NothingLost(service, cached, start, end))
  }

  lemma CachedResult(service: Service, cached: Windows, start: int, end: int)
    requires (start, end) in cached
    ensures IsResult(service, cached, start, end, Some(cached[(start, end)]))
  {
  }

  lemma ThrownResult(service: Service, cached: Windows, start: int, end: int)
    requires (start, end) !in cached
    requires service.lost(Request(start, end, 1)) != {}
      || (|Matches(service.corpus, start, end)| > SEARCH_WINDOW_LIMIT && end - start <= MIN_WINDOW_MS)
    ensures IsResult(service, cached, start, end, None)
  {
  }

  lemma UnsplitIsRead(service: Service, cached: Windows, start: int, end: int)
    requires (start, end) !in cached && |Matches(service.corpus, start, end)| <= SEARCH_WINDOW_LIMIT
    ensures Splittable(service, cached, start, end) <==> service.lost(Request(start, end, 1)) == {}
    ensures NothingLost(service, cached, start, end) <==> LaterPagesWhole(service, start, end)
  {
  }

  lemma SplitsInHalves(service: Service, cached: Windows, start: int, end: int)
    requires (start, end) !in cached && |Matches(service.corpus, start, end)| > SEARCH_WINDOW_LIMIT
    ensures Splittable(service, cached, start, end) <==>
      && service.lost(Request(start, end, 1)) == {} && end - start > MIN_WINDOW_MS
      && Splittable(service, cached, start, Midpoint(start, end)) && Splittable(service, cached, Midpoint(start, end) + 1, end)
    ensures end - start > MIN_WINDOW_MS ==>
      (NothingLost(service, cached, start, end) <==>
       NothingLost(service, cached, start, Midpoint(start, end)) && NothingLost(service, cached, Midpoint(start, end) + 1, end))
  {
  }

  lemma UnsplitResult(service: Service, cached: Windows, start: int, end: int, entry: WindowEntry)
    requires (start, end) !in cached && service.lost(Request(start, end, 1)) == {}
    requires |Matches(service.corpus, start, end)| <= SEARCH_WINDOW_LIMIT
    requires entry.shas == Shown(service, start, end, PagesRead(|Matches(service.corpus, start, end)|))
    ensures IsResult(service, cached, start, end, Some(entry))
  {
    hide Splittable, NothingLost, Shown, Dated, Matches, DistinctShas, LaterPagesWhole;
    UnsplitIsRead(service, cached, start, end);
    ShownIsExact(service, start, end);
  }

  lemma HalfThrown(service: Service, cached: Windows, start: int, end: int)
    requires (start, end) !in cached && end - start > MIN_WINDOW_MS
    requires |Matches(service.corpus, start, end)| > SEARCH_WINDOW_LIMIT
    requires IsResult(service, cached, start, Midpoint(start, end), None)
      || IsResult(service, cached, Midpoint(start, end) + 1, end, None)
    ensures IsResult(service, cached, start, end, None)
  {
    hide Splittable, NothingLost;
    SplitsInHalves(service, cached, start, end);
  }

  lemma HalvesResult(service: Service, cached: Windows, start: int, end: int, left: WindowEntry, right: WindowEntry, entry: WindowEntry)
    requires (start, end) !in cached && end - start > MIN_WINDOW_MS && service.lost(Request(start, end, 1)) == {}
    requires |Matches(service.corpus, start, end)| > SEARCH_WINDOW_LIMIT && entry.shas == left.shas + right.shas
    requires left.shas <= Dated(service.corpus, start, Midpoint(start, end))
    requires right.shas <= Dated(service.corpus, Midpoint(start, end) + 1, end)
    requires IsResult(service, cached, start, Midpoint(start, end), Some(left))
    requires IsResult(service, cached, Midpoint(start, end) + 1, end, Some(right))
    ensures IsResult(service, cached, start, end, Some(entry)) && entry.shas <= Dated(service.corpus, start, end)
  {
    hide Splittable, NothingLost, Dated, Matches, DistinctShas;
    SplitsInHalves(service, cached, start, end);
    HalvesExact(service, start, end, left.shas, right.shas);
  }

  lemma ResultIsAll(service: Service, cached: Windows, start: int, end: int, entry: WindowEntry)
    requires IsResult(service, cached, start, end, Some(entry)) && NothingLost(service, cached, start, end)
    ensures entry.shas == Dated(service.corpus, start, end)
  {
  }

  ghost predicate SameOutside(a: Windows, b: Windows, start: int, end: int) {
    forall key :: !Within(key, start, end) ==> SameAt(a, b, key)
  }

  lemma NoneOutside(a: Windows, start: int, end: int)
    ensures SameOutside(a, a, start, end)
    ensures end - start > MIN_WINDOW_MS ==> SameOutside(a, a, Midpoint(start, end) + 1, end)
  {
  }

  lemma StoredWithin(a: Windows, b: Windows, start: int, end: int, entry: WindowEntry)
    requires SameOutside(a, b, start, end)
    ensures SameOutside(a, b[(start, end) := entry], start, end)
  {
  }

  lemma SameOutsideBoth(a: Windows, b: Windows, c: Windows, start: int, end: int)
    requires end - start > MIN_WINDOW_MS
    requires SameOutside(a, b, start, Midpoint(start, end)) && SameOutside(b, c, Midpoint(start, end) + 1, end)
    ensures SameOutside(a, c, start, end)
  {
    forall key | !Within(key, start, end) ensures SameAt(a, c, key) {
      assert !Within(key, start, Midpoint(start, end)) && !Within(key, Midpoint(start, end) + 1, end);
      assert SameAt(a, b, key) && SameAt(b, c, key);
    }
  }

  /** The windows that a search takes over. */
  function Consulted(refreshSearch: bool, windows: Windows): Windows {
    if refreshSearch then map[] else windows
  }

  /** What the search of the left half stores, the search of the right one does not look at. */
  lemma LeftBesideRight(
    service: Service, refreshSearch: bool, a: Windows, b: Windows, start: int, end: int, found: Option<WindowEntry>)
    requires end - start > MIN_WINDOW_MS && SameOutside(a, b, start, Midpoint(start, end))
    ensures var before, after := Consulted(refreshSearch, a), Consulted(refreshSearch, b);
      && (IsResult(service, before, Midpoint(start, end) + 1, end, found) <==> IsResult(service, after, Midpoint(start, end) + 1, end, found))
      && (NothingLost(service, before, Midpoint(start, end) + 1, end) <==> NothingLost(service, after, Midpoint(start, end) + 1, end))
  {
    hide Splittable, NothingLost, Dated, DistinctShas;
    if !refreshSearch {
      forall key | Within(key, Midpoint(start, end) + 1, end) ensures SameAt(a, b, key) {
        assert !Within(key, start, Midpoint(start, end));
      }
      OnlyWithin(service, a, b, Midpoint(start, end) + 1, end);
    }
  }

  lemma HalvesLose(service: Service, cached: Windows, start: int, end: int)
    requires (start, end) !in cached && end - start > MIN_WINDOW_MS
    requires |Matches(service.corpus, start, end)| > SEARCH_WINDOW_LIMIT && NothingLost(service, cached, start, end)
    ensures NothingLost(service, cached, start, Midpoint(start, end)) && NothingLost(service, cached, Midpoint(start, end) + 1, end)
  {
  }

  class Cache {
    var commits: map<Sha, CachedCommit>
    var windows: Windows
    /** Every request sent to the service. */
    ghost var requests: seq<Request>

    /** Every sha in a cached window has its commit. */
    ghost predicate Valid()
      reads this
    {
      && (forall key :: key in windows ==> windows[key].shas <= commits.Keys)
      && (forall s :: s in commits ==> commits[s].sha == s)
    }

    /** Cached windows hold only commits of the window. */
    ghost predicate Sound(corpus: seq<Item>)
      reads this
    {
      forall key :: key in windows ==> windows[key].shas <= Dated(corpus, key.0, key.1)
    }

    /** The total is the service's count for an unsplit window, the number of shas for a split one. */
    ghost predicate Totalled(corpus: seq<Item>)
      reads this
    {
      forall key :: key in windows ==> windows[key].totalCount == Total(corpus, key.0, key.1, windows[key].shas)
    }

    /** Cached windows hold what a fresh search would find. */
    ghost predicate Exact(corpus: seq<Item>)
      reads this
    {
      forall key :: key in windows ==> windows[key].shas == Dated(corpus, key.0, key.1)
    }

    ghost predicate PagesInRange()
      reads this
    {
      forall r :: r in requests ==> 1 <= r.page <= SEARCH_WINDOW_LIMIT / PER_PAGE
    }

    constructor ()
      ensures Valid() && commits == map[] && windows == map[] && requests == []
    {
      commits, windows, requests := map[], map[], [];
    }

    method SearchPage(service: Service, request: Request) returns (response: Response)
      modifies `requests
      ensures response == Answer(service, request) && requests == old(requests) + [request]
    {
      requests := requests + [request];
      response := Answer(service, request);
    }

    method IngestSearchItems(items: seq<Item>, shas: set<Sha>) returns (more: set<Sha>)
      requires Valid()
      modifies `commits
      ensures Valid() && more == shas + ShasOf(items)
      ensures commits.Keys == old(commits).Keys + ShasOf(items)
      ensures forall s :: s in commits ==>
        (s !in ShasOf(items) && commits[s] == old(commits)[s]) || exists x :: x in items && commits[s] == CachedCommit(x.sha, x.details)
    {
      more := shas;
      for i := 0 to |items|
        invariant Valid() && more == shas + ShasOf(items[..i])
        invariant commits.Keys == old(commits).Keys + ShasOf(items[..i])
        invariant forall s :: s in commits ==>
          (s !in ShasOf(items[..i]) && commits[s] == old(commits)[s]) || exists x :: x in items && commits[s] == CachedCommit(x.sha, x.details)
      {
        assert items[..i + 1] == items[..i] + [items[i]] && items[i] in items;
        more := more + {items[i].sha};
        commits := commits[items[i].sha := CachedCommit(items[i].sha, items[i].details)];
      }
      assert items[..|items|] == items;
    }

    /** The pages of a window that is not split. */
    method ReadPages(service: Service, start: int, end: int, firstPage: Response) returns (shas: set<Sha>)
      requires Valid() && PagesInRange() && service.lost(Request(start, end, 1)) == {}
      requires firstPage == Answer(service, Request(start, end, 1)) && firstPage.totalCount <= SEARCH_WINDOW_LIMIT
      modifies this
      ensures Valid() && PagesInRange() && windows == old(windows)
      ensures shas <= Dated(service.corpus, start, end) && shas <= commits.Keys
      ensures old(commits).Keys <= commits.Keys
      ensures shas == Shown(service, start, end, PagesRead(firstPage.totalCount))
    {
      hide Matches, Kept, PageOf, ShasOf;
      var pageCount := PageCount(firstPage.totalCount);
      shas := IngestSearchItems(firstPage.items, {});
      assert Shown(service, start, end, 0) == {};
      var page := 2;
      while page <= pageCount
        invariant 2 <= page && (page <= pageCount + 1 || page == 2)
        invariant Valid() && PagesInRange() && windows == old(windows) && old(commits).Keys <= commits.Keys
        invariant shas == Shown(service, start, end, page - 1) && shas <= commits.Keys
      {
        var request := Request(start, end, page);
        var response := SearchPage(service, request);
        shas := IngestSearchItems(response.items, shas);
        page := page + 1;
      }
      ShownWithin(service, start, end, page - 1);
    }

    method StoreWindow(corpus: seq<Item>, start: int, end: int, entry: WindowEntry)
      requires Valid() && Sound(corpus) && entry.shas <= commits.Keys && entry.shas <= Dated(corpus, start, end)
      requires Totalled(corpus) && entry.totalCount == Total(corpus, start, end, entry.shas)
      modifies `windows
      ensures Valid() && Sound(corpus) && Totalled(corpus) && windows == old(windows)[(start, end) := entry]
      ensures old(Exact(corpus)) && entry.shas == Dated(corpus, start, end) ==> Exact(corpus)
    {
      windows := windows[(start, end) := entry];
    }

    /** `None` where the source throws. */
    method SearchWindow(service: Service, refreshSearch: bool, start: int, end: int) returns (found: Option<WindowEntry>)
      requires Valid() && PagesInRange() && Sound(service.corpus) && Totalled(service.corpus)
      modifies this
      ensures Valid() && PagesInRange() && Sound(service.corpus) && Totalled(service.corpus) && old(commits).Keys <= commits.Keys
      ensures found.Some? ==> found.value.shas <= Dated(service.corpus, start, end) && found.value.shas <= commits.Keys
      ensures found.Some? ==> (start, end) in windows && windows[(start, end)] == found.value
      ensures SameOutside(old(windows), windows, start, end)
      ensures !refreshSearch && (start, end) in old(windows) ==>
        && found == Some(old(windows)[(start, end)])
        && windows == old(windows) && commits == old(commits) && requests == old(requests)
      ensures refreshSearch ==> IsResult(service, map[], start, end, found)
      ensures !refreshSearch ==> IsResult(service, old(windows), start, end, found)
      ensures old(Exact(service.corpus)) && NothingLost(service, if refreshSearch then map[] else old(windows), start, end) ==>
        Exact(service.corpus)
      decreases end - start
    {
      hide Dated, Matches, ShasOf, Kept, PageOf, Shown, IsResult, NothingLost, SameOutside;
      ghost var before, cached := windows, Consulted(refreshSearch, windows);
      NoneOutside(before, start, end);
      var key := (start, end);
      if !refreshSearch && key in windows {
        CachedResult(service, cached, start, end);
        return Some(windows[key]);
      }
      var firstPage := SearchPage(service, Request(start, end, 1));
      if firstPage.incomplete {
        ThrownResult(service, cached, start, end);
        return None;
      }
      var entry: WindowEntry;
      if firstPage.totalCount > SEARCH_WINDOW_LIMIT {
        if end - start <= MIN_WINDOW_MS {
          ThrownResult(service, cached, start, end);
          return None;
        }
        if NothingLost(service, cached, start, end) {
          HalvesLose(service, cached, start, end);
        }
        var midpoint := Midpoint(start, end);
        var left := SearchWindow(service, refreshSearch, start, midpoint);
        NoneOutside(windows, start, end);
        SameOutsideBoth(before, windows, windows, start, end);
        if left.None? {
          HalfThrown(service, cached, start, end);
          return None;
        }
        ghost var between := windows;
        var right := SearchWindow(service, refreshSearch, midpoint + 1, end);
        LeftBesideRight(service, refreshSearch, before, between, start, end, right);
        SameOutsideBoth(before, between, windows, start, end);
        if right.None? {
          HalfThrown(service, cached, start, end);
          return None;
        }
        var shas := left.value.shas + right.value.shas;
        entry := WindowEntry(shas, |shas|);
        HalvesResult(service, cached, start, end, left.value, right.value, entry);
      } else {
        var shas := ReadPages(service, start, end, firstPage);
        entry := WindowEntry(shas, firstPage.totalCount);
        UnsplitResult(service, cached, start, end, entry);
      }
      if NothingLost(service, cached, start, end) {
        ResultIsAll(service, cached, start, end, entry);
      }
      StoredWithin(before, windows, start, end, entry);
      StoreWindow(service.corpus, start, end, entry);
      return Some(entry);
    }
  }

  // ----- what the first-page check leaves open -----

  lemma {:induction false} AllInWindow(corpus: seq<Item>, start: int, end: int)
    requires forall i :: 0 <= i < |corpus| ==> start <= corpus[i].date <= end
    ensures Matches(corpus, start, end) == corpus
  {
    hide Matches;
    if |corpus| == 0 {
      NoneMatch(start, end);
    } else {
      AllInWindow(corpus[..|corpus| - 1], start, end);
      LastMatches(corpus, start, end);
    }
  }

  lemma NoneMatch(start: int, end: int)
    ensures Matches([], start, end) == []
  {
  }

  lemma LastMatches(corpus: seq<Item>, start: int, end: int)
    requires |corpus| > 0 && start <= corpus[|corpus| - 1].date <= end
    ensures Matches(corpus, start, end) == Matches(corpus[..|corpus| - 1], start, end) + [corpus[|corpus| - 1]]
  {
  }

  function Commits(n: nat): (r: seq<Item>)
    ensures |r| == n && forall i :: 0 <= i < n ==> r[i] == Item(i, 0, "")
  {
    seq(n, i requires 0 <= i < n => Item(i, 0, ""))
  }

  lemma SecondPage(page: nat)
    ensures var all := Commits(101);
      && DistinctShas(all) && PageCount(|all|) == 2 && PageOf(all, 2) == [Item(100, 0, "")]
      && (page != 2 ==> Item(100, 0, "") !in PageOf(all, page))
  {
    assert Commits(101)[100..] == [Item(100, 0, "")];
  }

  /** Only the first page's flag is checked, so a later page that times out loses its commits:
      of 101 commits in a window, the 101st is not found when the second page leaves it out. */
  lemma LaterPageLoses() returns (service: Service)
    ensures Splittable(service, map[], 0, 0) && !NothingLost(service, map[], 0, 0) && DistinctShas(service.corpus)
    ensures Dated(service.corpus, 0, 0) != {} && PageCount(|Matches(service.corpus, 0, 0)|) == 2
    ensures 100 in Dated(service.corpus, 0, 0)
    ensures forall page: nat :: 100 !in ShasOf(Answer(service, Request(0, 0, page)).items)
  {
    hide Matches, PageOf, Kept, Commits, DistinctShas;
    var corpus, last := Commits(101), Item(100, 0, "");
    service := Service(corpus, (r: Request) => if r.page == 2 then {100} else {});
    AllInWindow(corpus, 0, 0);
    SecondPage(2);
    assert corpus[100] == last && last.sha in ShasOf([last]);
    assert !PageWhole(service, 0, 0, 2);
    forall page: nat ensures 100 !in ShasOf(Answer(service, Request(0, 0, page)).items) {
      SecondPage(page);
      OneSha(page, service.lost(Request(0, 0, page)));
    }
  }

  lemma OneSha(page: nat, lost: set<Sha>)
    requires if page == 2 then 100 in lost else Item(100, 0, "") !in PageOf(Commits(101), page)
    ensures 100 !in ShasOf(Kept(PageOf(Commits(101), page), lost))
  {
    forall x | x in PageOf(Commits(101), page) ensures x.sha == 100 ==> x == Item(100, 0, "") {
      var i :| 0 <= i < 101 && Commits(101)[i] == x;
    }
    hide PageOf, Kept;
  }

  // ----- the total -----

  lemma FoundBefore(items: seq<Item>)
    requires |items| > 0
    ensures var front, last := items[..|items| - 1], items[|items| - 1];
      && ShasOf(items) == ShasOf(front) + {last.sha}
      && (DistinctShas(items) <==> DistinctShas(front) && last.sha !in ShasOf(front))
  {
    var front, last := items[..|items| - 1], items[|items| - 1];
    assert items == front + [last];
    if last.sha in ShasOf(front) {
      var x :| x in front && x.sha == last.sha;
      var i :| 0 <= i < |front| && front[i] == x;
      assert items[i].sha == items[|front|].sha;
    } else {
      forall i | 0 <= i < |front| ensures items[i].sha != last.sha {
        assert items[i] in front;
      }
    }
    if DistinctShas(items) {
      forall i, j | 0 <= i < j < |front| ensures front[i].sha != front[j].sha {
        assert items[i].sha != items[j].sha;
      }
    }
  }

  lemma {:induction false} DistinctCount(items: seq<Item>)
    ensures |ShasOf(items)| <= |items|
    ensures |ShasOf(items)| == |items| <==> DistinctShas(items)
  {
    if |items| > 0 {
      DistinctCount(items[..|items| - 1]);
      FoundBefore(items);
      hide ShasOf, DistinctShas;
    }
  }

  /** An unsplit window's total is the service's count, a split one's the number of shas: the
      total of a window that was found in full is the number of its shas exactly if the window was
      split or no sha is found in it twice. */
  lemma TotalCountsShasIff(corpus: seq<Item>, start: int, end: int)
    ensures Total(corpus, start, end, Dated(corpus, start, end)) == |Dated(corpus, start, end)| <==>
      |Matches(corpus, start, end)| > SEARCH_WINDOW_LIMIT || DistinctShas(Matches(corpus, start, end))
  {
    DistinctCount(Matches(corpus, start, end));
  }
}
