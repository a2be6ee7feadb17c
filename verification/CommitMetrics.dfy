/** The metrics run: search, then stats, then export rows. */
module CommitMetrics {
  import opened CommitSearch
  import opened Optional
  import opened Sets
  import opened StatsPool

  datatype ExportRow = ExportRow(sha: Sha, details: string, stats: Stats)

  /** `None` where `buildExportRow` throws. */
  function BuildExportRow(commits: map<Sha, CachedCommit>, stats: map<Sha, Stats>, sha: Sha): Option<ExportRow> {
    if sha !in commits then None
    else Some(ExportRow(commits[sha].sha, commits[sha].details, if sha in stats then stats[sha] else Stats(0, 0, 0)))
  }

  predicate Ascending(shas: seq<Sha>) {
    forall i, j :: 0 <= i < j < |shas| ==> shas[i] < shas[j]
  }

  function Members(shas: seq<Sha>): set<Sha> {
    set s | s in shas
  }

  /** `[...shas].sort()` */
  method SortShas(shas: set<Sha>) returns (sorted: seq<Sha>)
    ensures Ascending(sorted) && Members(sorted) == shas
  {
    sorted := [];
    var rest := shas;
    while rest != {}
      invariant Ascending(sorted) && Members(sorted) == shas - rest && rest <= shas
      decreases rest
    {
      ghost var some := Member(rest);
      var s: Sha :| s in rest;
      var at := 0;
      while at < |sorted| && sorted[at] < s
        invariant 0 <= at <= |sorted| && forall k :: 0 <= k < at ==> sorted[k] < s
      {
        at := at + 1;
      }
      assert s !in Members(sorted);
      ghost var before := sorted;
      sorted := sorted[..at] + [s] + sorted[at..];
      assert Members(sorted) == Members(before) + {s};
      rest := rest - {s};
    }
  }

  /** The pool as `enrichCommitStats` starts it for these shas, after some steps. */
  function PoolAfter(
    shas: seq<Sha>, commits: set<Sha>, before: map<Sha, Stats>, refresh: bool, limit: nat, concurrency: nat, steps: seq<Step>)
    : Option<Pool>
  {
    var pending := Pending(shas, before, refresh, limit);
    Run(pending, commits, Start(before, WorkerCount(concurrency, pending)), steps)
  }

  /** Every sha exports as itself; with stats, unless the limit cut the list of those to fetch. */
  ghost predicate ExportsAll(
    commits: map<Sha, CachedCommit>, shas: seq<Sha>, before: map<Sha, Stats>, refresh: bool, limit: nat, p: Pool)
  {
    && p.fetched == |Pending(shas, before, refresh, limit)|
    && forall s :: s in shas ==>
      && BuildExportRow(commits, p.stats, s).Some? && BuildExportRow(commits, p.stats, s).value.sha == s
      && (|Wanted(shas, before, refresh)| <= limit ==> s in p.stats && BuildExportRow(commits, p.stats, s).value.stats == p.stats[s])
  }

  lemma PoolExports(
    commits: map<Sha, CachedCommit>, shas: seq<Sha>, before: map<Sha, Stats>, refresh: bool, limit: nat, concurrency: nat, steps: seq<Step>)
    requires NO_SHA !in shas && concurrency > 0 && (forall s :: s in shas ==> s in commits) && forall s :: s in commits ==> commits[s].sha == s
    ensures var end := PoolAfter(shas, commits.Keys, before, refresh, limit, concurrency, steps);
      end.Some? && AllReturned(end.value) ==> ExportsAll(commits, shas, before, refresh, limit, end.value)
  {
    hide Run, Wanted, AllReturned, Start, Fetchable, WorkerCount;
    var pending := Pending(shas, before, refresh, limit);
    var end := PoolAfter(shas, commits.Keys, before, refresh, limit, concurrency, steps);
    forall s | s in pending ensures s in commits && s in shas {
      assert s in Wanted(shas, before, refresh);
    }
    Workers(concurrency, pending);
    if end.Some? && AllReturned(end.value) {
      PoolFetchesAll(pending, commits.Keys, before, WorkerCount(concurrency, pending), steps);
      if |Wanted(shas, before, refresh)| <= limit {
        EveryShaHasStats(shas, commits.Keys, before, refresh, limit, concurrency, steps);
      }
    }
  }

  lemma Workers(concurrency: nat, pending: seq<Sha>)
    requires concurrency > 0
    ensures pending != [] ==> WorkerCount(concurrency, pending) > 0
  {
  }

  /** What the command line sets; `excludes` tells by a commit's owner. */
  datatype Settings = Settings(
    refreshSearch: bool, skipStats: bool, refreshStats: bool, limit: nat, concurrency: nat, excludes: CachedCommit -> bool)

  /** `filterShas` */
  method FilterShas(commits: map<Sha, CachedCommit>, shas: seq<Sha>, excludes: CachedCommit -> bool) returns (kept: seq<Sha>)
    requires Ascending(shas)
    ensures Ascending(kept)
    ensures forall s :: s in kept <==> s in shas && s in commits && !excludes(commits[s])
  {
    kept := [];
    for i := 0 to |shas|
      invariant Ascending(kept)
      invariant forall s :: s in kept <==> s in shas[..i] && s in commits && !excludes(commits[s])
    {
      assert shas[..i + 1] == shas[..i] + [shas[i]];
      forall s | s in shas[..i] ensures s < shas[i] {
        var k :| 0 <= k < i && shas[k] == s;
      }
      if shas[i] in commits && !excludes(commits[shas[i]]) {
        forall k | 0 <= k < |kept| ensures kept[k] < shas[i] {
          assert kept[k] in kept;
        }
        kept := kept + [shas[i]];
      }
    }
    assert shas[..|shas|] == shas;
  }

  /** The stats in the cache when the pool, if it is run, has come to its end. */
  ghost function StatsAfter(
    settings: Settings, shas: seq<Sha>, commits: set<Sha>, before: map<Sha, Stats>, steps: seq<Step>): Option<map<Sha, Stats>>
  {
    if settings.skipStats then Some(before)
    else
      var end := PoolAfter(shas, commits, before, settings.refreshStats, settings.limit, settings.concurrency, steps);
      if end.Some? && AllReturned(end.value) then Some(end.value.stats) else None
  }

  /** A row of the sha itself: with its stats if there are any, and there are unless the pool was
      skipped or the limit cut the list of those to fetch. */
  ghost predicate HasRow(
    settings: Settings, shas: seq<Sha>, commits: map<Sha, CachedCommit>, before: map<Sha, Stats>, stats: map<Sha, Stats>, s: Sha)
  {
    var row := BuildExportRow(commits, stats, s);
    && row.Some? && row.value.sha == s && row.value.details == commits[s].details
    && (s in stats ==> row.value.stats == stats[s]) && (s !in stats ==> row.value.stats == Stats(0, 0, 0))
    && (!settings.skipStats && |Wanted(shas, before, settings.refreshStats)| <= settings.limit ==> s in stats)
  }

  lemma RowsFollow(
    settings: Settings, shas: seq<Sha>, commits: map<Sha, CachedCommit>, before: map<Sha, Stats>, steps: seq<Step>)
    requires NO_SHA !in shas && settings.concurrency > 0
    requires (forall s :: s in shas ==> s in commits) && forall s :: s in commits ==> commits[s].sha == s
    ensures var stats := StatsAfter(settings, shas, commits.Keys, before, steps);
      stats.Some? ==> forall s :: s in shas ==> HasRow(settings, shas, commits, before, stats.value, s)
  {
    hide PoolAfter, Wanted, AllReturned;
    if !settings.skipStats {
      PoolExports(commits, shas, before, settings.refreshStats, settings.limit, settings.concurrency, steps);
    }
  }

  /** The whole run.  What is exported is what was found, but for excluded owners; every sha has a
      row of its own once the pool, whatever its interleaving, has come to its end; and what was
      found is all that is dated in the window if the search lost nothing, with distinct shas only
      then. */
  method CollectMetrics(
    cache: Cache, service: Service, settings: Settings, start: int, end: int, before: map<Sha, Stats>, ghost steps: seq<Step>)
    returns (found: Option<WindowEntry>, exported: seq<Sha>, ghost shas: seq<Sha>)
    requires cache.Valid() && cache.PagesInRange() && cache.Sound(service.corpus) && cache.Totalled(service.corpus)
    requires settings.concurrency > 0 && forall x :: x in service.corpus ==> x.sha != NO_SHA
    modifies cache
    ensures settings.refreshSearch ==> IsResult(service, map[], start, end, found)
    ensures !settings.refreshSearch ==> IsResult(service, old(cache.windows), start, end, found)
    ensures found.Some? ==> Ascending(shas) && Members(shas) == found.value.shas && Ascending(exported)
    ensures found.Some? ==> forall s :: s in exported <==>
      s in found.value.shas && s in cache.commits && !settings.excludes(cache.commits[s])
    ensures var stats := StatsAfter(settings, shas, cache.commits.Keys, before, steps);
      found.Some? && stats.Some? ==> forall s :: s in exported ==> HasRow(settings, shas, cache.commits, before, stats.value, s)
  {
    hide IsResult, StatsAfter, HasRow, Dated, DistinctShas;
    exported, shas := [], [];
    found := cache.SearchWindow(service, settings.refreshSearch, start, end);
    if found.Some? {
      var sorted := SortShas(found.value.shas);
      shas := sorted;
      forall s | s in shas ensures s in found.value.shas {
        assert s in Members(shas);
      }
      NoneEmpty(service.corpus, start, end);
      RowsFollow(settings, shas, cache.commits, before, steps);
      exported := FilterShas(cache.commits, sorted, settings.excludes);
      forall s ensures s in sorted <==> s in found.value.shas {
        assert s in Members(sorted) <==> s in sorted;
      }
    }
  }

  lemma NoneEmpty(corpus: seq<Item>, start: int, end: int)
    requires forall x :: x in corpus ==> x.sha != NO_SHA
    ensures NO_SHA !in Dated(corpus, start, end)
  {
  }
}
