/** `enrichCommitStats`: workers that share an index and fetch one commit's stats at a time.

A worker runs alone between two awaits; a step is what one worker does from one await to the
next, so a run is any interleaving.  `claims` and `done` only record: who took which index when,
and what was fetched for an index by whom. */
module StatsPool {
  import opened CommitSearch
  import opened Optional
  import opened Sets

  /** The empty string, at which a worker returns as it does at the end. */
  const NO_SHA: Sha := 0

  datatype Worker = Ready | Fetching(index: nat) | Returned | Rejected(index: nat)

  datatype Claim = Claim(worker: nat, index: nat)

  datatype Fetch = Fetch(worker: nat, stats: Stats)

  datatype Pool = Pool(
    nextIndex: nat, fetched: nat, workers: seq<Worker>, stats: map<Sha, Stats>, claims: seq<Claim>, done: map<nat, Fetch>)

  datatype Step = Claims(w: nat) | Fetched(w: nat, stats: Stats) | FetchFails(w: nat)

  /** The shas to fetch: those without stats, or all when refreshing, up to the limit. */
  function Pending(shas: seq<Sha>, stats: map<Sha, Stats>, refresh: bool, limit: nat): (r: seq<Sha>)
    ensures |r| <= limit && r <= Wanted(shas, stats, refresh) && (|r| < limit ==> r == Wanted(shas, stats, refresh))
  {
    var wanted := Wanted(shas, stats, refresh);
    if |wanted| <= limit then wanted else wanted[..limit]
  }

  function Wanted(shas: seq<Sha>, stats: map<Sha, Stats>, refresh: bool): (r: seq<Sha>)
    ensures forall s :: s in r <==> s in shas && (refresh || s !in stats)
  {
    if |shas| == 0 then []
    else
      var last := shas[|shas| - 1];
      assert shas == shas[..|shas| - 1] + [last];
      Wanted(shas[..|shas| - 1], stats, refresh) + if refresh || last !in stats then [last] else []
  }

  /** As many as may run at once, and no more than there is to fetch. */
  function WorkerCount(concurrency: nat, pending: seq<Sha>): (n: nat)
    ensures n <= concurrency && n <= |pending| && (n == concurrency || n == |pending|)
  {
    if concurrency < |pending| then concurrency else |pending|
  }

  function Start(stats: map<Sha, Stats>, workers: nat): Pool {
    Pool(0, 0, seq(workers, _ => Ready), stats, [], map[])
  }

  function Next(pending: seq<Sha>, commits: set<Sha>, p: Pool, step: Step): Option<Pool> {
    if step.w >= |p.workers| then None
    else
      match step
      case Claims(w) =>
        if p.workers[w].Ready?
        then Some(p.(nextIndex := p.nextIndex + 1, workers := p.workers[w := Claimed(pending, commits, p.nextIndex)], claims := p.claims + [Claim(w, p.nextIndex)]))
        else None
      case Fetched(w, stats) =>
        if p.workers[w].Fetching? && p.workers[w].index < |pending|
        then Some(p.(fetched := p.fetched + 1, workers := p.workers[w := Ready],
                     stats := p.stats[pending[p.workers[w].index] := stats], done := p.done[p.workers[w].index := Fetch(w, stats)]))
        else None
      case FetchFails(w) =>
        if p.workers[w].Fetching? then Some(p.(workers := p.workers[w := Rejected(p.workers[w].index)])) else None
  }

  /** What a worker does with the index it took: return, go on at once, or wait for the fetch. */
  function Claimed(pending: seq<Sha>, commits: set<Sha>, index: nat): Worker {
    if index >= |pending| || pending[index] == NO_SHA then Returned
    else if pending[index] !in commits then Ready
    else Fetching(index)
  }

  function Run(pending: seq<Sha>, commits: set<Sha>, p: Pool, steps: seq<Step>): Option<Pool>
    decreases |steps|
  {
    if steps == [] then Some(p)
    else
      match Run(pending, commits, p, steps[..|steps| - 1])
      case None => None
      case Some(q) => Next(pending, commits, q, steps[|steps| - 1])
  }

  // ----- what every step keeps -----

  predicate Held(p: Pool, w: nat, i: nat) {
    w < |p.workers| && (p.workers[w].Fetching? || p.workers[w].Rejected?) && p.workers[w].index == i
  }

  ghost predicate InHand(p: Pool, i: nat) {
    exists w :: Held(p, w, i)
  }

  predicate Fetchable(pending: seq<Sha>, commits: set<Sha>, i: nat) {
    i < |pending| && pending[i] in commits
  }

  /** A fetched index was taken and holds stats. */
  ghost predicate DoneOnce(pending: seq<Sha>, commits: set<Sha>, p: Pool) {
    && p.fetched == |p.done|
    && (forall i :: i in p.done ==> i < p.nextIndex && Fetchable(pending, commits, i) && pending[i] in p.stats)
    && (Distinct(pending) ==> forall i :: i in p.done ==> p.stats[pending[i]] == p.done[i].stats)
  }

  ghost predicate Distinct(pending: seq<Sha>) {
    forall i, j :: 0 <= i < j < |pending| ==> pending[i] != pending[j]
  }

  /** An index in a worker's hands is in no other's and not fetched yet. */
  ghost predicate HeldOnce(pending: seq<Sha>, commits: set<Sha>, p: Pool) {
    && (forall w: nat, i: nat :: Held(p, w, i) ==> i < p.nextIndex && Fetchable(pending, commits, i) && i !in p.done)
    && forall w: nat, v: nat, i: nat :: Held(p, w, i) && Held(p, v, i) ==> w == v
  }

  ghost predicate Covered(pending: seq<Sha>, commits: set<Sha>, p: Pool) {
    && (forall i: nat :: i < p.nextIndex && Fetchable(pending, commits, i) ==> i in p.done || InHand(p, i))
    && forall w :: 0 <= w < |p.workers| && p.workers[w].Returned? ==> p.nextIndex > |pending|
  }

  ghost predicate StatsKept(pending: seq<Sha>, before: map<Sha, Stats>, p: Pool) {
    && before.Keys <= p.stats.Keys
    && forall s :: s in p.stats && s !in pending ==> s in before && p.stats[s] == before[s]
  }

  /** Each claim took the next index, and what a worker holds or has fetched it claimed itself. */
  ghost predicate ClaimedByHolder(p: Pool) {
    && |p.claims| == p.nextIndex
    && (forall k: nat :: k < |p.claims| ==> p.claims[k].index == k && p.claims[k].worker < |p.workers|)
    && (forall w: nat, i: nat :: Held(p, w, i) && i < |p.claims| ==> p.claims[i].worker == w)
    && forall i :: i in p.done && i < |p.claims| ==> p.done[i].worker == p.claims[i].worker
  }

  ghost predicate Invariant(pending: seq<Sha>, commits: set<Sha>, before: map<Sha, Stats>, p: Pool) {
    DoneOnce(pending, commits, p) && HeldOnce(pending, commits, p) && Covered(pending, commits, p) && StatsKept(pending, before, p)
    && ClaimedByHolder(p)
  }

  lemma ClaimKeeps(pending: seq<Sha>, commits: set<Sha>, before: map<Sha, Stats>, p: Pool, w: nat, q: Pool)
    requires Invariant(pending, commits, before, p) && NO_SHA !in pending
    requires Next(pending, commits, p, Claims(w)) == Some(q)
    ensures Invariant(pending, commits, before, q)
  {
    forall v: nat, i: nat ensures Held(q, v, i) <==> if v == w then q.workers[w] == Fetching(i) else Held(p, v, i) {
    }
    forall i: nat | i < q.nextIndex && Fetchable(pending, commits, i) ensures i in q.done || InHand(q, i) {
      if i == p.nextIndex {
        assert Held(q, w, i);
      } else if i !in p.done {
        var v :| Held(p, v, i);
        assert Held(q, v, i);
      }
    }
  }

  lemma FetchRecords(pending: seq<Sha>, commits: set<Sha>, p: Pool, w: nat, stats: Stats, q: Pool)
    requires DoneOnce(pending, commits, p) && Next(pending, commits, p, Fetched(w, stats)) == Some(q)
    requires var i := p.workers[w].index; i < p.nextIndex && Fetchable(pending, commits, i) && i !in p.done
    ensures DoneOnce(pending, commits, q)
  {
    var i := p.workers[w].index;
    assert q.done.Keys == p.done.Keys + {i};
    assert |q.done| == |q.done.Keys| && |p.done| == |p.done.Keys|;
    if Distinct(pending) {
      forall k | k in p.done && k != i ensures pending[k] != pending[i] {
        assert k < i || i < k;
      }
    }
  }

  lemma FetchKeeps(pending: seq<Sha>, commits: set<Sha>, before: map<Sha, Stats>, p: Pool, w: nat, stats: Stats, q: Pool)
    requires Invariant(pending, commits, before, p)
    requires Next(pending, commits, p, Fetched(w, stats)) == Some(q)
    ensures Invariant(pending, commits, before, q)
  {
    hide DoneOnce, Distinct;
    assert Held(p, w, p.workers[w].index);
    FetchRecords(pending, commits, p, w, stats, q);
    forall v: nat, i: nat ensures Held(q, v, i) <==> v != w && Held(p, v, i) {
    }
    forall i: nat | i < q.nextIndex && Fetchable(pending, commits, i) ensures i in q.done || InHand(q, i) {
      if i !in q.done {
        var v :| Held(p, v, i);
        assert Held(q, v, i);
      }
    }
  }

  lemma FailKeeps(pending: seq<Sha>, commits: set<Sha>, before: map<Sha, Stats>, p: Pool, w: nat, q: Pool)
    requires Invariant(pending, commits, before, p)
    requires Next(pending, commits, p, FetchFails(w)) == Some(q)
    ensures Invariant(pending, commits, before, q)
  {
    forall v: nat, i: nat ensures Held(q, v, i) <==> Held(p, v, i) {
    }
    forall i: nat | i < q.nextIndex && Fetchable(pending, commits, i) ensures i in q.done || InHand(q, i) {
      if i !in p.done {
        var v :| Held(p, v, i);
        assert Held(q, v, i);
      }
    }
  }

  lemma {:induction false} RunKeeps(pending: seq<Sha>, commits: set<Sha>, before: map<Sha, Stats>, workers: nat, steps: seq<Step>)
    requires NO_SHA !in pending
    ensures var end := Run(pending, commits, Start(before, workers), steps);
      end.Some? ==> Invariant(pending, commits, before, end.value) && |end.value.workers| == workers
    decreases |steps|
  {
    if steps != [] {
      var front, step := steps[..|steps| - 1], steps[|steps| - 1];
      RunKeeps(pending, commits, before, workers, front);
      var p := Run(pending, commits, Start(before, workers), front);
      if p.Some? {
        var q := Next(pending, commits, p.value, step);
        if q.Some? {
          match step
          case Claims(w) => ClaimKeeps(pending, commits, before, p.value, w, q.value);
          case Fetched(w, stats) => FetchKeeps(pending, commits, before, p.value, w, stats, q.value);
          case FetchFails(w) => FailKeeps(pending, commits, before, p.value, w, q.value);
        }
      }
    }
  }

  // ----- results -----

  function Upto(n: nat): (r: set<nat>)
    ensures |r| == n && forall i: nat :: i in r <==> i < n
  {
    if n == 0 then {} else Upto(n - 1) + {n - 1}
  }

  predicate AllReturned(p: Pool) {
    forall w :: 0 <= w < |p.workers| ==> p.workers[w].Returned?
  }

  /** In every interleaving no two workers ever fetch the same index, and none is fetched again. */
  lemma NeverFetchedTwice(pending: seq<Sha>, commits: set<Sha>, before: map<Sha, Stats>, workers: nat, steps: seq<Step>)
    requires NO_SHA !in pending && Run(pending, commits, Start(before, workers), steps).Some?
    ensures var p := Run(pending, commits, Start(before, workers), steps).value;
      && p.fetched == |p.done|
      && (forall w :: 0 <= w < |p.workers| && p.workers[w].Fetching? ==> p.workers[w].index !in p.done)
      && forall w, v :: 0 <= w < v < |p.workers| && p.workers[w].Fetching? && p.workers[v].Fetching? ==>
        p.workers[w].index != p.workers[v].index
  {
    RunKeeps(pending, commits, before, workers, steps);
    var p := Run(pending, commits, Start(before, workers), steps).value;
    forall w | 0 <= w < |p.workers| && p.workers[w].Fetching? ensures Held(p, w, p.workers[w].index) {
    }
  }

  ghost predicate ClaimedOnce(p: Pool, i: nat) {
    exists k: nat :: IsOnlyClaim(p, k, i)
  }

  ghost predicate IsOnlyClaim(p: Pool, k: nat, i: nat) {
    && k < |p.claims| && p.claims[k].index == i && p.claims[k].worker < |p.workers|
    && (forall j :: 0 <= j < |p.claims| && p.claims[j].index == i ==> j == k)
    && (i in p.done ==> p.done[i].worker == p.claims[k].worker)
  }

  /** When all workers have returned, each pending index has been claimed exactly once, and it is
      the worker that claimed it who fetched it. */
  lemma EachIndexClaimedOnce(
    pending: seq<Sha>, commits: set<Sha>, before: map<Sha, Stats>, workers: nat, steps: seq<Step>, i: nat)
    requires NO_SHA !in pending && workers > 0 && i < |pending|
    requires Run(pending, commits, Start(before, workers), steps).Some?
    ensures var p := Run(pending, commits, Start(before, workers), steps).value;
      AllReturned(p) ==> ClaimedOnce(p, i)
  {
    RunKeeps(pending, commits, before, workers, steps);
    var p := Run(pending, commits, Start(before, workers), steps).value;
    if AllReturned(p) {
      assert p.workers[0].Returned?;
      assert IsOnlyClaim(p, i, i);
    }
  }

  /** When all workers have returned, exactly the pending commits that are cached have been
      fetched, each once: all of them when every pending sha has its commit. */
  lemma PoolFetchesAll(pending: seq<Sha>, commits: set<Sha>, before: map<Sha, Stats>, workers: nat, steps: seq<Step>)
    requires NO_SHA !in pending && (pending != [] ==> workers > 0)
    requires Run(pending, commits, Start(before, workers), steps).Some?
    ensures var p := Run(pending, commits, Start(before, workers), steps).value;
      AllReturned(p) ==>
        && (forall i :: i in p.done <==> Fetchable(pending, commits, i))
        && (forall i :: 0 <= i < |pending| && pending[i] in commits ==> pending[i] in p.stats)
        && (Distinct(pending) ==> forall i: nat :: Fetchable(pending, commits, i) ==> p.stats[pending[i]] == p.done[i].stats)
        && (p.fetched == |pending| <==> forall s :: s in pending ==> s in commits)
        && forall s :: s in p.stats && s !in pending ==> s in before && p.stats[s] == before[s]
  {
    RunKeeps(pending, commits, before, workers, steps);
    var p := Run(pending, commits, Start(before, workers), steps).value;
    if AllReturned(p) {
      assert pending != [] ==> p.workers[0].Returned?;
      forall i: nat | Fetchable(pending, commits, i) ensures i in p.done {
        assert !InHand(p, i);
      }
      if forall s :: s in pending ==> s in commits {
        assert p.done.Keys == Upto(|pending|);
        assert |p.done| == |p.done.Keys|;
      } else {
        var i :| 0 <= i < |pending| && pending[i] !in commits;
        Fewer(p.done.Keys, |pending|, i);
        assert |p.done| == |p.done.Keys|;
      }
    }
  }

  lemma Fewer(done: set<nat>, n: nat, i: nat)
    requires i < n && i !in done && forall k :: k in done ==> k < n
    ensures |done| < n
  {
    SubsetSize(done + {i}, Upto(n));
  }

  /** After a search nothing is missing: unless the limit cut the list, every sha of the window
      has stats once the workers have returned. */
  lemma EveryShaHasStats(
    shas: seq<Sha>, commits: set<Sha>, before: map<Sha, Stats>, refresh: bool, limit: nat, concurrency: nat, steps: seq<Step>)
    requires NO_SHA !in shas && (forall s :: s in shas ==> s in commits) && concurrency > 0
    requires |Wanted(shas, before, refresh)| <= limit
    requires Run(Wanted(shas, before, refresh), commits, Start(before, WorkerCount(concurrency, Wanted(shas, before, refresh))), steps).Some?
    ensures Pending(shas, before, refresh, limit) == Wanted(shas, before, refresh)
    ensures var pending := Wanted(shas, before, refresh);
      var p := Run(pending, commits, Start(before, WorkerCount(concurrency, pending)), steps).value;
      AllReturned(p) ==> p.fetched == |Wanted(shas, before, refresh)| && forall s :: s in shas ==> s in p.stats
  {
    var pending := Wanted(shas, before, refresh);
    var workers := WorkerCount(concurrency, pending);
    PoolFetchesAll(pending, commits, before, workers, steps);
    RunKeeps(pending, commits, before, workers, steps);
    var p := Run(pending, commits, Start(before, workers), steps).value;
    if AllReturned(p) {
      forall s | s in shas ensures s in p.stats {
        if s in pending {
          var i :| 0 <= i < |pending| && pending[i] == s;
        }
      }
    }
  }
}
