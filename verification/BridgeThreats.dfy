/** A threatened request is in danger: some run of the others leaves it unanswered when `stop` returns. */
module BridgeThreats {
  import opened Bridge
  import opened BridgeInvariants
  import opened BridgeHistory
  import opened BridgeRuns
  import opened BridgeLocks
  import opened BridgeStops
  import opened Optional
  import opened Sets

  // ----- one step at a time -----

  ghost predicate Leads(policy: Policy, s: State, t: State) {
    exists more :: ContinuesTo(policy, s, more, t)
  }

  /** Reached from `from`, with this request still unanswered and no I/O failed. */
  ghost predicate Open(policy: Policy, from: State, s: State, id: Id) {
    && Inv(policy, s) && LocksHeld(s) && Leads(policy, from, s)
    && !s.faulty && !s.accepting && Unanswered(s, id)
  }

  lemma Further(policy: Policy, from: State, s: State, step: Step, t: State)
    requires Leads(policy, from, s) && Next(policy, s, step) == Moved(t) && !step.StopAborts?
    ensures Leads(policy, from, t)
  {
    var more :| ContinuesTo(policy, from, more, s);
    RunStep(policy, from, more, s, step, t);
    assert ContinuesTo(policy, from, more + [step], t);
  }

  lemma StaysOpen(policy: Policy, from: State, s: State, step: Step, t: State, id: Id)
    requires Open(policy, from, s, id) && Next(policy, s, step) == Moved(t) && !step.StopAborts?
    requires !t.faulty && First(t.writes, id) == None
    ensures Open(policy, from, t, id)
  {
    hide Next, First, AllOf, LocksHeld;
    Further(policy, from, s, step, t);
    Onwards(policy, s, step, t, id);
    StepLocks(policy, s, step, t);
    forall n: Id, j: nat ensures AllOf(policy, t, n, j) {
      StepKeeps(policy, s, step, t, n, j);
    }
  }

  /** The operation neither fails nor answers the request. */
  predicate Harmless<Pc>(move: Move<Pc>, id: Id) {
    move.Go? && !move.fault && !(move.op.Answer? && move.op.name == id)
  }

  lemma AfterOp(s: State, op: FileOp, author: Party, id: Id)
    requires First(s.writes, id) == None && !(op.Answer? && op.name == id)
    ensures First(WritesAfter(s, op, author), id) == None
  {
    if op.Answer? {
      FirstAppend(s.writes, Write(op.name, op.resp, author), id);
    }
  }

  ghost predicate AborterMoved(s: State, t: State, j: nat, move: Move<AborterPc>) {
    && move.Go? && t.aborters == s.aborters[j := move.pc] && t.worker == s.worker
    && t.requests == RequestsAfter(s, move.op) && t.locks == LocksAfter(s, move.op, Aborter(j))
    && t.responses == ResponsesAfter(s, move.op)
  }

  lemma AborterScans(policy: Policy, from: State, s: State, j: nat, l: LoopStep, id: Id) returns (t: State)
    requires Open(policy, from, s, id) && j in s.aborters
    requires Harmless(AborterScanMove(s, s.aborters[j], AbortMessage(j), l), id)
    ensures Open(policy, from, t, id) && AborterMoved(s, t, j, AborterScanMove(s, s.aborters[j], AbortMessage(j), l))
  {
    hide AborterScanMove, Open, First;
    var move := AborterScanMove(s, s.aborters[j], AbortMessage(j), l);
    t := Next(policy, s, AborterScan(j, l)).after;
    OpenIs(policy, from, s, id);
    AfterOp(s, move.op, Aborter(j), id);
    StaysOpen(policy, from, s, AborterScan(j, l), t, id);
  }

  lemma AborterWrites(policy: Policy, from: State, s: State, j: nat, f: FileStep, id: Id) returns (t: State)
    requires Open(policy, from, s, id) && j in s.aborters && Harmless(AborterFileMove(s, s.aborters[j], f), id)
    ensures Open(policy, from, t, id) && AborterMoved(s, t, j, AborterFileMove(s, s.aborters[j], f))
  {
    hide AborterFileMove, Open, First;
    var move := AborterFileMove(s, s.aborters[j], f);
    t := Next(policy, s, AborterFile(j, f)).after;
    OpenIs(policy, from, s, id);
    AfterOp(s, move.op, Aborter(j), id);
    StaysOpen(policy, from, s, AborterFile(j, f), t, id);
  }

  lemma OpenIs(policy: Policy, from: State, s: State, id: Id)
    requires Open(policy, from, s, id)
    ensures !s.faulty && First(s.writes, id) == None
  {
  }

  ghost predicate WorkerMoved(s: State, t: State, move: Move<WorkerPc>) {
    && move.Go? && t.worker == move.pc
    && t.aborters == (if move.pc == Failed then s.aborters[0 := ToList] else s.aborters)
    && t.requests == RequestsAfter(s, move.op) && t.locks == LocksAfter(s, move.op, Worker)
    && t.responses == ResponsesAfter(s, move.op)
  }

  lemma LoopGoes(policy: Policy, from: State, s: State, l: LoopStep, id: Id) returns (t: State)
    requires Open(policy, from, s, id) && Harmless(LoopMove(policy, s, l), id)
    ensures Open(policy, from, t, id) && WorkerMoved(s, t, LoopMove(policy, s, l))
  {
    hide LoopMove, Open, First;
    var move := LoopMove(policy, s, l);
    t := Next(policy, s, Loop(l)).after;
    OpenIs(policy, from, s, id);
    AfterOp(s, move.op, Worker, id);
    StaysOpen(policy, from, s, Loop(l), t, id);
  }

  lemma WriterGoes(policy: Policy, from: State, s: State, f: FileStep, id: Id) returns (t: State)
    requires Open(policy, from, s, id) && Harmless(WriterMove(s, f), id)
    ensures Open(policy, from, t, id) && WorkerMoved(s, t, WriterMove(s, f))
  {
    hide WriterMove, Open, First;
    var move := WriterMove(s, f);
    t := Next(policy, s, WorkerFile(f)).after;
    OpenIs(policy, from, s, id);
    AfterOp(s, move.op, Worker, id);
    StaysOpen(policy, from, s, WorkerFile(f), t, id);
  }

  // ----- a lock is given up -----

  /** Requests stay, and so do aborters but for one that held the lock. */
  ghost predicate OnlyHolderMoved(s: State, t: State, n: Id) {
    && t.requests == s.requests && n !in t.locks && t.aborters.Keys == s.aborters.Keys
    && (forall i :: i in s.aborters && t.aborters[i] != s.aborters[i] ==>
        s.aborters[i].ToWrite? && s.aborters[i].name == n && s.aborters[i].phase != Acquire)
    && (t.worker != s.worker ==>
        && s.worker.Writing? && s.worker.name == n && s.worker.phase != Acquire
        && t.worker == Removing(n, false, s.worker.queue))
  }

  lemma FreeLock(policy: Policy, from: State, s: State, id: Id, n: Id) returns (t: State)
    requires Open(policy, from, s, id) && n != id
    ensures Open(policy, from, t, id) && OnlyHolderMoved(s, t, n)
  {
    hide Open;
    t := s;
    HolderIs(policy, from, s, id, n);
    if n in s.locks {
      if s.locks[n].Worker? {
        t := WorkerReleases(policy, from, s, id);
      } else {
        t := AborterReleases(policy, from, s, id, s.locks[n].n);
      }
    }
  }

  lemma HolderIs(policy: Policy, from: State, s: State, id: Id, n: Id)
    requires Open(policy, from, s, id)
    ensures HasHolder(s, n)
  {
    assert LocksOf(s, n, 0);
  }

  lemma WorkerReleases(policy: Policy, from: State, s: State, id: Id) returns (t: State)
    requires Open(policy, from, s, id) && s.worker.Writing? && s.worker.phase != Acquire && s.worker.name != id
    ensures Open(policy, from, t, id) && OnlyHolderMoved(s, t, s.worker.name) && t.worker == Removing(s.worker.name, false, s.worker.queue)
  {
    hide Open;
    t := s;
    if t.worker.phase == CheckRequest {
      t := WriterGoes(policy, from, t, ChecksRequest, id);
    }
    if t.worker.Writing? && t.worker.phase == CheckResponse {
      t := WriterGoes(policy, from, t, ChecksResponse, id);
    }
    if t.worker.Writing? {
      t := WriterGoes(policy, from, t, Renames, id);
    }
  }

  lemma AborterReleases(policy: Policy, from: State, s: State, id: Id, j: nat) returns (t: State)
    requires Open(policy, from, s, id) && j in s.aborters && s.aborters[j].ToWrite? && s.aborters[j].phase != Acquire
    requires s.aborters[j].phase != CheckRequest && s.aborters[j].name != id
    ensures Open(policy, from, t, id) && OnlyHolderMoved(s, t, s.aborters[j].name)
    ensures t.worker == s.worker && t.aborters == s.aborters[j := ToClean(s.aborters[j].name, s.aborters[j].queue)]
  {
    hide Open;
    var n, queue := s.aborters[j].name, s.aborters[j].queue;
    t := s;
    if t.aborters[j].phase == CheckResponse {
      t := AborterWrites(policy, from, t, j, ChecksResponse, id);
      assert t.aborters == s.aborters[j := if n in s.responses then ToClean(n, queue) else s.aborters[j].(phase := Rename)];
      assert t.requests == s.requests && (n in s.responses ==> n !in t.locks);
    }
    if t.aborters[j].ToWrite? {
      t := AborterAnswers(policy, from, t, j, id);
    }
  }

  lemma AborterAnswers(policy: Policy, from: State, s: State, j: nat, id: Id) returns (t: State)
    requires Open(policy, from, s, id) && j in s.aborters && s.aborters[j].ToWrite? && s.aborters[j].phase == Rename
    requires s.aborters[j].name != id
    ensures Open(policy, from, t, id) && t.requests == s.requests && s.aborters[j].name !in t.locks
    ensures t.worker == s.worker && t.aborters == s.aborters[j := ToClean(s.aborters[j].name, s.aborters[j].queue)]
  {
    hide Open;
    t := AborterWrites(policy, from, s, j, Renames, id);
  }

  // ----- an aborter gets on with its list -----

  /** The request stays or goes with `same`; nothing is filed; other aborters at most finish a write. */
  ghost predicate OthersKept(s: State, t: State, j: nat, id: Id) {
    && t.requests.Keys <= s.requests.Keys && (id in s.requests ==> id in t.requests) && j in t.aborters
    && forall i :: i in s.aborters && i != j ==> i in t.aborters && (t.aborters[i] == s.aborters[i] || s.aborters[i].ToWrite?)
  }

  predicate Busy(pc: AborterPc) {
    pc.ToRemove? || pc.ToWrite? || pc.ToClean?
  }

  lemma PhaseOf(policy: Policy, from: State, s: State, id: Id, j: nat)
    requires Open(policy, from, s, id) && j in s.aborters && s.aborters[j].ToWrite?
    ensures s.aborters[j].phase != CheckRequest && s.aborters[j].name !in s.requests
  {
    assert LocksOf(s, s.aborters[j].name, j) && AllOf(policy, s, s.aborters[j].name, j);
  }

  /** It finishes the request at hand. */
  lemma GetsOn(policy: Policy, from: State, s: State, j: nat, id: Id) returns (t: State)
    requires Open(policy, from, s, id) && j in s.aborters && Busy(s.aborters[j]) && s.aborters[j].name != id
    ensures Open(policy, from, t, id) && OthersKept(s, t, j, id) && t.aborters[j] == ToScan(s.aborters[j].queue)
  {
    hide Open;
    t := s;
    if t.aborters[j].ToRemove? {
      t := AborterWrites(policy, from, t, j, Removes, id);
    }
    if t.aborters[j].ToWrite? {
      t := WritesOut(policy, from, t, j, id);
    }
    t := AborterWrites(policy, from, t, j, Removes, id);
  }

  lemma WritesOut(policy: Policy, from: State, s: State, j: nat, id: Id) returns (t: State)
    requires Open(policy, from, s, id) && j in s.aborters && s.aborters[j].ToWrite? && s.aborters[j].name != id
    ensures Open(policy, from, t, id) && OthersKept(s, t, j, id)
    ensures t.aborters[j] == ToClean(s.aborters[j].name, s.aborters[j].queue)
  {
    hide Open;
    t := s;
    PhaseOf(policy, from, s, id, j);
    if t.aborters[j].phase == Acquire {
      t := FreeLock(policy, from, t, id, s.aborters[j].name);
      t := AborterWrites(policy, from, t, j, TakesLock, id);
    }
    t := AborterReleases(policy, from, t, id, j);
  }

  /** It reads the next name on its list and is done with it. */
  lemma Skips(policy: Policy, from: State, s: State, j: nat, id: Id) returns (t: State)
    requires Open(policy, from, s, id) && j in s.aborters && s.aborters[j].ToScan?
    requires s.aborters[j].queue != [] && s.aborters[j].queue[0] != id
    ensures Open(policy, from, t, id) && OthersKept(s, t, j, id) && t.aborters[j] == ToScan(s.aborters[j].queue[1..])
  {
    hide Open;
    t := AborterScans(policy, from, s, j, ReadsFile, id);
    t := GetsOn(policy, from, t, j, id);
  }

  /** It comes to the request and removes it. */
  lemma {:induction false} Takes(policy: Policy, from: State, s: State, j: nat, id: Id) returns (t: State)
    requires Open(policy, from, s, id) && j in s.aborters && id in s.requests && InLeft(s.aborters[j], id)
    ensures Open(policy, from, t, id) && id !in t.requests && j in t.aborters
    ensures forall i :: i in s.aborters && i != j ==> i in t.aborters && (t.aborters[i] == s.aborters[i] || s.aborters[i].ToWrite?)
    decreases if Busy(s.aborters[j]) then |s.aborters[j].queue| + 1 else |s.aborters[j].queue|
  {
    hide Open;
    if Busy(s.aborters[j]) && s.aborters[j].name == id {
      AtHand(policy, from, s, j, id);
      t := AborterWrites(policy, from, s, j, Removes, id);
    } else if Busy(s.aborters[j]) {
      t := GetsOn(policy, from, s, j, id);
      t := Takes(policy, from, t, j, id);
    } else if s.aborters[j].queue[0] == id {
      IsFiled(policy, from, s, id);
      t := AborterScans(policy, from, s, j, ReadsFile, id);
      t := AborterWrites(policy, from, t, j, Removes, id);
    } else {
      t := Skips(policy, from, s, j, id);
      t := Takes(policy, from, t, j, id);
    }
  }

  lemma AtHand(policy: Policy, from: State, s: State, j: nat, id: Id)
    requires Open(policy, from, s, id) && j in s.aborters && id in s.requests && Busy(s.aborters[j]) && s.aborters[j].name == id
    ensures s.aborters[j].ToRemove?
  {
    assert LocksOf(s, id, j) && AllOf(policy, s, id, j);
  }

  lemma IsFiled(policy: Policy, from: State, s: State, id: Id)
    requires Open(policy, from, s, id) && id in s.requests
    ensures s.requests[id].WellFormed?
    ensures s.worker.Removing? ==> s.worker.name != id
    ensures s.worker.Handling? ==> s.worker.req.WellFormed?
    ensures s.worker != Failed ==> 0 !in s.aborters
  {
    assert AllOf(policy, s, id, 0);
  }

  lemma {:induction false} Listed(names: set<Id>) returns (order: seq<Id>)
    ensures forall n :: n in order <==> n in names
  {
    if names == {} {
      order := [];
    } else {
      var n := Member(names);
      var rest := Listed(names - {n});
      order := [n] + rest;
    }
  }

  /** The stop goes through its list to the end. */
  lemma {:induction false} Finishes(policy: Policy, from: State, s: State, k: nat, id: Id) returns (t: State)
    requires Open(policy, from, s, id) && k in s.aborters && s.aborters[k].ToScan? && id !in s.aborters[k].queue
    ensures Open(policy, from, t, id) && k in t.aborters && t.aborters[k] == Done
    decreases |s.aborters[k].queue|
  {
    hide Open;
    if s.aborters[k].queue == [] {
      t := AborterScans(policy, from, s, k, ScansOn, id);
    } else {
      t := Skips(policy, from, s, k, id);
      t := Finishes(policy, from, t, k, id);
    }
  }

  lemma ReturnsWithout(policy: Policy, from: State, s: State, k: nat, id: Id) returns (t: State)
    requires Open(policy, from, s, id) && k in s.aborters && s.aborters[k] == ToList && id !in s.requests
    ensures Open(policy, from, t, id) && k in t.aborters && t.aborters[k] == Done
  {
    hide Open;
    var order := Listed(s.requests.Keys);
    Listing(s.requests, order);
    t := AborterScans(policy, from, s, k, Lists(order), id);
    t := Finishes(policy, from, t, k, id);
  }

  // ----- the loop ends -----

  predicate Awaiting(s: State, t: State, id: Id) {
    && id in t.requests
    && forall i :: i in s.aborters ==> i in t.aborters && (t.aborters[i] == s.aborters[i] || s.aborters[i].ToWrite?)
  }

  /** The loop reads the request and the authoriser throws. */
  lemma PollingThrows(policy: Policy, from: State, s: State, id: Id) returns (t: State)
    requires Open(policy, from, s, id) && id in s.requests && s.worker == Polling
    ensures Open(policy, from, t, id) && Awaiting(s, t, id) && t.worker == Failed && 0 in t.aborters && t.aborters[0] == ToList
  {
    hide Open;
    IsFiled(policy, from, s, id);
    var rest := Listed(s.requests.Keys);
    var order := [id] + rest;
    Listing(s.requests, order);
    t := LoopGoes(policy, from, s, Lists(order), id);
    t := LoopGoes(policy, from, t, ReadsFile, id);
    t := LoopGoes(policy, from, t, AuthorizerThrows, id);
  }

  /** The loop writes its response to another request. */
  lemma WriteEnds(policy: Policy, from: State, s: State, id: Id) returns (t: State)
    requires Open(policy, from, s, id) && id in s.requests && s.worker.Writing? && s.worker.name != id
    ensures Open(policy, from, t, id) && Awaiting(s, t, id) && t.worker == Removing(s.worker.name, false, s.worker.queue)
  {
    hide Open;
    t := s;
    if t.worker.phase == Acquire {
      t := FreeLock(policy, from, t, id, s.worker.name);
      t := WriterGoes(policy, from, t, TakesLock, id);
    }
    t := WorkerReleases(policy, from, t, id);
  }

  function Left(w: WorkerPc): nat {
    match w
    case Scanning(queue) => 4 * |queue|
    case Removing(_, _, queue) => 4 * |queue| + 1
    case Writing(_, _, _, _, queue) => 4 * |queue| + 2
    case Handling(_, _, queue) => 4 * |queue| + 3
    case _ => 0
  }

  predicate HasEnded(t: State) {
    t.worker == Failed && 0 in t.aborters && t.aborters[0] == ToList
  }

  /** Either the loop ends, or it has less to do and has not yet come to the request. */
  lemma LoopNearer(policy: Policy, from: State, s: State, id: Id) returns (t: State)
    requires Open(policy, from, s, id) && id in s.requests && Running(s.worker) && !Answers(s.worker, id)
    ensures Open(policy, from, t, id) && Awaiting(s, t, id)
    ensures HasEnded(t) || (Running(t.worker) && !Answers(t.worker, id) && Left(t.worker) < Left(s.worker))
  {
    hide Open;
    IsFiled(policy, from, s, id);
    match s.worker
    case Polling => t := PollingThrows(policy, from, s, id);
    case Authorizing(_, _, _) => t := LoopGoes(policy, from, s, AuthorizerThrows, id);
    case Scanning(queue) => t := ScanNearer(policy, from, s, id);
    case Handling(_, _, _) => t := LoopGoes(policy, from, s, Handled(Threw("")), id);
    case Writing(_, _, _, _, _) => t := WriteEnds(policy, from, s, id);
    case Removing(_, _, _) => t := WriterGoes(policy, from, s, Removes, id);
  }

  lemma ScanNearer(policy: Policy, from: State, s: State, id: Id) returns (t: State)
    requires Open(policy, from, s, id) && id in s.requests && s.worker.Scanning?
    ensures Open(policy, from, t, id) && Awaiting(s, t, id)
    ensures HasEnded(t) || (Running(t.worker) && !Answers(t.worker, id) && Left(t.worker) < Left(s.worker))
  {
    hide Open;
    IsFiled(policy, from, s, id);
    if s.worker.queue == [] {
      t := LoopGoes(policy, from, s, ScansOn, id);
      t := PollingThrows(policy, from, t, id);
    } else {
      t := LoopGoes(policy, from, s, ReadsFile, id);
      if t.worker.Authorizing? {
        t := LoopGoes(policy, from, t, AuthorizerThrows, id);
      }
    }
  }

  lemma {:induction false} LoopEnds(policy: Policy, from: State, s: State, id: Id) returns (t: State)
    requires Open(policy, from, s, id) && id in s.requests && Running(s.worker) && !Answers(s.worker, id)
    ensures Open(policy, from, t, id) && Awaiting(s, t, id) && HasEnded(t)
    decreases Left(s.worker)
  {
    hide Open, Left, Answers;
    t := LoopNearer(policy, from, s, id);
    if !HasEnded(t) {
      t := LoopEnds(policy, from, t, id);
    }
  }

  // ----- together -----

  lemma AborterTakes(policy: Policy, from: State, s: State, k: nat, j: nat, id: Id) returns (t: State)
    requires Open(policy, from, s, id) && k in s.aborters && s.aborters[k] == ToList && j != k && MayTake(s, j, id)
    ensures Open(policy, from, t, id) && k in t.aborters && t.aborters[k] == ToList && id !in t.requests
  {
    hide Open;
    t := s;
    if id in s.requests {
      if s.aborters[j] == ToList {
        var rest := Listed(s.requests.Keys);
        Listing(s.requests, [id] + rest);
        t := AborterScans(policy, from, t, j, Lists([id] + rest), id);
      }
      t := Takes(policy, from, t, j, id);
    }
  }

  /** A threatened request can be left unanswered. */
  lemma ThreatIsReal(policy: Policy, s: State, k: nat, j: nat, id: Id) returns (t: State)
    requires Open(policy, s, s, id) && k > 0 && k in s.aborters && s.aborters[k] == ToList && ThreatBy(s, k, j, id)
    ensures Open(policy, s, t, id) && k in t.aborters && t.aborters[k] == Done
  {
    hide Open;
    if j != k && MayTake(s, j, id) {
      t := AborterTakes(policy, s, s, k, j, id);
    } else {
      t := LoopEnds(policy, s, s, id);
      t := AborterTakes(policy, s, t, k, 0, id);
    }
    t := ReturnsWithout(policy, s, t, k, id);
  }

  lemma ThreatRefutes(policy: Policy, s: State, k: nat, j: nat, id: Id)
    requires Inv(policy, s) && LocksHeld(s) && !s.faulty && !s.accepting
    requires k > 0 && k in s.aborters && s.aborters[k] == ToList && Unanswered(s, id) && ThreatBy(s, k, j, id)
    ensures !AlwaysAnswers(policy, s, k)
  {
    assert ContinuesTo(policy, s, [], s);
    var t := ThreatIsReal(policy, s, k, j, id);
    var more :| ContinuesTo(policy, s, more, t);
    assert HasReturned(t, k) && id in t.clients && First(t.writes, id) == None;
  }

  /** A stop starts its abort with the server down and no I/O failed so far.  Whatever runs now, with
      no other stop starting one, it will have every request answered when it returns: exactly if no
      other aborter may take an unanswered request, and the loop, if it runs, has in hand what is
      still filed. */
  lemma StopAnswersExactly(policy: Policy, steps: seq<Step>, s: State, k: nat)
    requires Run(policy, INIT, steps) == Moved(s) && !s.faulty && !s.accepting
    requires k > 0 && k in s.aborters && s.aborters[k] == ToList
    ensures AlwaysAnswers(policy, s, k) <==> NoneThreatened(s, k)
  {
    hide Run, AlwaysAnswers, ThreatBy, Unanswered, Inv, LocksHeld;
    Reached(policy, steps, s);
    LocksReached(policy, steps, s);
    if NoneThreatened(s, k) {
      SparedAreAnswered(policy, s, k);
    } else {
      var id: Id, j: nat :| Unanswered(s, id) && ThreatBy(s, k, j, id);
      ThreatRefutes(policy, s, k, j, id);
    }
  }

  /** The `settled` flag of the source: the loop has ended, and its own abort with it. */
  predicate LoopSettled(s: State) {
    s.worker == LoopLeft || (s.worker == Failed && 0 in s.aborters && s.aborters[0] == Done)
  }

  /** In particular a stop has every request answered if the loop has settled and no other abort is
      under way when it starts its own. */
  lemma StopAnswersAll(policy: Policy, steps: seq<Step>, s: State, k: nat)
    requires Run(policy, INIT, steps) == Moved(s) && !s.faulty && !s.accepting
    requires k > 0 && k in s.aborters && s.aborters[k] == ToList
    requires LoopSettled(s) && forall j :: j in s.aborters && j != k ==> s.aborters[j] == Done
    ensures AlwaysAnswers(policy, s, k)
  {
    hide Run, AlwaysAnswers;
    StopAnswersExactly(policy, steps, s, k);
  }
}
