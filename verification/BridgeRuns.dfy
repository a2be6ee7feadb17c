/** The bridge's promises, for every interleaving of clients, worker, handler and stops. */
module BridgeRuns {
  import opened Bridge
  import opened BridgeInvariants
  import opened BridgeHistory
  import opened Optional

  ghost predicate AllOf(policy: Policy, s: State, n: Id, j: nat) {
    && AboutName(s, n) && WorkerNamed(s) && AboutAborter(s, j, n)
    && LossesOf(s, n, j) && CalledWithin(s, n) && AllAuthorized(policy, s.invoked)
  }

  ghost predicate Inv(policy: Policy, s: State) {
    forall n: Id, j: nat :: AllOf(policy, s, n, j)
  }

  lemma StopKeeps(policy: Policy, s: State, step: Step, t: State, n: Id, j: nat)
    requires AllOf(policy, s, n, j) && (step.StopCalled? || step.StopAborts?) && Next(policy, s, step) == Moved(t)
    ensures AllOf(policy, t, n, j)
  {
    if exists k :: PendingBy(s, k, n) {
      StillPending(s, t, n);
    }
  }

  lemma StepKeeps(policy: Policy, s: State, step: Step, t: State, n: Id, j: nat)
    requires Inv(policy, s) && Next(policy, s, step) == Moved(t)
    ensures AllOf(policy, t, n, j)
  {
    assert AllOf(policy, s, n, j);
    match step
    case Client(c) =>
      ClientKeeps(s, c, t, n, j);
      ClientLosses(s, c, t, n, j);
      ClientCalls(s, c, t, n);
    case Loop(l) =>
      if s.worker.Scanning? && |s.worker.queue| > 0 {
        assert AllOf(policy, s, s.worker.queue[0], j);
      }
      LoopKeeps(policy, s, l, t, n, j);
      LoopLosses(policy, s, l, t, n, j);
      LoopChangesCalls(policy, s, l, t, n);
      LoopCalls(policy, s, t, n);
    case WorkerFile(f) =>
      WriterKeeps(s, f, t, n, j);
      WriterLosses(s, f, t, n, j);
      WriterCalls(s, f, t, n);
    case StopCalled => StopKeeps(policy, s, step, t, n, j);
    case StopAborts(_) => StopKeeps(policy, s, step, t, n, j);
    case AborterScan(k, l) =>
      assert AllOf(policy, s, n, k);
      if s.aborters[k].ToScan? && |s.aborters[k].queue| > 0 {
        assert AllOf(policy, s, s.aborters[k].queue[0], k);
      }
      AborterScanKeeps(s, k, l, t, n, j);
      AborterScanLosses(s, k, l, t, n, j);
      AborterCalls(s, k, AborterScanMove(s, s.aborters[k], AbortMessage(k), l), t, n);
    case AborterFile(k, f) =>
      assert AllOf(policy, s, n, k);
      AborterFileKeeps(s, k, f, t, n, j);
      AborterFileLosses(s, k, f, t, n, j);
      AborterCalls(s, k, AborterFileMove(s, s.aborters[k], f), t, n);
  }

  lemma {:induction false} Reached(policy: Policy, steps: seq<Step>, s: State)
    requires Run(policy, INIT, steps) == Moved(s)
    ensures Inv(policy, s)
    decreases |steps|
  {
    if |steps| > 0 {
      var before := steps[..|steps| - 1];
      var prior := Run(policy, INIT, before).after;
      Reached(policy, before, prior);
      forall n: Id, j: nat ensures AllOf(policy, s, n, j) {
        StepKeeps(policy, prior, steps[|steps| - 1], s, n, j);
      }
    }
  }

  /** As long as I/O succeeds, a request file disappears only after a response for it was
      written, or while an aborter that read it is about to write its 503. */
  lemma NoRequestLost(policy: Policy, steps: seq<Step>, s: State, id: Id)
    requires Run(policy, INIT, steps) == Moved(s)
    requires !s.faulty && id in s.clients && id !in s.requests
    ensures First(s.writes, id).Some? || exists k :: PendingBy(s, k, id)
  {
    Reached(policy, steps, s);
    assert AllOf(policy, s, id, 0);
  }

  /** Whatever fails: the response a client reads is the first one ever written for its
      request, and carries its id. */
  lemma FirstAnswerWins(policy: Policy, steps: seq<Step>, s: State, id: Id)
    requires Run(policy, INIT, steps) == Moved(s)
    requires id in s.clients && (s.clients[id].Received? || s.clients[id].Served?)
    ensures First(s.writes, id) == Some(s.clients[id].got) && s.clients[id].got.id == id
  {
    Reached(policy, steps, s);
    assert AllOf(policy, s, id, 0);
  }

  /** Whatever fails: the handler sees a request once, and again at most as often as the worker's
      removal of the request file failed silently; and only if authorised. */
  lemma HandlerCalls(policy: Policy, steps: seq<Step>, s: State)
    requires Run(policy, INIT, steps) == Moved(s)
    ensures forall id :: Calls(s.invoked, id) <= 1 + s.losses[id]
    ensures forall i :: 0 <= i < |s.invoked| ==> s.invoked[i].WellFormed? && policy.denial(s.invoked[i]) == None
  {
    Reached(policy, steps, s);
    forall id ensures Calls(s.invoked, id) <= 1 + s.losses[id] {
      assert AllOf(policy, s, id, 0);
    }
    assert AllOf(policy, s, 0, 0);
  }

  /** A queue client that reports failing removals loses none, and has the handler called at most once. */
  lemma {:induction false} HandlerAtMostOnce(policy: Policy, steps: seq<Step>, s: State)
    requires Run(policy, INIT, steps) == Moved(s) && WorkerFile(LosesRemoval) !in steps
    ensures s.losses == multiset{} && forall id :: Calls(s.invoked, id) <= 1
    decreases |steps|
  {
    if |steps| > 0 {
      var before, step := steps[..|steps| - 1], steps[|steps| - 1];
      assert step in steps;
      HandlerAtMostOnce(policy, before, Run(policy, INIT, before).after);
      NothingLost(policy, Run(policy, INIT, before).after, step, s);
    }
    HandlerCalls(policy, steps, s);
  }

  lemma NothingLost(policy: Policy, s: State, step: Step, t: State)
    requires Next(policy, s, step) == Moved(t) && step != WorkerFile(LosesRemoval)
    ensures t.losses == s.losses
  {
    hide LoopMove, WriterMove, AborterScanMove, AborterFileMove, WorkerGoes, AborterGoes, ClientNext;
    match step
    case Client(c) => ClientsLoseNothing(s, c);
    case Loop(l) =>
      LoopTouchesNothing(policy, s, l);
      WorkersLosses(s, LoopMove(policy, s, l));
    case WorkerFile(f) =>
      OnlyOneLoses(s, f);
      WorkersLosses(s, WriterMove(s, f));
    case AborterScan(k, l) =>
      ScanTouchesNothing(s, s.aborters[k], AbortMessage(k), l);
      AbortersLosses(s, k, AborterScanMove(s, s.aborters[k], AbortMessage(k), l));
    case AborterFile(k, f) =>
      AborterNeverLoses(s, s.aborters[k], f);
      AbortersLosses(s, k, AborterFileMove(s, s.aborters[k], f));
    case _ =>
  }

  lemma ClientsLoseNothing(s: State, c: ClientStep)
    ensures ClientNext(s, c).Moved? ==> ClientNext(s, c).after.losses == s.losses
  {
  }

  lemma WorkersLosses(s: State, move: Move<WorkerPc>)
    ensures WorkerGoes(s, move).Moved? ==> move.Go? && WorkerGoes(s, move).after.losses == LossesAfter(s, move.op)
  {
  }

  lemma AbortersLosses(s: State, k: nat, move: Move<AborterPc>)
    requires k in s.aborters
    ensures AborterGoes(s, k, move).Moved? ==> move.Go? && AborterGoes(s, k, move).after.losses == LossesAfter(s, move.op)
  {
  }

  lemma LoopTouchesNothing(policy: Policy, s: State, l: LoopStep)
    ensures var m := LoopMove(policy, s, l); m.Go? ==> m.op == Nothing
  {
  }

  lemma OnlyOneLoses(s: State, f: FileStep)
    ensures var m := WriterMove(s, f); m.Go? && m.op.Lose? ==> f == LosesRemoval
  {
  }

  lemma ScanTouchesNothing(s: State, pc: AborterPc, message: Body, l: LoopStep)
    ensures var m := AborterScanMove(s, pc, message, l); m.Go? ==> m.op == Nothing
  {
  }

  lemma AborterNeverLoses(s: State, pc: AborterPc, f: FileStep)
    ensures var m := AborterFileMove(s, pc, f); m.Go? ==> !m.op.Lose?
  {
  }

  /** When a stop that listed after the server stopped returns, no request file is left, and a
      client's request is answered unless another aborter is about to answer it; a handler may
      still be running. */
  lemma StopDrains(policy: Policy, steps: seq<Step>, s: State, k: nat)
    requires Run(policy, INIT, steps) == Moved(s)
    requires !s.faulty && k in s.drains && k in s.aborters && s.aborters[k] == Done
    ensures s.requests == map[]
    ensures forall id :: id in s.clients ==>
      First(s.writes, id).Some? || exists j :: j != k && PendingBy(s, j, id)
  {
    Reached(policy, steps, s);
    forall n ensures n !in s.requests {
      assert AllOf(policy, s, n, k);
    }
    forall id | id in s.clients ensures First(s.writes, id).Some? || exists j :: j != k && PendingBy(s, j, id) {
      assert AllOf(policy, s, id, k);
      if j :| PendingBy(s, j, id) {
        assert j != k;
      }
    }
  }

  /** When such a stop returns, all clients are answered exactly if whatever another aborter still
      holds has been answered already. */
  lemma StopAnswersIff(policy: Policy, steps: seq<Step>, s: State, k: nat)
    requires Run(policy, INIT, steps) == Moved(s)
    requires !s.faulty && k in s.drains && k in s.aborters && s.aborters[k] == Done
    ensures (forall id :: id in s.clients ==> First(s.writes, id).Some?) <==>
      forall id, j: nat :: id in s.clients && j != k && PendingBy(s, j, id) ==> First(s.writes, id).Some?
  {
    StopDrains(policy, steps, s, k);
  }

  lemma RunStep(policy: Policy, s: State, steps: seq<Step>, t: State, step: Step, u: State)
    requires Run(policy, s, steps) == Moved(t) && Next(policy, t, step) == Moved(u)
    ensures Run(policy, s, steps + [step]) == Moved(u)
  {
    assert (steps + [step])[..|steps + [step]| - 1] == steps;
  }

  lemma Take(policy: Policy, steps: seq<Step>, s: State, step: Step) returns (more: seq<Step>, t: State)
    requires Run(policy, INIT, steps) == Moved(s) && Next(policy, s, step).Moved?
    ensures Run(policy, INIT, more) == Moved(t) && t == Next(policy, s, step).after
  {
    more, t := steps + [step], Next(policy, s, step).after;
    RunStep(policy, INIT, steps, s, step, t);
  }

  lemma TakeLoop(policy: Policy, steps: seq<Step>, s: State, l: LoopStep) returns (more: seq<Step>, t: State)
    requires Run(policy, INIT, steps) == Moved(s) && LoopMove(policy, s, l).Go?
    ensures Run(policy, INIT, more) == Moved(t) && Moved(t) == WorkerGoes(s, LoopMove(policy, s, l))
  {
    more, t := Take(policy, steps, s, Loop(l));
  }

  lemma TakeFile(policy: Policy, steps: seq<Step>, s: State, f: FileStep) returns (more: seq<Step>, t: State)
    requires Run(policy, INIT, steps) == Moved(s) && WriterMove(s, f).Go?
    ensures Run(policy, INIT, more) == Moved(t) && Moved(t) == WorkerGoes(s, WriterMove(s, f))
  {
    more, t := Take(policy, steps, s, WorkerFile(f));
  }

  lemma TakeAborterFile(policy: Policy, steps: seq<Step>, s: State, k: nat, f: FileStep) returns (more: seq<Step>, t: State)
    requires Run(policy, INIT, steps) == Moved(s) && k in s.aborters && AborterFileMove(s, s.aborters[k], f).Go?
    ensures Run(policy, INIT, more) == Moved(t) && Moved(t) == AborterGoes(s, k, AborterFileMove(s, s.aborters[k], f))
  {
    more, t := Take(policy, steps, s, AborterFile(k, f));
  }

  lemma Listing(requests: map<Id, Request>, ids: seq<Id>)
    requires forall id :: id in ids <==> id in requests
    ensures IsListing(ids, requests)
  {
    var listed := set name | name in ids;
    assert forall id :: id in listed <==> id in requests.Keys;
  }

  const PERMISSIVE := Policy(_ => None, 0)

  ghost predicate TwoFiled(s: State) {
    && s.requests == map[1 := WellFormed(1, []), 2 := WellFormed(2, [])] && s.clients == map[1 := Waiting, 2 := Waiting]
    && s.responses == map[] && s.locks == map[] && s.writes == [] && !s.faulty
  }

  /** The loop lists two requests. */
  lemma TwoListed() returns (steps: seq<Step>, s: State)
    ensures Run(PERMISSIVE, INIT, steps) == Moved(s)
    ensures TwoFiled(s) && s.worker == Scanning([1, 2]) && s.aborters == map[] && s.drains == {}
  {
    hide WriterMove, AborterScanMove, AborterFileMove;
    steps, s := Take(PERMISSIVE, [], INIT, Client(Submit(1, [])));
    steps, s := Take(PERMISSIVE, steps, s, Client(Submit(2, [])));
    Listing(s.requests, [1, 2]);
    steps, s := Take(PERMISSIVE, steps, s, Loop(Lists([1, 2])));
  }

  /** The server stops, and a stop whose drain time runs out lists them too. */
  lemma StopListed() returns (steps: seq<Step>, s: State)
    ensures Run(PERMISSIVE, INIT, steps) == Moved(s)
    ensures TwoFiled(s) && s.worker == Scanning([1, 2]) && s.aborters == map[1 := ToScan([1, 2])] && s.drains == {1}
  {
    hide Run, LoopMove, WriterMove, AborterFileMove;
    steps, s := TwoListed();
    steps, s := Take(PERMISSIVE, steps, s, Client(ServerStops));
    steps, s := Take(PERMISSIVE, steps, s, StopCalled);
    steps, s := Take(PERMISSIVE, steps, s, StopAborts(1));
    Listing(s.requests, [1, 2]);
    steps, s := Take(PERMISSIVE, steps, s, AborterScan(1, Lists([1, 2])));
  }

  ghost predicate SecondFiled(s: State) {
    s.requests == map[2 := WellFormed(2, [])] && 2 in s.clients && s.locks == map[] && !s.faulty && 1 in s.drains
    && First(s.writes, 2) == None
  }

  /** The stop reads and removes the first, */
  lemma FirstRemoved() returns (steps: seq<Step>, s: State)
    ensures Run(PERMISSIVE, INIT, steps) == Moved(s)
    ensures SecondFiled(s) && s.worker == Scanning([1, 2]) && s.writes == [] && s.responses == map[]
    ensures s.aborters == map[1 := ToWrite(1, Response(1, 503, WorkerStopped), Acquire, [2])]
  {
    hide Run, LoopMove, WriterMove, ClientNext;
    steps, s := StopListed();
    steps, s := Take(PERMISSIVE, steps, s, AborterScan(1, ReadsFile));
    assert s.aborters == map[1 := ToRemove(1, Response(1, 503, WorkerStopped), [2])];
    steps, s := Take(PERMISSIVE, steps, s, AborterFile(1, Removes));
  }

  lemma FirstChecked() returns (steps: seq<Step>, s: State)
    ensures Run(PERMISSIVE, INIT, steps) == Moved(s)
    ensures s.requests == map[2 := WellFormed(2, [])] && 2 in s.clients && s.locks.Keys == {1} && !s.faulty && 1 in s.drains
    ensures s.worker == Scanning([1, 2]) && s.writes == []
    ensures s.aborters == map[1 := ToWrite(1, Response(1, 503, WorkerStopped), Rename, [2])]
  {
    hide Run, Next, LoopMove, WriterMove, AborterScanMove, First;
    steps, s := FirstRemoved();
    steps, s := TakeAborterFile(PERMISSIVE, steps, s, 1, TakesLock);
    steps, s := TakeAborterFile(PERMISSIVE, steps, s, 1, ChecksResponse);
  }

  /** answers it, */
  lemma FirstAnswered() returns (steps: seq<Step>, s: State)
    ensures Run(PERMISSIVE, INIT, steps) == Moved(s)
    ensures SecondFiled(s) && s.worker == Scanning([1, 2]) && s.aborters == map[1 := ToClean(1, [2])]
  {
    hide Run, Next, LoopMove, WriterMove, AborterScanMove, First;
    steps, s := FirstChecked();
    steps, s := TakeAborterFile(PERMISSIVE, steps, s, 1, Renames);
    FirstAppend([], Write(1, Response(1, 503, WorkerStopped), Aborter(1)), 2);
    assert s.writes == [] + [Write(1, Response(1, 503, WorkerStopped), Aborter(1))];
    NoFirst();
  }

  lemma NoFirst()
    ensures First([], 2) == None
  {
  }

  /** cleans up, */
  lemma FirstCleaned() returns (steps: seq<Step>, s: State)
    ensures Run(PERMISSIVE, INIT, steps) == Moved(s)
    ensures SecondFiled(s) && s.worker == Scanning([1, 2]) && s.aborters == map[1 := ToScan([2])]
  {
    hide Run, LoopMove, WriterMove, ClientNext, AborterScanMove;
    steps, s := FirstAnswered();
    steps, s := Take(PERMISSIVE, steps, s, AborterFile(1, Removes));
  }

  /** the loop fails to read it, */
  lemma LoopFailed() returns (steps: seq<Step>, s: State)
    ensures Run(PERMISSIVE, INIT, steps) == Moved(s)
    ensures SecondFiled(s) && s.aborters.Keys == {0, 1} && s.aborters[0] == ToList && s.aborters[1] == ToScan([2])
  {
    hide Run, WriterMove, ClientNext, AborterScanMove, AborterFileMove;
    steps, s := FirstCleaned();
    steps, s := Take(PERMISSIVE, steps, s, Loop(ReadsFile));
  }

  /** aborts as well, */
  lemma LoopAborts() returns (steps: seq<Step>, s: State)
    ensures Run(PERMISSIVE, INIT, steps) == Moved(s)
    ensures SecondFiled(s) && s.aborters.Keys == {0, 1} && s.aborters[0] == s.aborters[1] == ToScan([2])
  {
    hide Run, LoopMove, WriterMove, ClientNext, AborterFileMove;
    steps, s := LoopFailed();
    Listing(s.requests, [2]);
    steps, s := Take(PERMISSIVE, steps, s, AborterScan(0, Lists([2])));
  }

  /** and in doing so removes the second. */
  lemma SecondTaken() returns (steps: seq<Step>, s: State)
    ensures Run(PERMISSIVE, INIT, steps) == Moved(s)
    ensures s.requests == map[] && 2 in s.clients && !s.faulty && 1 in s.drains && First(s.writes, 2) == None
    ensures 1 in s.aborters && s.aborters[1] == ToScan([2])
  {
    hide Run, LoopMove, WriterMove, ClientNext;
    steps, s := LoopAborts();
    steps, s := Take(PERMISSIVE, steps, s, AborterScan(0, ReadsFile));
    steps, s := Take(PERMISSIVE, steps, s, AborterFile(0, Removes));
  }

  /** The stop passes over it: `stop` can return before that request is answered, with an authoriser
      that throws nothing and no I/O failing. */
  lemma StopMayReturnFirst() returns (steps: seq<Step>, s: State)
    ensures Run(PERMISSIVE, INIT, steps) == Moved(s)
    ensures !s.faulty && 1 in s.drains && 1 in s.aborters && s.aborters[1] == Done
    ensures 2 in s.clients && First(s.writes, 2) == None
  {
    hide Run, LoopMove, WriterMove, ClientNext;
    steps, s := SecondTaken();
    steps, s := Take(PERMISSIVE, steps, s, AborterScan(1, ReadsFile));
    steps, s := Take(PERMISSIVE, steps, s, AborterFile(1, Removes));
    steps, s := Take(PERMISSIVE, steps, s, AborterScan(1, ScansOn));
  }

  // ----- the bound on handler calls is met -----

  /** Request 1 is filed, and the handler has just been called for it. */
  ghost predicate JustCalled(s: State, lost: nat) {
    && s.worker == Handling(1, WellFormed(1, []), []) && s.requests == map[1 := WellFormed(1, [])] && s.locks == map[]
    && s.losses[1] == lost && Calls(s.invoked, 1) == lost + 1
  }

  lemma FirstCall() returns (steps: seq<Step>, s: State)
    ensures Run(PERMISSIVE, INIT, steps) == Moved(s) && JustCalled(s, 0)
  {
    hide WriterMove, AborterScanMove, AborterFileMove;
    steps, s := Take(PERMISSIVE, [], INIT, Client(Submit(1, [])));
    Listing(s.requests, [1]);
    steps, s := TakeLoop(PERMISSIVE, steps, s, Lists([1]));
    steps, s := CalledAgain(steps, s, 0);
  }

  /** What stays while the result is written. */
  ghost predicate SameButWritten(from: State, s: State) {
    s.requests == from.requests && s.losses == from.losses && s.invoked == from.invoked
  }

  /** The handler returns, and the response lock is taken. */
  lemma ResultInHand(before: seq<Step>, from: State, lost: nat) returns (steps: seq<Step>, s: State)
    requires Run(PERMISSIVE, INIT, before) == Moved(from) && JustCalled(from, lost)
    ensures Run(PERMISSIVE, INIT, steps) == Moved(s) && SameButWritten(from, s)
    ensures s.worker.Writing? && s.worker.name == 1 && s.worker.phase == CheckRequest && s.worker.queue == [] && s.locks.Keys == {1}
  {
    hide Run, Next, Calls;
    steps, s := TakeLoop(PERMISSIVE, before, from, Handled(Returned(200, [])));
    steps, s := TakeFile(PERMISSIVE, steps, s, TakesLock);
  }

  /** The response is written or found to be there. */
  lemma ResultWritten(before: seq<Step>, from: State, lost: nat) returns (steps: seq<Step>, s: State)
    requires Run(PERMISSIVE, INIT, before) == Moved(from) && JustCalled(from, lost)
    ensures Run(PERMISSIVE, INIT, steps) == Moved(s) && SameButWritten(from, s)
    ensures s.worker == Removing(1, false, []) && s.locks == map[]
  {
    hide Run, Next, LoopMove, Calls;
    steps, s := ResultInHand(before, from, lost);
    steps, s := TakeFile(PERMISSIVE, steps, s, ChecksRequest);
    steps, s := TakeFile(PERMISSIVE, steps, s, ChecksResponse);
    if s.worker.Writing? {
      steps, s := TakeFile(PERMISSIVE, steps, s, Renames);
    }
  }

  /** The removal is lost, and the loop finds the request again. */
  lemma FoundAgain(before: seq<Step>, from: State) returns (steps: seq<Step>, s: State)
    requires Run(PERMISSIVE, INIT, before) == Moved(from) && from.worker == Removing(1, false, [])
    requires from.requests == map[1 := WellFormed(1, [])] && from.locks == map[]
    ensures Run(PERMISSIVE, INIT, steps) == Moved(s) && s.worker == Scanning([1])
    ensures s.requests == from.requests && s.locks == map[] && s.invoked == from.invoked && s.losses == from.losses + multiset{1}
  {
    hide Run, Next, Calls;
    steps, s := TakeFile(PERMISSIVE, before, from, LosesRemoval);
    steps, s := TakeLoop(PERMISSIVE, steps, s, ScansOn);
    Listing(s.requests, [1]);
    steps, s := TakeLoop(PERMISSIVE, steps, s, Lists([1]));
  }

  lemma CalledAgain(before: seq<Step>, from: State, lost: nat) returns (steps: seq<Step>, s: State)
    requires Run(PERMISSIVE, INIT, before) == Moved(from) && from.worker == Scanning([1])
    requires from.requests == map[1 := WellFormed(1, [])] && from.locks == map[]
    requires from.losses[1] == lost && Calls(from.invoked, 1) == lost
    ensures Run(PERMISSIVE, INIT, steps) == Moved(s) && JustCalled(s, lost)
  {
    hide Run, Next, Calls, WriterMove;
    steps, s := TakeLoop(PERMISSIVE, before, from, ReadsFile);
    steps, s := TakeLoop(PERMISSIVE, steps, s, Authorizes);
    CallsAppend(from.invoked, WellFormed(1, []), 1);
  }

  /** Every removal that fails silently can bring one more call: the bound of `HandlerCalls` is met
      for any number of them. */
  lemma {:induction false} EveryLossMayCallAgain(lost: nat) returns (steps: seq<Step>, s: State)
    ensures Run(PERMISSIVE, INIT, steps) == Moved(s)
    ensures s.losses[1] == lost && Calls(s.invoked, 1) == lost + 1 && JustCalled(s, lost)
  {
    if lost == 0 {
      steps, s := FirstCall();
    } else {
      hide Calls, Run;
      steps, s := EveryLossMayCallAgain(lost - 1);
      steps, s := ResultWritten(steps, s, lost - 1);
      steps, s := FoundAgain(steps, s);
      steps, s := CalledAgain(steps, s, lost);
    }
  }

  // ----- a late handler result -----

  /** The request is gone and the worker, if it has a response for it, has not passed the
      check of the request file. */
  predicate TooLate(s: State, id: Id) {
    && id in s.seen && id !in s.requests
    && !(s.worker.Writing? && s.worker.name == id && (s.worker.phase == CheckResponse || s.worker.phase == Rename))
  }

  lemma TooLateLoop(policy: Policy, s: State, step: LoopStep, t: State, id: Id)
    requires TooLate(s, id) && WorkerGoes(s, LoopMove(policy, s, step)) == Moved(t)
    ensures TooLate(t, id) && t.writes == s.writes
  {
  }

  lemma TooLateWriter(s: State, step: FileStep, t: State, id: Id)
    requires TooLate(s, id) && WorkerGoes(s, WriterMove(s, step)) == Moved(t)
    ensures TooLate(t, id)
    ensures t.writes == s.writes || (exists w :: t.writes == s.writes + [w] && w.name != id)
  {
    if s.worker.Writing? {
      var w := Write(s.worker.name, s.worker.resp, Worker);
      assert t.writes == s.writes || t.writes == s.writes + [w];
    }
  }

  lemma TooLateClient(s: State, step: ClientStep, t: State, id: Id)
    requires TooLate(s, id) && ClientNext(s, step) == Moved(t)
    ensures TooLate(t, id) && t.writes == s.writes
  {
  }

  lemma TooLateAborter(s: State, k: nat, move: Move<AborterPc>, t: State, id: Id)
    requires TooLate(s, id) && k in s.aborters && AborterGoes(s, k, move) == Moved(t)
    ensures TooLate(t, id)
    ensures t.writes == s.writes || (exists w :: t.writes == s.writes + [w] && w.author != Worker)
  {
    if move.op.Answer? {
      assert t.writes == s.writes + [Write(move.op.name, move.op.resp, Aborter(k))];
    }
  }

  /** Once the request is removed, a handler result that has not yet been checked against it
      is never written. */
  lemma {:induction false} LateResultSuppressed(policy: Policy, s: State, steps: seq<Step>, t: State, id: Id)
    requires TooLate(s, id) && Run(policy, s, steps) == Moved(t)
    ensures TooLate(t, id) && |s.writes| <= |t.writes|
    ensures forall i :: |s.writes| <= i < |t.writes| ==> t.writes[i].name != id || t.writes[i].author != Worker
    decreases |steps|
  {
    if |steps| > 0 {
      var before, step := steps[..|steps| - 1], steps[|steps| - 1];
      var prior := Run(policy, s, before).after;
      LateResultSuppressed(policy, s, before, prior, id);
      match step
      case Client(c) => TooLateClient(prior, c, t, id);
      case Loop(l) => TooLateLoop(policy, prior, l, t, id);
      case WorkerFile(f) => TooLateWriter(prior, f, t, id);
      case StopCalled =>
      case StopAborts(_) =>
      case AborterScan(k, l) =>
        TooLateAborter(prior, k, AborterScanMove(prior, prior.aborters[k], AbortMessage(k), l), t, id);
      case AborterFile(k, f) => TooLateAborter(prior, k, AborterFileMove(prior, prior.aborters[k], f), t, id);
    }
  }
}
