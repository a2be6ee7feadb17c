/** What the worker loop does when I/O fails, and when there is nothing to do. */
module BridgeFaults {
  import opened Bridge
  import opened BridgeInvariants
  import opened BridgeHistory
  import opened BridgeRuns

  /** The loop is about to go on after a request that is answered or gone. */
  ghost predicate GoesOnSettled(s: State) {
    s.worker.Removing? && !s.worker.rethrow ==> SettledBy(s, s.worker.name)
  }

  lemma WorkerGoesOn(s: State, move: Move<WorkerPc>, t: State)
    requires WorkerGoes(s, move) == Moved(t)
    requires t.worker.Removing? && !t.worker.rethrow ==>
      t.worker.name !in s.requests || First(s.writes, t.worker.name).Some? || (move.op.Answer? && move.op.name == t.worker.name)
    ensures GoesOnSettled(t)
  {
    hide First;
    if move.op.Answer? && t.worker.Removing? {
      FirstAppend(s.writes, Write(move.op.name, move.op.resp, Worker), t.worker.name);
    }
  }

  lemma LoopGoesOn(policy: Policy, s: State, l: LoopStep, t: State)
    requires GoesOnSettled(s) && WorkerGoes(s, LoopMove(policy, s, l)) == Moved(t)
    ensures GoesOnSettled(t)
  {
  }

  lemma WriterGoesOn(s: State, f: FileStep, t: State)
    requires GoesOnSettled(s) && WorkerGoes(s, WriterMove(s, f)) == Moved(t)
    requires s.worker.Writing? ==> SeesFirst(s, s.worker.name)
    ensures GoesOnSettled(t)
  {
    hide First;
    WorkerGoesOn(s, WriterMove(s, f), t);
  }

  lemma OthersGoOn(s: State, t: State, op: FileOp, author: Party)
    requires GoesOnSettled(s) && t.worker == s.worker && t.clients == s.clients
    requires t.requests == RequestsAfter(s, op) && t.writes == WritesAfter(s, op, author)
    ensures GoesOnSettled(t)
  {
    hide First;
    if op.Answer? && t.worker.Removing? {
      FirstAppend(s.writes, Write(op.name, op.resp, author), t.worker.name);
    }
  }

  lemma ClientGoesOn(s: State, c: ClientStep, t: State)
    requires GoesOnSettled(s) && ClientNext(s, c) == Moved(t)
    requires s.worker.Removing? ==> s.worker.name in s.seen
    ensures GoesOnSettled(t)
  {
  }

  lemma StepGoesOn(policy: Policy, s: State, step: Step, t: State)
    requires Inv(policy, s) && RemovingSeen(s) && GoesOnSettled(s) && Next(policy, s, step) == Moved(t)
    ensures GoesOnSettled(t)
  {
    hide LoopMove, WriterMove, AborterScanMove, AborterFileMove, WorkerGoes, ClientNext, GoesOnSettled, AllOf;
    match step
    case Client(c) => ClientGoesOn(s, c, t);
    case Loop(l) => LoopGoesOn(policy, s, l, t);
    case WorkerFile(f) =>
      if s.worker.Writing? {
        SeesFirstWhenReached(policy, s, s.worker.name);
      }
      WriterGoesOn(s, f, t);
    case StopCalled => OthersGoOn(s, t, Nothing, Worker);
    case StopAborts(_) => OthersGoOn(s, t, Nothing, Worker);
    case AborterScan(k, l) => OthersGoOn(s, t, AborterScanMove(s, s.aborters[k], AbortMessage(k), l).op, Aborter(k));
    case AborterFile(k, f) => OthersGoOn(s, t, AborterFileMove(s, s.aborters[k], f).op, Aborter(k));
  }

  lemma SeesFirstWhenReached(policy: Policy, s: State, n: Id)
    requires Inv(policy, s)
    ensures SeesFirst(s, n)
  {
    assert AllOf(policy, s, n, 0);
  }

  ghost predicate RemovingSeen(s: State) {
    s.worker.Removing? ==> s.worker.name in s.seen
  }

  lemma SeenWhenReached(policy: Policy, s: State)
    requires Inv(policy, s)
    ensures RemovingSeen(s)
  {
    if s.worker.Removing? {
      assert AllOf(policy, s, s.worker.name, 0);
    }
  }

  /** Whatever fails: the loop goes on to the next request only when a client's request is answered
      or its file is gone; otherwise the removal is its last act. */
  lemma {:induction false} LoopGoesOnSettled(policy: Policy, steps: seq<Step>, s: State)
    requires Run(policy, INIT, steps) == Moved(s)
    ensures GoesOnSettled(s)
    decreases |steps|
  {
    hide Next, Inv, RemovingSeen;
    if |steps| > 0 {
      var before := steps[..|steps| - 1];
      var prior := Run(policy, INIT, before).after;
      LoopGoesOnSettled(policy, before, prior);
      Reached(policy, before, prior);
      SeenWhenReached(policy, prior);
      StepGoesOn(policy, prior, steps[|steps| - 1], s);
    }
  }

  /** A failed write of a handler's result is followed by a 502 in its place; the loop gives a request
      up only when writing such a failure fails as well, or at once for a refusal. */
  lemma FailedWrites(s: State, f: FileStep, t: State)
    requires WorkerGoes(s, WriterMove(s, f)) == Moved(t) && s.worker.Writing?
    ensures t.worker.Removing? && t.worker.rethrow ==> s.worker.kind == HandlerFailure
    ensures t.worker == Failed ==> s.worker.kind == Refusal
    ensures t.worker.Writing? && t.worker.resp != s.worker.resp ==>
      s.worker.kind == Result && t.worker.kind == HandlerFailure && t.worker.resp == Response(s.worker.resp.id, 502, WriteError)
  {
  }

  /** A removal that was to pass an exception on ends the loop, which then aborts. */
  lemma RethrowEnds(s: State, f: FileStep, t: State)
    requires WorkerGoes(s, WriterMove(s, f)) == Moved(t) && s.worker.Removing? && s.worker.rethrow
    ensures t.worker == Failed && 0 in t.aborters && t.aborters[0] == ToList
  {
  }

  /** Once `stop` was called the deadline ends the loop between two requests; only then. */
  lemma DeadlineEnds(policy: Policy, s: State)
    requires s.worker.Scanning?
    ensures var m := Next(policy, s, Loop(MeetsDeadline)); m.Moved? <==> s.stopping
    ensures var m := Next(policy, s, Loop(MeetsDeadline)); m.Moved? ==> m.after.worker == LoopLeft && m.after.requests == s.requests
  {
  }

  /** A listing that finds nothing ends the loop exactly if `stop` was called. */
  lemma EmptyListing(policy: Policy, s: State, t: State)
    requires s.worker == Polling && s.requests == map[] && Next(policy, s, Loop(Lists([]))) == Moved(t)
    ensures t.worker == if s.stopping then LoopLeft else Polling
  {
  }
}
