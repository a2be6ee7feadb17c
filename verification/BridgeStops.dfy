/** When `stop` is sure to find every request answered, told by the state in which it starts its abort. */
module BridgeStops {
  import opened Bridge
  import opened BridgeInvariants
  import opened BridgeHistory
  import opened BridgeRuns
  import opened BridgeLocks
  import opened Optional
  import opened Sets

  predicate Running(w: WorkerPc) {
    w != LoopLeft && w != Failed
  }

  /** The worker has called the handler for this request or is about to write its response. */
  predicate Answers(w: WorkerPc, id: Id) {
    (w.Handling? || w.Writing?) && w.name == id
  }

  predicate Unanswered(s: State, id: Id) {
    id in s.clients && First(s.writes, id) == None
  }

  /** Aborter `j` holds the request, or still has it to read. */
  predicate MayTake(s: State, j: nat, id: Id) {
    PendingBy(s, j, id) || (id in s.requests && j in s.aborters && (s.aborters[j] == ToList || InLeft(s.aborters[j], id)))
  }

  /** Another aborter may take the request away from stop `k`, or the loop may end before it answers
      it and then abort. */
  predicate ThreatBy(s: State, k: nat, j: nat, id: Id) {
    (j != k && MayTake(s, j, id)) || (id in s.requests && Running(s.worker) && !Answers(s.worker, id))
  }

  ghost predicate NoneThreatened(s: State, k: nat) {
    forall id: Id, j: nat :: Unanswered(s, id) ==> !ThreatBy(s, k, j, id)
  }

  /** A run in which no other stop starts an abort. */
  ghost predicate ContinuesTo(policy: Policy, s: State, more: seq<Step>, t: State) {
    Run(policy, s, more) == Moved(t) && forall i :: 0 <= i < |more| ==> !more[i].StopAborts?
  }

  ghost predicate AllAnswered(s: State) {
    forall id :: id in s.clients ==> First(s.writes, id).Some?
  }

  /** Stop `k` has returned, and all I/O has succeeded. */
  predicate HasReturned(t: State, k: nat) {
    !t.faulty && k in t.aborters && t.aborters[k] == Done
  }

  ghost predicate AlwaysAnswers(policy: Policy, s: State, k: nat) {
    forall more, t :: ContinuesTo(policy, s, more, t) && HasReturned(t, k) ==> AllAnswered(t)
  }

  // ----- without a threat -----

  lemma Spared(policy: Policy, s: State, step: Step, t: State, k: nat, id: Id, j: nat)
    requires Inv(policy, s) && !s.accepting && Next(policy, s, step) == Moved(t) && !t.faulty && !step.StopAborts?
    requires !ThreatBy(s, k, j, id) && Unanswered(t, id)
    ensures !ThreatBy(t, k, j, id)
  {
    hide LoopMove, WriterMove, AborterScanMove, AborterFileMove, WorkerGoes, AborterGoes, ClientNext, Unanswered;
    assert AllOf(policy, s, id, j);
    match step
    case Client(c) => ClientSpares(s, c, t, k, id, j);
    case Loop(l) => LoopSpares(policy, s, l, t, k, id, j);
    case WorkerFile(f) => WriterSpares(s, f, t, k, id, j);
    case StopCalled =>
    case AborterScan(i, l) =>
      assert AllOf(policy, s, id, i);
      ScanSpares(s, i, l, t, k, id, j);
    case AborterFile(i, f) => FileSpares(s, i, f, t, k, id, j);
  }

  lemma ClientSpares(s: State, c: ClientStep, t: State, k: nat, id: Id, j: nat)
    requires !ThreatBy(s, k, j, id) && !s.accepting && ClientNext(s, c) == Moved(t)
    ensures !ThreatBy(t, k, j, id)
  {
  }

  lemma LoopSpares(policy: Policy, s: State, l: LoopStep, t: State, k: nat, id: Id, j: nat)
    requires !ThreatBy(s, k, j, id) && WorkerGoes(s, LoopMove(policy, s, l)) == Moved(t)
    ensures !ThreatBy(t, k, j, id)
  {
  }

  lemma WriterSpares(s: State, f: FileStep, t: State, k: nat, id: Id, j: nat)
    requires !ThreatBy(s, k, j, id) && SeesFirst(s, id) && WorkerGoes(s, WriterMove(s, f)) == Moved(t)
    requires !t.faulty && Unanswered(t, id)
    ensures !ThreatBy(t, k, j, id)
  {
    hide First;
    if s.worker.Writing? {
      FirstAppend(s.writes, Write(s.worker.name, s.worker.resp, Worker), id);
    }
  }

  lemma ScanSpares(s: State, i: nat, l: LoopStep, t: State, k: nat, id: Id, j: nat)
    requires !ThreatBy(s, k, j, id) && FileNamed(s, id) && i in s.aborters
    requires AborterGoes(s, i, AborterScanMove(s, s.aborters[i], AbortMessage(i), l)) == Moved(t) && !t.faulty
    ensures !ThreatBy(t, k, j, id)
  {
  }

  lemma FileSpares(s: State, i: nat, f: FileStep, t: State, k: nat, id: Id, j: nat)
    requires !ThreatBy(s, k, j, id) && i in s.aborters
    requires AborterGoes(s, i, AborterFileMove(s, s.aborters[i], f)) == Moved(t)
    ensures !ThreatBy(t, k, j, id)
  {
  }

  /** What is unanswered was so before; the server stays down; faults are remembered. */
  lemma Onwards(policy: Policy, s: State, step: Step, t: State, id: Id)
    requires Next(policy, s, step) == Moved(t)
    ensures Unanswered(t, id) && !s.accepting ==> Unanswered(s, id)
    ensures !s.accepting ==> !t.accepting
    ensures !t.faulty ==> !s.faulty
    ensures t.clients.Keys >= s.clients.Keys
  {
    hide LoopMove, WriterMove, AborterScanMove, AborterFileMove, WorkerGoes, AborterGoes, ClientNext, Unanswered;
    match step
    case Client(c) => ClientOnwards(s, c, t, id);
    case Loop(l) => WorkerOnwards(s, LoopMove(policy, s, l), t, id);
    case WorkerFile(f) => WorkerOnwards(s, WriterMove(s, f), t, id);
    case AborterScan(k, l) => AborterOnwards(s, k, AborterScanMove(s, s.aborters[k], AbortMessage(k), l), t, id);
    case AborterFile(k, f) => AborterOnwards(s, k, AborterFileMove(s, s.aborters[k], f), t, id);
    case StopCalled => SameAnswers(s, t, id);
    case StopAborts(_) => SameAnswers(s, t, id);
  }

  lemma SameAnswers(s: State, t: State, id: Id)
    requires t.clients == s.clients && t.writes == s.writes
    ensures Unanswered(t, id) ==> Unanswered(s, id)
  {
  }

  lemma ClientOnwards(s: State, c: ClientStep, t: State, id: Id)
    requires ClientNext(s, c) == Moved(t)
    ensures Unanswered(t, id) && !s.accepting ==> Unanswered(s, id)
    ensures (!s.accepting ==> !t.accepting) && t.faulty == s.faulty && t.clients.Keys >= s.clients.Keys
  {
    hide First;
  }

  lemma WorkerOnwards(s: State, move: Move<WorkerPc>, t: State, id: Id)
    requires WorkerGoes(s, move) == Moved(t)
    ensures Unanswered(t, id) ==> Unanswered(s, id)
    ensures t.clients == s.clients && t.accepting == s.accepting && (!t.faulty ==> !s.faulty)
  {
    hide First;
    if move.op.Answer? {
      FirstAppend(s.writes, Write(move.op.name, move.op.resp, Worker), id);
    }
  }

  lemma AborterOnwards(s: State, k: nat, move: Move<AborterPc>, t: State, id: Id)
    requires k in s.aborters && AborterGoes(s, k, move) == Moved(t)
    ensures Unanswered(t, id) ==> Unanswered(s, id)
    ensures t.clients == s.clients && t.accepting == s.accepting && (!t.faulty ==> !s.faulty)
  {
    hide First;
    if move.op.Answer? {
      FirstAppend(s.writes, Write(move.op.name, move.op.resp, Aborter(k)), id);
    }
  }

  /** With the server down, a stop that has begun to list is recorded in `drains`. */
  predicate Drains(s: State, k: nat) {
    !s.accepting && (k in s.aborters && s.aborters[k] != ToList ==> k in s.drains)
  }

  lemma StaysDraining(policy: Policy, s: State, step: Step, t: State, k: nat)
    requires Drains(s, k) && k in s.aborters && k > 0 && Next(policy, s, step) == Moved(t)
    ensures Drains(t, k) && k in t.aborters
  {
    hide LoopMove, WriterMove, AborterScanMove, AborterFileMove, AborterGoes, WorkerGoes, ClientNext;
    match step
    case Client(c) => ClientDrains(s, c, t, k);
    case Loop(l) => WorkerDrains(s, LoopMove(policy, s, l), t, k);
    case WorkerFile(f) => WorkerDrains(s, WriterMove(s, f), t, k);
    case AborterScan(i, l) => AborterDrains(s, i, AborterScanMove(s, s.aborters[i], AbortMessage(i), l), t, k);
    case AborterFile(i, f) => AborterDrains(s, i, AborterFileMove(s, s.aborters[i], f), t, k);
    case _ =>
  }

  lemma ClientDrains(s: State, c: ClientStep, t: State, k: nat)
    requires Drains(s, k) && k in s.aborters && ClientNext(s, c) == Moved(t)
    ensures Drains(t, k) && k in t.aborters
  {
  }

  lemma WorkerDrains(s: State, move: Move<WorkerPc>, t: State, k: nat)
    requires Drains(s, k) && k in s.aborters && k > 0 && WorkerGoes(s, move) == Moved(t)
    ensures Drains(t, k) && k in t.aborters
  {
  }

  lemma AborterDrains(s: State, i: nat, move: Move<AborterPc>, t: State, k: nat)
    requires Drains(s, k) && k in s.aborters && i in s.aborters && AborterGoes(s, i, move) == Moved(t)
    ensures Drains(t, k) && k in t.aborters
  {
  }

  lemma {:induction false} SparedThroughout(policy: Policy, s: State, k: nat, more: seq<Step>, t: State)
    requires Inv(policy, s) && NoneThreatened(s, k) && Drains(s, k) && k in s.aborters && k > 0
    requires ContinuesTo(policy, s, more, t) && !t.faulty
    ensures Inv(policy, t) && NoneThreatened(t, k) && Drains(t, k)  && k in t.aborters
    decreases |more|
  {
    if |more| > 0 {
      var front, step := more[..|more| - 1], more[|more| - 1];
      var prior := Run(policy, s, front).after;
      hide Next, ThreatBy, Unanswered, Drains, AllOf;
      Onwards(policy, prior, step, t, 0);
      SparedThroughout(policy, s, k, front, prior);
      StaysDraining(policy, prior, step, t, k);
      forall n: Id, j: nat ensures AllOf(policy, t, n, j) {
        StepKeeps(policy, prior, step, t, n, j);
      }
      StillNoneThreatened(policy, prior, step, t, k);
    }
  }

  lemma StillNoneThreatened(policy: Policy, s: State, step: Step, t: State, k: nat)
    requires Inv(policy, s) && NoneThreatened(s, k) && !s.accepting && Next(policy, s, step) == Moved(t) && !t.faulty
    requires !step.StopAborts?
    ensures NoneThreatened(t, k)
  {
    hide Next, ThreatBy, Unanswered, Inv;
    forall id: Id, j: nat | Unanswered(t, id) ensures !ThreatBy(t, k, j, id) {
      Onwards(policy, s, step, t, id);
      Spared(policy, s, step, t, k, id, j);
    }
  }

  /** Without a threat, everything is answered when the stop returns. */
  lemma SparedAreAnswered(policy: Policy, s: State, k: nat)
    requires Inv(policy, s) && NoneThreatened(s, k) && Drains(s, k) && k in s.aborters && k > 0
    ensures AlwaysAnswers(policy, s, k)
  {
    hide Run;
    forall more, t | ContinuesTo(policy, s, more, t) && HasReturned(t, k) ensures AllAnswered(t) {
      SparedThroughout(policy, s, k, more, t);
      forall id | id in t.clients ensures First(t.writes, id).Some? {
        assert AllOf(policy, t, id, k);
        if Unanswered(t, id) {
          NonePending(t, k, id);
        }
      }
    }
  }

  lemma NonePending(t: State, k: nat, id: Id)
    requires NoneThreatened(t, k) && HasReturned(t, k) && Unanswered(t, id)
    ensures forall j :: !PendingBy(t, j, id)
  {
    forall j: nat ensures !PendingBy(t, j, id) {
      assert !ThreatBy(t, k, j, id);
    }
  }
}
