/** Who holds a response lock, and what an aborter has removed before it writes. */
module BridgeLocks {
  import opened Bridge
  import opened BridgeInvariants
  import opened BridgeHistory
  import opened BridgeRuns

  /** A lock belongs to a party that is between taking it and giving it up. */
  ghost predicate HasHolder(s: State, n: Id) {
    n in s.locks ==>
      match s.locks[n]
      case Worker => s.worker.Writing? && s.worker.name == n && s.worker.phase != Acquire
      case Aborter(j) =>
        && j in s.aborters && s.aborters[j].ToWrite? && s.aborters[j].name == n
        && (s.aborters[j].phase == CheckResponse || s.aborters[j].phase == Rename)
  }

  ghost predicate RemovedFirst(s: State, j: nat) {
    !s.faulty && j in s.aborters && s.aborters[j].ToWrite? ==> s.aborters[j].name !in s.requests
  }

  ghost predicate LocksOf(s: State, n: Id, j: nat) {
    HasHolder(s, n) && RemovedFirst(s, j)
  }

  ghost predicate LocksHeld(s: State) {
    forall n: Id, j: nat :: LocksOf(s, n, j)
  }

  lemma ClientLocks(s: State, step: ClientStep, t: State, n: Id, j: nat)
    requires LocksOf(s, n, j) && AborterNamed(s, j) && ClientNext(s, step) == Moved(t)
    ensures LocksOf(t, n, j)
  {
  }

  lemma LoopLocks(policy: Policy, s: State, step: LoopStep, t: State, n: Id, j: nat)
    requires LocksOf(s, n, j) && LoopAbortFresh(s) && WorkerLock(s, n) && WorkerGoes(s, LoopMove(policy, s, step)) == Moved(t)
    ensures LocksOf(t, n, j)
  {
  }

  lemma WriterLocks(s: State, step: FileStep, t: State, n: Id, j: nat)
    requires LocksOf(s, n, j) && LoopAbortFresh(s) && WorkerLock(s, n) && WorkerGoes(s, WriterMove(s, step)) == Moved(t)
    ensures LocksOf(t, n, j)
  {
  }

  lemma AborterScanLocks(s: State, k: nat, step: LoopStep, t: State, n: Id, j: nat)
    requires LocksOf(s, n, j) && LocksOf(s, n, k)
    requires k in s.aborters && AborterGoes(s, k, AborterScanMove(s, s.aborters[k], AbortMessage(k), step)) == Moved(t)
    ensures LocksOf(t, n, j)
  {
  }

  lemma AborterFileLocks(s: State, k: nat, step: FileStep, t: State, n: Id, j: nat)
    requires LocksOf(s, n, j) && LocksOf(s, n, k) && AborterLock(s, k, n)
    requires k in s.aborters && AborterGoes(s, k, AborterFileMove(s, s.aborters[k], step)) == Moved(t)
    ensures LocksOf(t, n, j)
  {
  }

  lemma StepLocks(policy: Policy, s: State, step: Step, t: State)
    requires Inv(policy, s) && LocksHeld(s) && Next(policy, s, step) == Moved(t)
    ensures LocksHeld(t)
  {
    hide LoopMove, WriterMove, AborterScanMove, AborterFileMove, WorkerGoes, AborterGoes, ClientNext;
    forall n: Id, j: nat ensures LocksOf(t, n, j) {
      assert LocksOf(s, n, j) && AllOf(policy, s, n, j);
      match step
      case Client(c) => ClientLocks(s, c, t, n, j);
      case Loop(l) => LoopLocks(policy, s, l, t, n, j);
      case WorkerFile(f) => WriterLocks(s, f, t, n, j);
      case StopCalled =>
      case StopAborts(_) =>
      case AborterScan(k, l) =>
        assert LocksOf(s, n, k);
        AborterScanLocks(s, k, l, t, n, j);
      case AborterFile(k, f) =>
        assert LocksOf(s, n, k) && AllOf(policy, s, n, k);
        AborterFileLocks(s, k, f, t, n, j);
    }
  }

  lemma {:induction false} LocksReached(policy: Policy, steps: seq<Step>, s: State)
    requires Run(policy, INIT, steps) == Moved(s)
    ensures LocksHeld(s)
    decreases |steps|
  {
    if |steps| > 0 {
      var before := steps[..|steps| - 1];
      var prior := Run(policy, INIT, before).after;
      LocksReached(policy, before, prior);
      Reached(policy, before, prior);
      StepLocks(policy, prior, steps[|steps| - 1], s);
    }
  }
}
