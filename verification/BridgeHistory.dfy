/** What the history of a run says about lost requests, handler calls and draining. */
module BridgeHistory {
  import opened Bridge
  import opened BridgeInvariants
  import opened Optional

  predicate PendingBy(s: State, k: nat, id: Id) {
    k in s.aborters && (s.aborters[k].ToRemove? || s.aborters[k].ToWrite?) && s.aborters[k].name == id
  }

  /** A client's request is still filed, has been answered, or an aborter that read it is
      about to write its 503. */
  ghost predicate Accounted(s: State, id: Id) {
    id in s.clients ==> id in s.requests || First(s.writes, id).Some? || exists k :: PendingBy(s, k, id)
  }

  ghost predicate SettledBy(s: State, id: Id) {
    id in s.clients ==> First(s.writes, id).Some? || id !in s.requests
  }

  ghost predicate NotLost(s: State, id: Id) {
    !s.faulty ==> Accounted(s, id) && (s.worker.Removing? && s.worker.name == id ==> SettledBy(s, id))
  }

  ghost predicate CleansSettled(s: State, k: nat, id: Id) {
    !s.faulty && k in s.aborters && s.aborters[k].ToClean? && s.aborters[k].name == id ==> SettledBy(s, id)
  }

  /** How often the handler was called for an id. */
  function Calls(invoked: seq<Request>, id: Id): nat {
    if |invoked| == 0 then 0
    else
      var r := invoked[|invoked| - 1];
      Calls(invoked[..|invoked| - 1], id) + if r.WellFormed? && r.id == id then 1 else 0
  }

  lemma CallsAppend(invoked: seq<Request>, r: Request, id: Id)
    ensures Calls(invoked + [r], id) == Calls(invoked, id) + if r.WellFormed? && r.id == id then 1 else 0
  {
    assert (invoked + [r])[..|invoked + [r]| - 1] == invoked;
  }

  predicate InHand(w: WorkerPc, id: Id) {
    match w
    case Handling(name, _, _) => name == id
    case Writing(name, _, kind, _, _) => name == id && kind != Refusal
    case Removing(name, _, _) => name == id
    case _ => false
  }

  /** One call, and one more for every time that the worker lost the removal of the file. */
  ghost predicate CalledWithin(s: State, id: Id) {
    && Calls(s.invoked, id) <= 1 + s.losses[id]
    && (Calls(s.invoked, id) > 0 ==> id in s.seen)
    && (Calls(s.invoked, id) > s.losses[id] && id in s.requests ==>
        s.worker == LoopLeft || s.worker == Failed || InHand(s.worker, id))
    && (s.worker.Authorizing? && s.worker.name == id ==> Calls(s.invoked, id) <= s.losses[id])
  }

  predicate AllAuthorized(policy: Policy, invoked: seq<Request>) {
    forall i :: 0 <= i < |invoked| ==> invoked[i].WellFormed? && policy.denial(invoked[i]) == None
  }

  /** An aborter that listed after the server stopped still has every filed request ahead of it. */
  ghost predicate Draining(s: State, k: nat, n: Id) {
    k in s.drains ==>
      && !s.accepting && k in s.aborters && !s.aborters[k].ToList?
      && (!s.faulty && n in s.requests ==> InLeft(s.aborters[k], n))
  }

  /** The loop's own abort has not started while the loop is alive. */
  predicate LoopAbortFresh(s: State) {
    s.worker != Failed ==> 0 !in s.aborters
  }

  ghost predicate LossesOf(s: State, n: Id, j: nat) {
    NotLost(s, n) && CleansSettled(s, j, n) && Draining(s, j, n) && LoopAbortFresh(s)
  }

  lemma StillPending(s: State, t: State, n: Id)
    requires (exists k :: PendingBy(s, k, n))
    requires forall k :: PendingBy(s, k, n) ==> PendingBy(t, k, n) || First(t.writes, n).Some?
    ensures First(t.writes, n).Some? || exists k :: PendingBy(t, k, n)
  {
  }

  lemma ClientLosses(s: State, step: ClientStep, t: State, n: Id, j: nat)
    requires LossesOf(s, n, j) && FileNamed(s, n) && QueuedWasSeen(s, j, n) && ClientNext(s, step) == Moved(t)
    ensures LossesOf(t, n, j)
  {
    if exists k :: PendingBy(s, k, n) {
      StillPending(s, t, n);
    }
  }

  lemma LoopLosses(policy: Policy, s: State, step: LoopStep, t: State, n: Id, j: nat)
    requires LossesOf(s, n, j) && WorkerGoes(s, LoopMove(policy, s, step)) == Moved(t)
    ensures LossesOf(t, n, j)
  {
    if exists k :: PendingBy(s, k, n) {
      StillPending(s, t, n);
    }
  }

  lemma WriterLosses(s: State, step: FileStep, t: State, n: Id, j: nat)
    requires LossesOf(s, n, j) && AboutName(s, n) && WorkerGoes(s, WriterMove(s, step)) == Moved(t)
    ensures LossesOf(t, n, j)
  {
    hide First;
    if s.worker.Writing? {
      FirstAppend(s.writes, Write(s.worker.name, s.worker.resp, Worker), n);
    }
    if exists k :: PendingBy(s, k, n) {
      StillPending(s, t, n);
    }
  }

  lemma AborterScanLosses(s: State, k: nat, step: LoopStep, t: State, n: Id, j: nat)
    requires LossesOf(s, n, j) && FileNamed(s, n)
    requires k in s.aborters && AborterGoes(s, k, AborterScanMove(s, s.aborters[k], AbortMessage(k), step)) == Moved(t)
    ensures LossesOf(t, n, j)
  {
    if exists i :: PendingBy(s, i, n) {
      StillPending(s, t, n);
    }
  }

  lemma AborterFileLosses(s: State, k: nat, step: FileStep, t: State, n: Id, j: nat)
    requires LossesOf(s, n, j) && LossesOf(s, n, k) && AboutName(s, n)
    requires k in s.aborters && AborterGoes(s, k, AborterFileMove(s, s.aborters[k], step)) == Moved(t)
    ensures LossesOf(t, n, j)
  {
    hide First;
    if s.aborters[k].ToWrite? {
      FirstAppend(s.writes, Write(s.aborters[k].name, s.aborters[k].resp, Aborter(k)), n);
    }
    assert s.aborters[k].ToRemove? && s.aborters[k].name == n ==> PendingBy(t, k, n);
    if !t.faulty && exists i :: PendingBy(s, i, n) {
      StillPending(s, t, n);
    }
  }

  /** What a step of the loop can change about handler calls: only an authorised request
      reaches the handler, and it is the one just read. */
  ghost predicate LoopCallChange(policy: Policy, s: State, t: State, n: Id) {
    && t.requests == s.requests && t.seen == s.seen && t.losses == s.losses
    && s.worker != LoopLeft && s.worker != Failed
    && (t.worker.Authorizing? ==> s.worker.Scanning? && t.worker.name in s.requests)
    && (InHand(s.worker, n) ==> t.worker == Failed || InHand(t.worker, n))
    && if s.worker.Authorizing? && t.worker.Handling?
       then && t.invoked == s.invoked + [s.worker.req] && t.worker.name == s.worker.name
            && s.worker.req.WellFormed? && policy.denial(s.worker.req) == None
       else t.invoked == s.invoked
  }

  lemma LoopChangesCalls(policy: Policy, s: State, step: LoopStep, t: State, n: Id)
    requires WorkerGoes(s, LoopMove(policy, s, step)) == Moved(t)
    ensures LoopCallChange(policy, s, t, n)
  {
  }

  lemma LoopCalls(policy: Policy, s: State, t: State, n: Id)
    requires CalledWithin(s, n) && AllAuthorized(policy, s.invoked) && FileNamed(s, n) && WorkerNamed(s)
    requires LoopCallChange(policy, s, t, n)
    ensures CalledWithin(t, n) && AllAuthorized(policy, t.invoked)
  {
    if s.worker.Authorizing? {
      CallsAppend(s.invoked, s.worker.req, n);
    }
  }

  lemma WriterCalls(s: State, step: FileStep, t: State, n: Id)
    requires CalledWithin(s, n) && WorkerGoes(s, WriterMove(s, step)) == Moved(t)
    ensures CalledWithin(t, n) && t.invoked == s.invoked
  {
  }

  lemma ClientCalls(s: State, step: ClientStep, t: State, n: Id)
    requires CalledWithin(s, n) && ClientNext(s, step) == Moved(t)
    ensures CalledWithin(t, n) && t.invoked == s.invoked
  {
  }

  lemma AborterCalls(s: State, k: nat, move: Move<AborterPc>, t: State, n: Id)
    requires CalledWithin(s, n) && k in s.aborters && AborterGoes(s, k, move) == Moved(t)
    ensures CalledWithin(t, n) && t.invoked == s.invoked
  {
  }
}
