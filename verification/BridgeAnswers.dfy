/** What the bridge may answer: who writes which response, and why. */
module BridgeAnswers {
  import opened Bridge
  import opened BridgeInvariants
  import opened BridgeHistory
  import opened BridgeRuns
  import opened Optional

  predicate Submitted(steps: seq<Step>, r: Request) {
    r.WellFormed? && Client(Submit(r.id, r.payload)) in steps
  }

  ghost predicate DeniedFor(policy: Policy, steps: seq<Step>, n: Id, reason: string) {
    exists payload :: Submitted(steps, WellFormed(n, payload)) && policy.denial(WellFormed(n, payload)) == Some(reason)
  }

  ghost predicate FileSourced(steps: seq<Step>, s: State, n: Id) {
    n in s.requests && s.requests[n].WellFormed? ==> Submitted(steps, s.requests[n])
  }

  /** No client filed, or ever will file, a request under this name. */
  predicate IsGarbage(s: State, n: Id) {
    n in s.seen && n !in s.clients
  }

  /** At step `i` the handler, called with the request that was filed as `n` and accepted by the
      authoriser, comes back like this. */
  ghost predicate HandledAt(policy: Policy, steps: seq<Step>, i: nat, n: Id, outcome: Outcome)
    requires i < |steps|
  {
    && steps[i] == Loop(Handled(outcome)) && Run(policy, INIT, steps[..i]).Moved?
    && var w := Run(policy, INIT, steps[..i]).after.worker;
      w.Handling? && Submitted(steps, w.req) && w.req.id == n && policy.denial(w.req) == None
  }

  ghost predicate HandlerDid(policy: Policy, steps: seq<Step>, n: Id, outcome: Outcome) {
    exists i: nat :: i < |steps| && HandledAt(policy, steps, i, n, outcome)
  }

  ghost predicate HandlerReturned(policy: Policy, steps: seq<Step>, n: Id, tooLarge: bool) {
    exists status, body :: HandlerDid(policy, steps, n, Returned(status, body)) && (|body| > policy.maxBodyBytes <==> tooLarge)
  }

  /** Where a worker's response to `n` comes from. */
  ghost predicate BodySourced(policy: Policy, steps: seq<Step>, n: Id, resp: Response) {
    match resp.body
    case InvalidPayload => resp.status == 400
    case Denied(_) => resp.status == 403 && DeniedFor(policy, steps, n, resp.body.reason)
    case Text(_) =>
      HandlerDid(policy, steps, n, Returned(resp.status, resp.body.text)) && |resp.body.text| <= policy.maxBodyBytes
    case TooLarge => resp.status == 502 && HandlerReturned(policy, steps, n, true)
    case Error(_) => resp.status == 502 && HandlerDid(policy, steps, n, Threw(resp.body.message))
    case WriteError => resp.status == 502 && HandlerReturned(policy, steps, n, false)
    case _ => false
  }

  ghost predicate WorkerSourced(policy: Policy, steps: seq<Step>, s: State) {
    match s.worker
    case Authorizing(_, req, _) => Submitted(steps, req)
    case Handling(_, req, _) => Submitted(steps, req) && policy.denial(req) == None
    case Writing(name, resp, kind, _, _) =>
      && BodySourced(policy, steps, name, resp)
      && (resp.body.InvalidPayload? ==> IsGarbage(s, name))
      && (kind == Result ==> HandlerReturned(policy, steps, name, false))
    case _ => true
  }

  /** The loop's own abort and those of a stop name their reasons. */
  predicate AbortsWith(k: nat, resp: Response) {
    resp.status == 503 && resp.body == if k == 0 then WorkerFailed else WorkerStopped
  }

  ghost predicate AborterSpeaks(s: State, k: nat) {
    k in s.aborters && (s.aborters[k].ToRemove? || s.aborters[k].ToWrite?) ==> AbortsWith(k, s.aborters[k].resp)
  }

  ghost predicate IsExplained(policy: Policy, steps: seq<Step>, s: State, w: Write) {
    match w.author
    case Worker => BodySourced(policy, steps, w.name, w.resp) && (w.resp.body.InvalidPayload? ==> IsGarbage(s, w.name))
    case Aborter(k) => AbortsWith(k, w.resp) && k in s.aborters
  }

  ghost predicate WritesExplained(policy: Policy, steps: seq<Step>, s: State) {
    forall i :: 0 <= i < |s.writes| ==> IsExplained(policy, steps, s, s.writes[i])
  }

  /** The loop leaves, and a stop's abort starts, only once `stop` has been called. */
  predicate StopsHaveCause(steps: seq<Step>, s: State) {
    && (s.stopping ==> StopCalled in steps)
    && (s.worker == LoopLeft ==> s.stopping)
    && forall k :: k in s.aborters && k > 0 ==> s.stopping
  }

  ghost predicate Sourced(policy: Policy, steps: seq<Step>, s: State) {
    && WorkerSourced(policy, steps, s) && WritesExplained(policy, steps, s) && StopsHaveCause(steps, s)
    && (forall n :: FileSourced(steps, s, n)) && forall k: nat :: AborterSpeaks(s, k)
  }

  // ----- more steps take nothing away -----

  lemma DenialGrows(policy: Policy, steps: seq<Step>, x: Step, n: Id, reason: string)
    requires DeniedFor(policy, steps, n, reason)
    ensures DeniedFor(policy, steps + [x], n, reason)
  {
    var payload :| Submitted(steps, WellFormed(n, payload)) && policy.denial(WellFormed(n, payload)) == Some(reason);
    assert Submitted(steps + [x], WellFormed(n, payload));
  }

  lemma HandledGrows(policy: Policy, steps: seq<Step>, x: Step, n: Id, outcome: Outcome)
    requires HandlerDid(policy, steps, n, outcome)
    ensures HandlerDid(policy, steps + [x], n, outcome)
  {
    hide Run;
    var i: nat :| i < |steps| && HandledAt(policy, steps, i, n, outcome);
    assert (steps + [x])[..i] == steps[..i];
    assert HandledAt(policy, steps + [x], i, n, outcome);
  }

  lemma ReturnGrows(policy: Policy, steps: seq<Step>, x: Step, n: Id, tooLarge: bool)
    requires HandlerReturned(policy, steps, n, tooLarge)
    ensures HandlerReturned(policy, steps + [x], n, tooLarge)
  {
    hide HandlerDid;
    var status, body :| HandlerDid(policy, steps, n, Returned(status, body)) && (|body| > policy.maxBodyBytes <==> tooLarge);
    HandledGrows(policy, steps, x, n, Returned(status, body));
  }

  lemma BodyGrows(policy: Policy, steps: seq<Step>, x: Step, n: Id, resp: Response)
    requires BodySourced(policy, steps, n, resp)
    ensures BodySourced(policy, steps + [x], n, resp)
  {
    hide DeniedFor, HandlerDid, HandlerReturned;
    match resp.body
    case Denied(reason) => DenialGrows(policy, steps, x, n, reason);
    case Text(text) => HandledGrows(policy, steps, x, n, Returned(resp.status, text));
    case TooLarge => ReturnGrows(policy, steps, x, n, true);
    case Error(message) => HandledGrows(policy, steps, x, n, Threw(message));
    case WriteError => ReturnGrows(policy, steps, x, n, false);
    case _ =>
  }

  lemma SourcedGrows(policy: Policy, steps: seq<Step>, x: Step, s: State)
    requires Sourced(policy, steps, s)
    ensures Sourced(policy, steps + [x], s)
  {
    hide BodySourced, HandlerReturned, AborterSpeaks, AbortsWith;
    forall n, resp | BodySourced(policy, steps, n, resp) ensures BodySourced(policy, steps + [x], n, resp) {
      BodyGrows(policy, steps, x, n, resp);
    }
    forall n | HandlerReturned(policy, steps, n, false) ensures HandlerReturned(policy, steps + [x], n, false) {
      ReturnGrows(policy, steps, x, n, false);
    }
    forall n ensures FileSourced(steps + [x], s, n) {
      assert FileSourced(steps, s, n);
    }
  }

  // ----- each step -----

  /** The step just taken. */
  ghost predicate JustTaken(policy: Policy, steps: seq<Step>, s: State, step: Step) {
    |steps| > 0 && steps[|steps| - 1] == step && Run(policy, INIT, steps[..|steps| - 1]) == Moved(s)
  }

  lemma HandlerComesBack(policy: Policy, steps: seq<Step>, s: State, outcome: Outcome)
    requires Sourced(policy, steps, s) && WorkerNamed(s) && s.worker.Handling?
    requires JustTaken(policy, steps, s, Loop(Handled(outcome)))
    ensures var (resp, kind) := HandlerAnswer(policy, s.worker.req.id, outcome);
      BodySourced(policy, steps, s.worker.name, resp) && (kind == Result ==> HandlerReturned(policy, steps, s.worker.name, false))
  {
    hide Run;
    assert HandledAt(policy, steps, |steps| - 1, s.worker.name, outcome);
    assert HandlerDid(policy, steps, s.worker.name, outcome);
  }

  lemma LoopSourced(policy: Policy, steps: seq<Step>, s: State, l: LoopStep, t: State)
    requires Sourced(policy, steps, s) && WorkerNamed(s) && WorkerGoes(s, LoopMove(policy, s, l)) == Moved(t)
    requires s.worker.Scanning? && |s.worker.queue| > 0 ==> FileNamed(s, s.worker.queue[0])
    requires JustTaken(policy, steps, s, Loop(l))
    ensures Sourced(policy, steps, t)
  {
    hide DeniedFor, Submitted, HandlerDid, HandlerReturned, Run, AbortsWith;
    forall n ensures FileSourced(steps, t, n) {
      assert FileSourced(steps, s, n);
    }
    forall k: nat ensures AborterSpeaks(t, k) {
      assert AborterSpeaks(s, k);
    }
    if s.worker.Scanning? && |s.worker.queue| > 0 {
      assert FileSourced(steps, s, s.worker.queue[0]);
    }
    if s.worker.Authorizing? && policy.denial(s.worker.req).Some? {
      IsDenied(policy, steps, s.worker.req);
    }
    if s.worker.Handling? && l.Handled? {
      HandlerComesBack(policy, steps, s, l.outcome);
    }
  }

  lemma IsDenied(policy: Policy, steps: seq<Step>, req: Request)
    requires Submitted(steps, req) && policy.denial(req).Some?
    ensures DeniedFor(policy, steps, req.id, policy.denial(req).value)
  {
    assert req == WellFormed(req.id, req.payload);
  }

  lemma WriterSourced(policy: Policy, steps: seq<Step>, s: State, f: FileStep, t: State)
    requires Sourced(policy, steps, s) && WorkerGoes(s, WriterMove(s, f)) == Moved(t)
    ensures Sourced(policy, steps, t)
  {
    hide DeniedFor, Submitted, HandlerDid, HandlerReturned, AbortsWith;
    forall n ensures FileSourced(steps, t, n) {
      assert FileSourced(steps, s, n);
    }
    forall k: nat ensures AborterSpeaks(t, k) {
      assert AborterSpeaks(s, k);
    }
  }

  lemma AborterSourced(policy: Policy, steps: seq<Step>, s: State, k: nat, move: Move<AborterPc>, t: State)
    requires Sourced(policy, steps, s) && k in s.aborters && AborterGoes(s, k, move) == Moved(t)
    requires move.Go? && move.op.Answer? ==> AbortsWith(k, move.op.resp)
    requires move.Go? && (move.pc.ToRemove? || move.pc.ToWrite?) ==> AbortsWith(k, move.pc.resp)
    ensures Sourced(policy, steps, t)
  {
    hide BodySourced, Submitted, HandlerReturned, AbortsWith;
    forall n ensures FileSourced(steps, t, n) {
      assert FileSourced(steps, s, n);
    }
    forall j: nat ensures AborterSpeaks(t, j) {
      assert AborterSpeaks(s, j);
    }
  }

  lemma ScanSpeaks(s: State, k: nat, l: LoopStep)
    requires k in s.aborters
    ensures var move := AborterScanMove(s, s.aborters[k], AbortMessage(k), l);
      move.Go? ==> !move.op.Answer? && (move.pc.ToRemove? || move.pc.ToWrite? ==> AbortsWith(k, move.pc.resp))
  {
  }

  lemma FileSpeaks(s: State, k: nat, f: FileStep)
    requires k in s.aborters && AborterSpeaks(s, k)
    ensures var move := AborterFileMove(s, s.aborters[k], f);
      move.Go? ==>
        && (move.op.Answer? ==> AbortsWith(k, move.op.resp))
        && (move.pc.ToRemove? || move.pc.ToWrite? ==> AbortsWith(k, move.pc.resp))
  {
  }

  lemma ClientSourced(policy: Policy, steps: seq<Step>, s: State, c: ClientStep, t: State)
    requires Sourced(policy, steps, s) && ClientNext(s, c) == Moved(t) && Client(c) in steps
    ensures Sourced(policy, steps, t)
  {
    hide DeniedFor, HandlerDid, HandlerReturned, AbortsWith;
    forall n ensures FileSourced(steps, t, n) {
      assert FileSourced(steps, s, n);
    }
    forall k: nat ensures AborterSpeaks(t, k) {
      assert AborterSpeaks(s, k);
    }
  }

  lemma StopSourced(policy: Policy, steps: seq<Step>, s: State, step: Step, t: State)
    requires Sourced(policy, steps, s) && step in steps && (step.StopCalled? || step.StopAborts?)
    requires Next(policy, s, step) == Moved(t)
    ensures Sourced(policy, steps, t)
  {
    hide BodySourced, Submitted, HandlerReturned, AbortsWith;
    forall n ensures FileSourced(steps, t, n) {
      assert FileSourced(steps, s, n);
    }
    forall k: nat ensures AborterSpeaks(t, k) {
      assert AborterSpeaks(s, k);
    }
  }

  lemma StepSourced(policy: Policy, steps: seq<Step>, s: State, step: Step, t: State)
    requires Sourced(policy, steps, s) && Inv(policy, s) && Next(policy, s, step) == Moved(t)
    requires JustTaken(policy, steps, s, step)
    ensures Sourced(policy, steps, t)
  {
    hide WorkerSourced, WritesExplained, FileSourced, StopsHaveCause, Inv, Run, LoopMove, WriterMove, AborterScanMove, AborterFileMove,
      WorkerGoes, AborterGoes, ClientNext;
    assert step in steps;
    match step
    case Client(c) => ClientSourced(policy, steps, s, c, t);
    case Loop(l) =>
      NamedWhenReached(policy, s);
      if s.worker.Scanning? && |s.worker.queue| > 0 {
        FileNamedWhenReached(policy, s, s.worker.queue[0]);
      }
      LoopSourced(policy, steps, s, l, t);
    case WorkerFile(f) => WriterSourced(policy, steps, s, f, t);
    case StopCalled => StopSourced(policy, steps, s, step, t);
    case StopAborts(_) => StopSourced(policy, steps, s, step, t);
    case AborterScan(k, l) =>
      ScanSpeaks(s, k, l);
      AborterSourced(policy, steps, s, k, AborterScanMove(s, s.aborters[k], AbortMessage(k), l), t);
    case AborterFile(k, f) =>
      assert AborterSpeaks(s, k);
      FileSpeaks(s, k, f);
      AborterSourced(policy, steps, s, k, AborterFileMove(s, s.aborters[k], f), t);
  }

  lemma NamedWhenReached(policy: Policy, s: State)
    requires Inv(policy, s)
    ensures WorkerNamed(s) && LoopAbortFresh(s)
  {
    assert AllOf(policy, s, 0, 0);
  }

  lemma FileNamedWhenReached(policy: Policy, s: State, n: Id)
    requires Inv(policy, s)
    ensures FileNamed(s, n)
  {
    assert AllOf(policy, s, n, 0);
  }

  lemma InitSourced(policy: Policy)
    ensures Sourced(policy, [], INIT)
  {
  }

  lemma {:induction false} RunSourced(policy: Policy, steps: seq<Step>, s: State)
    requires Run(policy, INIT, steps) == Moved(s)
    ensures Sourced(policy, steps, s)
    decreases |steps|
  {
    hide Sourced, Inv, Next;
    if |steps| == 0 {
      InitSourced(policy);
    } else {
      var before, step := steps[..|steps| - 1], steps[|steps| - 1];
      var prior := Run(policy, INIT, before).after;
      RunSourced(policy, before, prior);
      SourcedGrows(policy, before, step, prior);
      assert steps == before + [step];
      Reached(policy, before, prior);
      StepSourced(policy, steps, prior, step, s);
    }
  }

  // ----- the promises -----

  /** Whatever fails: a response of the worker is a 400 to a file that no client wrote, a 403 with
      the reason for which the request was denied, what the handler returned for it with the
      handler's status, or a 502 that says in which way the handler or its result failed; everyone
      else answers 503, the loop's abort after the loop failed and a stop's after `stop` was called. */
  lemma AnswersFit(policy: Policy, steps: seq<Step>, s: State)
    requires Run(policy, INIT, steps) == Moved(s)
    ensures WritesExplained(policy, steps, s) && StopsHaveCause(steps, s)
    ensures 0 in s.aborters ==> s.worker == Failed
  {
    hide Run, WorkerSourced, WritesExplained, StopsHaveCause, FileSourced, AborterSpeaks, Inv;
    RunSourced(policy, steps, s);
    Reached(policy, steps, s);
    NamedWhenReached(policy, s);
  }

  lemma {:induction false} FirstWrite(writes: seq<Write>, id: Id) returns (i: nat)
    requires First(writes, id).Some?
    ensures i < |writes| && writes[i].name == id && writes[i].resp == First(writes, id).value
  {
    var before := writes[..|writes| - 1];
    if First(before, id).Some? {
      i := FirstWrite(before, id);
    } else {
      i := |writes| - 1;
    }
  }

  ghost predicate IsAnswerTo(policy: Policy, steps: seq<Step>, s: State, id: Id, got: Response) {
    match got.body
    case InvalidPayload => false
    case WorkerFailed => got.status == 503 && s.worker == Failed
    case WorkerStopped => got.status == 503 && StopCalled in steps
    case _ => BodySourced(policy, steps, id, got)
  }

  /** End to end, whatever fails: what a client gets is about the request it filed.  A text and its
      status are what the handler returned for that request; a 403 has the reason for which it was
      denied; a 502 tells of a handler that threw, or returned too much, or whose result could not
      be written; a 503 comes from an abort that had cause; and a 400 never reaches it. */
  lemma ClientsAnswer(policy: Policy, steps: seq<Step>, s: State, id: Id)
    requires Run(policy, INIT, steps) == Moved(s)
    requires id in s.clients && (s.clients[id].Received? || s.clients[id].Served?)
    ensures IsAnswerTo(policy, steps, s, id, s.clients[id].got)
  {
    hide Run, First, DeniedFor, HandlerDid, HandlerReturned;
    FirstAnswerWins(policy, steps, s, id);
    AnswersFit(policy, steps, s);
    var i := FirstWrite(s.writes, id);
    assert IsExplained(policy, steps, s, s.writes[i]);
  }
}
