/** What every step of the bridge keeps.

Each invariant is stated for one name (or one aborter) at a time: its step lemma needs the
invariant only for that name and for the party that moves. */
module BridgeInvariants {
  import opened Bridge
  import opened Optional

  lemma FirstAppend(writes: seq<Write>, w: Write, name: Id)
    ensures First(writes + [w], name) ==
      if First(writes, name).Some? then First(writes, name) else if w.name == name then Some(w.resp) else None
  {
    assert (writes + [w])[..|writes + [w]| - 1] == writes;
  }

  // ----- names and ids agree everywhere -----

  ghost predicate FileNamed(s: State, n: Id) {
    && (n in s.requests ==> n in s.seen)
    && (n in s.clients ==> n in s.seen)
    && (n in s.responses ==> n in s.seen && s.responses[n].id == n)
    && (n in s.requests ==> (s.requests[n].WellFormed? <==> n in s.clients))
    && (n in s.requests && s.requests[n].WellFormed? ==> s.requests[n].id == n && n != NO_ID)
    && (First(s.writes, n).Some? ==> n in s.seen && First(s.writes, n).value.id == n)
  }

  ghost predicate WorkerNamed(s: State) {
    match s.worker
    case Authorizing(name, req, _) => req.WellFormed? && req.id == name && name in s.seen
    case Handling(name, req, _) => req.WellFormed? && req.id == name && name in s.seen
    case Writing(name, resp, _, _, _) => resp.id == name && name in s.seen
    case _ => true
  }

  predicate InLeft(pc: AborterPc, n: Id) {
    match pc
    case ToScan(queue) => n in queue
    case ToRemove(name, _, queue) => n == name || n in queue
    case ToWrite(name, _, _, queue) => n == name || n in queue
    case ToClean(name, queue) => n == name || n in queue
    case _ => false
  }

  predicate InWorkersLeft(w: WorkerPc, n: Id) {
    match w
    case Scanning(queue) => n in queue
    case Authorizing(name, _, queue) => n == name || n in queue
    case Handling(name, _, queue) => n == name || n in queue
    case Writing(name, _, _, _, queue) => n == name || n in queue
    case Removing(name, _, queue) => n == name || n in queue
    case _ => false
  }

  /** Only names that were filed once are ever listed. */
  ghost predicate QueuedWasSeen(s: State, k: nat, n: Id) {
    && (InWorkersLeft(s.worker, n) ==> n in s.seen)
    && (k in s.aborters && InLeft(s.aborters[k], n) ==> n in s.seen)
  }

  ghost predicate AborterNamed(s: State, k: nat) {
    k in s.aborters ==>
      match s.aborters[k]
      case ToRemove(name, resp, _) => resp.id == name && name in s.seen
      case ToWrite(name, resp, _, _) => resp.id == name && name in s.seen
      case _ => true
  }

  // ----- the response lock -----

  ghost predicate WorkerLock(s: State, n: Id) {
    s.worker.Writing? && s.worker.phase != Acquire && s.worker.name == n ==>
      && n in s.locks && s.locks[n] == Worker
      && (s.worker.phase == Rename ==> n !in s.responses)
  }

  ghost predicate AborterLock(s: State, k: nat, n: Id) {
    k in s.aborters && s.aborters[k].ToWrite? && s.aborters[k].phase != Acquire && s.aborters[k].name == n ==>
      && n in s.locks && s.locks[n] == Aborter(k)
      && (s.aborters[k].phase == Rename ==> n !in s.responses)
  }

  // ----- what clients get -----

  ghost predicate SeesFirst(s: State, id: Id) {
    && (id in s.responses ==> First(s.writes, id).Some?)
    && (id in s.clients ==>
        match s.clients[id]
        case Waiting => First(s.writes, id) == if id in s.responses then Some(s.responses[id]) else None
        case Received(got) => First(s.writes, id) == Some(got)
        case Served(got) => First(s.writes, id) == Some(got)
        case TimedOut => true)
  }

  ghost predicate AboutName(s: State, n: Id) {
    FileNamed(s, n) && WorkerLock(s, n) && SeesFirst(s, n)
  }

  ghost predicate AboutAborter(s: State, k: nat, n: Id) {
    AborterNamed(s, k) && AborterLock(s, k, n) && QueuedWasSeen(s, k, n)
  }

  // The moves of worker and aborters keep all of this; the name and the aborter are arbitrary.

  lemma ClientKeeps(s: State, step: ClientStep, t: State, n: Id, j: nat)
    requires AboutName(s, n) && WorkerNamed(s) && AboutAborter(s, j, n) && ClientNext(s, step) == Moved(t)
    ensures AboutName(t, n) && WorkerNamed(t) && AboutAborter(t, j, n)
  {
  }

  lemma LoopKeeps(policy: Policy, s: State, step: LoopStep, t: State, n: Id, j: nat)
    requires AboutName(s, n) && WorkerNamed(s) && AboutAborter(s, j, n)
    requires WorkerGoes(s, LoopMove(policy, s, step)) == Moved(t)
    requires s.worker.Scanning? && |s.worker.queue| > 0 ==> FileNamed(s, s.worker.queue[0])
    ensures AboutName(t, n) && WorkerNamed(t) && AboutAborter(t, j, n)
  {
  }

  lemma WriterKeeps(s: State, step: FileStep, t: State, n: Id, j: nat)
    requires AboutName(s, n) && WorkerNamed(s) && AboutAborter(s, j, n)
    requires WorkerGoes(s, WriterMove(s, step)) == Moved(t)
    ensures AboutName(t, n) && WorkerNamed(t) && AboutAborter(t, j, n)
  {
    hide WriterMove, WorkerGoes;
    WriterKeepsNames(s, step, t, n);
    WriterKeepsAborters(s, step, t, n, j);
  }

  lemma WriterKeepsAborters(s: State, step: FileStep, t: State, n: Id, j: nat)
    requires FileNamed(s, n) && WorkerLock(s, n) && WorkerNamed(s) && AboutAborter(s, j, n)
    requires WorkerGoes(s, WriterMove(s, step)) == Moved(t)
    ensures AboutAborter(t, j, n)
  {
    hide First;
  }

  lemma WriterKeepsNames(s: State, step: FileStep, t: State, n: Id)
    requires AboutName(s, n) && WorkerNamed(s)
    requires WorkerGoes(s, WriterMove(s, step)) == Moved(t)
    ensures AboutName(t, n) && WorkerNamed(t)
  {
    hide First;
    if s.worker.Writing? {
      FirstAppend(s.writes, Write(s.worker.name, s.worker.resp, Worker), n);
    }
  }

  lemma AborterScanKeeps(s: State, k: nat, step: LoopStep, t: State, n: Id, j: nat)
    requires AboutName(s, n) && WorkerNamed(s) && AboutAborter(s, j, n) && AboutAborter(s, k, n)
    requires k in s.aborters && AborterGoes(s, k, AborterScanMove(s, s.aborters[k], AbortMessage(k), step)) == Moved(t)
    requires s.aborters[k].ToScan? && |s.aborters[k].queue| > 0 ==> FileNamed(s, s.aborters[k].queue[0])
    ensures AboutName(t, n) && WorkerNamed(t) && AboutAborter(t, j, n)
  {
  }

  lemma AborterFileKeeps(s: State, k: nat, step: FileStep, t: State, n: Id, j: nat)
    requires AboutName(s, n) && WorkerNamed(s) && AboutAborter(s, j, n) && AboutAborter(s, k, n)
    requires k in s.aborters && AborterGoes(s, k, AborterFileMove(s, s.aborters[k], step)) == Moved(t)
    ensures AboutName(t, n) && WorkerNamed(t) && AboutAborter(t, j, n)
  {
    hide AborterFileMove, AborterGoes;
    AborterFileKeepsNames(s, k, step, t, n);
    AborterFileKeepsAborters(s, k, step, t, n, j);
  }

  lemma AborterFileKeepsAborters(s: State, k: nat, step: FileStep, t: State, n: Id, j: nat)
    requires FileNamed(s, n) && AboutAborter(s, j, n) && AboutAborter(s, k, n)
    requires k in s.aborters && AborterGoes(s, k, AborterFileMove(s, s.aborters[k], step)) == Moved(t)
    ensures AboutAborter(t, j, n)
  {
    hide First;
  }

  lemma AborterFileKeepsNames(s: State, k: nat, step: FileStep, t: State, n: Id)
    requires AboutName(s, n) && WorkerNamed(s) && AboutAborter(s, k, n)
    requires k in s.aborters && AborterGoes(s, k, AborterFileMove(s, s.aborters[k], step)) == Moved(t)
    ensures AboutName(t, n) && WorkerNamed(t)
  {
    hide First;
    if s.aborters[k].ToWrite? {
      FirstAppend(s.writes, Write(s.aborters[k].name, s.aborters[k].resp, Aborter(k)), n);
    }
  }
}
