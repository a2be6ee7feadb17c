/** The sandbox callback bridge: a request/response protocol over a queue directory.

Clients in the sandbox drop request files and poll for response files; one host worker
lists, reads, authorises, handles, answers and removes requests; aborters (the worker's own
failure path, and every `stop`) answer what is left with 503.  Each step below is what one
party does between two points where another may run.  A response is written under a lock
per response path, so the checks and the rename exclude other writers of that response,
but neither the removal of a request nor a client's consumption of a response.

The history fields (`seen`, `writes`, `invoked`, `drains`, `losses`, `faulty`) only record. */
module Bridge {
  import opened Optional

  /** Request ids, which are also the file names; NO_ID is the empty string. */
  type Id = int

  const NO_ID: Id := 0

  /** A request file, named after its id: parsed JSON, or text that does not parse. */
  datatype Request = WellFormed(id: Id, payload: string) | Malformed(raw: string)

  /** A response body: what the handler produced, or one of the bridge's own error texts. */
  datatype Body =
    | Text(text: string)
    | InvalidPayload
    | Denied(reason: string)
    | TooLarge
    | Error(message: string)
    | WriteError
    | WorkerFailed
    | WorkerStopped

  datatype Response = Response(id: Id, status: int, body: Body)

  datatype ClientState = Waiting | Received(got: Response) | Served(got: Response) | TimedOut

  datatype Party = Worker | Aborter(n: nat)

  datatype Phase = Acquire | CheckRequest | CheckResponse | Rename

  /** What a worker's response answers: decides what a failed write leads to. */
  datatype Kind = Refusal | Result | HandlerFailure

  datatype WorkerPc =
    | Polling
    | Scanning(queue: seq<Id>)
    | Authorizing(name: Id, req: Request, queue: seq<Id>)
    | Handling(name: Id, req: Request, queue: seq<Id>)
    | Writing(name: Id, resp: Response, kind: Kind, phase: Phase, queue: seq<Id>)
    | Removing(name: Id, rethrow: bool, queue: seq<Id>)
    | LoopLeft
    | Failed

  datatype AborterPc =
    | ToList
    | ToScan(queue: seq<Id>)
    | ToRemove(name: Id, resp: Response, queue: seq<Id>)
    | ToWrite(name: Id, resp: Response, phase: Phase, queue: seq<Id>)
    | ToClean(name: Id, queue: seq<Id>)
    | Done

  datatype Write = Write(name: Id, resp: Response, author: Party)

  datatype State = State(
    requests: map<Id, Request>,
    responses: map<Id, Response>,
    locks: map<Id, Party>,
    clients: map<Id, ClientState>,
    accepting: bool,
    stopping: bool,
    worker: WorkerPc,
    aborters: map<nat, AborterPc>,
    seen: set<Id>,
    writes: seq<Write>,
    invoked: seq<Request>,
    drains: set<nat>,
    losses: multiset<Id>,
    faulty: bool)

  /** The one change a step makes to the queue directory.  Answering a request renames the
      response into place and gives up the lock; losing a removal leaves the file, unnoticed. */
  datatype FileOp =
    | Nothing
    | Lock(name: Id)
    | Unlock(name: Id)
    | Answer(name: Id, resp: Response)
    | Delete(name: Id)
    | Lose(name: Id)

  /** A party's next program counter with its file operation; `fault` marks failing I/O. */
  datatype Move<+Pc> = Stuck | Go(pc: Pc, op: FileOp, fault: bool)

  datatype Attempt = Impossible | Moved(after: State)

  /** The authoriser's denial reason, if any, and the limit on response bodies. */
  datatype Policy = Policy(denial: Request -> Option<string>, maxBodyBytes: nat)

  datatype Outcome = Returned(status: int, body: string) | Threw(message: string)

  datatype ClientStep =
    | Submit(id: Id, payload: string)
    | DropGarbage(name: Id, raw: string)
    | ServerStops
    | Reads(id: Id)
    | Consumes(id: Id)
    | TimesOut(id: Id)

  datatype LoopStep =
    | Lists(order: seq<Id>)
    | ListFails
    | ScansOn
    | MeetsDeadline
    | ReadsFile
    | ReadFails
    | Authorizes
    | AuthorizerThrows
    | Handled(outcome: Outcome)

  /** Steps of the locked response write and of a removal, for worker and aborters alike. */
  datatype FileStep =
    | FindsNoRequest
    | TakesLock
    | ChecksRequest
    | ChecksResponse
    | Renames
    | WriteFails(landed: bool)
    | Removes
    | RemoveFails
    | LosesRemoval

  datatype Step =
    | Client(c: ClientStep)
    | Loop(l: LoopStep)
    | WorkerFile(f: FileStep)
    | StopCalled
    | StopAborts(k: nat)
    | AborterScan(k: nat, l: LoopStep)
    | AborterFile(k: nat, f: FileStep)

  const INIT: State := State(map[], map[], map[], map[], true, false, Polling, map[], {}, [], [], {}, multiset{}, false)

  predicate IsListing(order: seq<Id>, requests: map<Id, Request>) {
    (set name | name in order) == requests.Keys
  }

  function HandlerAnswer(policy: Policy, id: Id, outcome: Outcome): (Response, Kind) {
    match outcome
    case Returned(status, body) =>
      if |body| > policy.maxBodyBytes
      then (Response(id, 502, TooLarge), HandlerFailure)
      else (Response(id, status, Text(body)), Result)
    case Threw(message) => (Response(id, 502, Error(message)), HandlerFailure)
  }

  /** The worker loop up to the point where a response is to be written.  An exception
      sends it to `Failed`. */
  function LoopMove(policy: Policy, s: State, step: LoopStep): Move<WorkerPc> {
    match s.worker
    case Polling =>
      (match step
       case Lists(order) =>
         if !IsListing(order, s.requests) then Stuck
         else if |order| > 0 then Go(Scanning(order), Nothing, false)
         else if s.stopping then Go(LoopLeft, Nothing, false)
         else Go(Polling, Nothing, false)
       case ListFails => Go(Failed, Nothing, true)
       case _ => Stuck)
    case Scanning(queue) => ScanMove(s, queue, step)
    case Authorizing(name, req, rest) =>
      (match step
       case Authorizes => if req.WellFormed? then Go(Authorized(policy, name, req, rest), Nothing, false) else Stuck
       case AuthorizerThrows => Go(Failed, Nothing, false)
       case _ => Stuck)
    case Handling(name, req, rest) =>
      if step.Handled? && req.WellFormed? then
        var (resp, kind) := HandlerAnswer(policy, req.id, step.outcome);
        Go(Writing(name, resp, kind, Acquire, rest), Nothing, false)
      else Stuck
    case _ => Stuck
  }

  function ScanMove(s: State, queue: seq<Id>, step: LoopStep): Move<WorkerPc> {
    match step
    case ScansOn => if |queue| == 0 then Go(Polling, Nothing, false) else Stuck
    case MeetsDeadline => if s.stopping then Go(LoopLeft, Nothing, false) else Stuck
    case ReadsFile => if |queue| > 0 then Go(FileRead(s.requests, queue[0], queue[1..]), Nothing, false) else Stuck
    case ReadFails => if |queue| > 0 then Go(Failed, Nothing, true) else Stuck
    case _ => Stuck
  }

  /** A request removed since it was listed makes the read throw. */
  function FileRead(requests: map<Id, Request>, name: Id, rest: seq<Id>): WorkerPc {
    if name !in requests then Failed
    else if requests[name].Malformed? then Writing(name, Response(name, 400, InvalidPayload), Refusal, Acquire, rest)
    else Authorizing(name, requests[name], rest)
  }

  function Authorized(policy: Policy, name: Id, req: Request, rest: seq<Id>): WorkerPc
    requires req.WellFormed?
  {
    match policy.denial(req)
    case Some(reason) => Writing(name, Response(req.id, 403, Denied(reason)), Refusal, Acquire, rest)
    case None => Handling(name, req, rest)
  }

  /** `writeBridgeResponse` with the request file required, then the removal, whose failure one
      queue client reports and the other swallows. */
  function WriterMove(s: State, step: FileStep): Move<WorkerPc> {
    match s.worker
    case Writing(name, resp, kind, phase, rest) =>
      (match step
       case FindsNoRequest =>
         if phase == Acquire && name !in s.requests then Go(Removing(name, false, rest), Nothing, false) else Stuck
       case TakesLock =>
         if phase == Acquire && name !in s.locks
         then Go(Writing(name, resp, kind, CheckRequest, rest), Lock(name), false) else Stuck
       case ChecksRequest =>
         if phase != CheckRequest then Stuck
         else if name in s.requests then Go(Writing(name, resp, kind, CheckResponse, rest), Nothing, false)
         else Go(Removing(name, false, rest), Unlock(name), false)
       case ChecksResponse =>
         if phase != CheckResponse then Stuck
         else if name in s.responses then Go(Removing(name, false, rest), Unlock(name), false)
         else Go(Writing(name, resp, kind, Rename, rest), Nothing, false)
       case Renames => if phase == Rename then Go(Removing(name, false, rest), Answer(name, resp), false) else Stuck
       case WriteFails(landed) =>
         if landed && phase != Rename then Stuck
         else Go(AfterFailedWrite(name, resp, kind, rest), AbandonedWrite(name, resp, phase, landed), true)
       case _ => Stuck)
    case Removing(name, rethrow, rest) =>
      (match step
       case Removes => Go(if rethrow then Failed else Scanning(rest), Delete(name), false)
       case RemoveFails => Go(Failed, Nothing, true)
       case LosesRemoval => Go(if rethrow then Failed else Scanning(rest), Lose(name), true)
       case _ => Stuck)
    case _ => Stuck
  }

  /** A failing write may still have renamed the response into place (`landed`). */
  function AbandonedWrite(name: Id, resp: Response, phase: Phase, landed: bool): FileOp {
    if landed then Answer(name, resp) else if phase == Acquire then Nothing else Unlock(name)
  }

  function AfterFailedWrite(name: Id, resp: Response, kind: Kind, rest: seq<Id>): WorkerPc {
    match kind
    case Refusal => Failed
    case Result => Writing(name, Response(resp.id, 502, WriteError), HandlerFailure, Acquire, rest)
    case HandlerFailure => Removing(name, true, rest)
  }

  function AbortMessage(k: nat): Body {
    if k == 0 then WorkerFailed else WorkerStopped
  }

  /** `failPendingRequests`: listing and reading. */
  function AborterScanMove(s: State, pc: AborterPc, message: Body, step: LoopStep): Move<AborterPc> {
    match pc
    case ToList =>
      (match step
       case Lists(order) => if IsListing(order, s.requests) then Go(ToScan(order), Nothing, false) else Stuck
       case ListFails => Go(ToScan([]), Nothing, true)
       case _ => Stuck)
    case ToScan(queue) =>
      (match step
       case ScansOn => if |queue| == 0 then Go(Done, Nothing, false) else Stuck
       case ReadsFile =>
         if |queue| > 0 then Go(Aborting(s.requests, message, queue[0], queue[1..]), Nothing, false) else Stuck
       case ReadFails => if |queue| > 0 then Go(ToClean(queue[0], queue[1..]), Nothing, true) else Stuck
       case _ => Stuck)
    case _ => Stuck
  }

  function Aborting(requests: map<Id, Request>, message: Body, name: Id, rest: seq<Id>): AborterPc {
    if name in requests && requests[name].WellFormed? then
      var id := requests[name].id;
      ToRemove(name, Response(if id != NO_ID then id else name, 503, message), rest)
    else ToClean(name, rest)
  }

  /** `failPendingRequests`: removing, then writing the 503 whether or not the request file is
      still there, then removing again. */
  function AborterFileMove(s: State, pc: AborterPc, step: FileStep): Move<AborterPc> {
    match pc
    case ToRemove(name, resp, rest) =>
      (match step
       case Removes => Go(ToWrite(name, resp, Acquire, rest), Delete(name), false)
       case RemoveFails => Go(ToWrite(name, resp, Acquire, rest), Nothing, true)
       case _ => Stuck)
    case ToWrite(name, resp, phase, rest) =>
      (match step
       case TakesLock =>
         if phase == Acquire && name !in s.locks
         then Go(ToWrite(name, resp, CheckResponse, rest), Lock(name), false) else Stuck
       case ChecksResponse =>
         if phase != CheckResponse then Stuck
         else if name in s.responses then Go(ToClean(name, rest), Unlock(name), false)
         else Go(ToWrite(name, resp, Rename, rest), Nothing, false)
       case Renames => if phase == Rename then Go(ToClean(name, rest), Answer(name, resp), false) else Stuck
       case WriteFails(landed) =>
         if landed && phase != Rename then Stuck
         else Go(ToClean(name, rest), AbandonedWrite(name, resp, phase, landed), true)
       case _ => Stuck)
    case ToClean(name, rest) =>
      (match step
       case Removes => Go(ToScan(rest), Delete(name), false)
       case RemoveFails => Go(ToScan(rest), Nothing, true)
       case _ => Stuck)
    case _ => Stuck
  }

  function RequestsAfter(s: State, op: FileOp): map<Id, Request> {
    if op.Delete? then s.requests - {op.name} else s.requests
  }

  function ResponsesAfter(s: State, op: FileOp): map<Id, Response> {
    if op.Answer? then s.responses[op.name := op.resp] else s.responses
  }

  function LocksAfter(s: State, op: FileOp, author: Party): map<Id, Party> {
    match op
    case Lock(name) => s.locks[name := author]
    case Unlock(name) => s.locks - {name}
    case Answer(name, _) => s.locks - {name}
    case _ => s.locks
  }

  function WritesAfter(s: State, op: FileOp, author: Party): seq<Write> {
    if op.Answer? then s.writes + [Write(op.name, op.resp, author)] else s.writes
  }

  function LossesAfter(s: State, op: FileOp): multiset<Id> {
    if op.Lose? then s.losses + multiset{op.name} else s.losses
  }

  function Perform(s: State, op: FileOp, author: Party, fault: bool): State {
    s.(requests := RequestsAfter(s, op), responses := ResponsesAfter(s, op), locks := LocksAfter(s, op, author),
       writes := WritesAfter(s, op, author), losses := LossesAfter(s, op), faulty := s.faulty || fault)
  }

  /** When the loop throws, its catch block starts the worker's own abort, as aborter 0. */
  function WorkerGoes(s: State, move: Move<WorkerPc>): Attempt {
    if move.Stuck? then Impossible
    else Moved(Perform(s, move.op, Worker, move.fault).(
      worker := move.pc,
      aborters := if move.pc == Failed then s.aborters[0 := ToList] else s.aborters,
      invoked := if s.worker.Authorizing? && move.pc.Handling? then s.invoked + [move.pc.req] else s.invoked))
  }

  /** An aborter that lists after the server stopped is recorded in `drains`. */
  function AborterGoes(s: State, k: nat, move: Move<AborterPc>): Attempt
    requires k in s.aborters
  {
    if move.Stuck? then Impossible
    else Moved(Perform(s, move.op, Aborter(k), move.fault).(
      aborters := s.aborters[k := move.pc],
      drains := if s.aborters[k].ToList? && !s.accepting then s.drains + {k} else s.drains))
  }

  /** The server's request handler in the sandbox, one client per request. */
  function ClientNext(s: State, step: ClientStep): Attempt {
    match step
    case Submit(id, payload) =>
      if s.accepting && id != NO_ID && id !in s.seen
      then Moved(s.(requests := s.requests[id := WellFormed(id, payload)],
                    clients := s.clients[id := Waiting], seen := s.seen + {id}))
      else Impossible
    case DropGarbage(name, raw) =>
      if s.accepting && name !in s.seen
      then Moved(s.(requests := s.requests[name := Malformed(raw)], seen := s.seen + {name}))
      else Impossible
    case ServerStops => Moved(s.(accepting := false))
    case Reads(id) =>
      if id in s.clients && s.clients[id] == Waiting && id in s.responses
      then Moved(s.(clients := s.clients[id := Received(s.responses[id])]))
      else Impossible
    case Consumes(id) =>
      if id in s.clients && s.clients[id].Received?
      then Moved(s.(clients := s.clients[id := Served(s.clients[id].got)], responses := s.responses - {id}))
      else Impossible
    case TimesOut(id) =>
      if id in s.clients && s.clients[id] == Waiting
      then Moved(s.(clients := s.clients[id := TimedOut]))
      else Impossible
  }

  /** The state after a step, or Impossible where that step cannot be taken. */
  function Next(policy: Policy, s: State, step: Step): Attempt {
    match step
    case Client(c) => ClientNext(s, c)
    case Loop(l) => WorkerGoes(s, LoopMove(policy, s, l))
    case WorkerFile(f) => WorkerGoes(s, WriterMove(s, f))
    case StopCalled => Moved(s.(stopping := true))
    case StopAborts(k) =>
      if s.stopping && k > 0 && k !in s.aborters then Moved(s.(aborters := s.aborters[k := ToList])) else Impossible
    case AborterScan(k, l) =>
      if k in s.aborters then AborterGoes(s, k, AborterScanMove(s, s.aborters[k], AbortMessage(k), l)) else Impossible
    case AborterFile(k, f) =>
      if k in s.aborters then AborterGoes(s, k, AborterFileMove(s, s.aborters[k], f)) else Impossible
  }

  /** A whole run. */
  function Run(policy: Policy, s: State, steps: seq<Step>): Attempt
    decreases |steps|
  {
    if steps == [] then Moved(s)
    else
      match Run(policy, s, steps[..|steps| - 1])
      case Impossible => Impossible
      case Moved(t) => Next(policy, t, steps[|steps| - 1])
  }

  /** The first response ever written for a request name. */
  function First(writes: seq<Write>, name: Id): Option<Response> {
    if writes == [] then None
    else
      var w, before := writes[|writes| - 1], First(writes[..|writes| - 1], name);
      if before.Some? then before else if w.name == name then Some(w.resp) else None
  }
}
