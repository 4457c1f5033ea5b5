/** Any number of callers sharing one client: every caller is a thread of control that takes the
    per-agent lock, looks at the cache, admits, sends and resends, one step at a time and interleaved
    with all the others. The server's answers, the clock and cancellation are events. */
module TicketProtocol {
  import opened Bytes
  import opened TicketCaches
  import Preimages

  // ── Calls ─────────────────────────────────────────────────────────────────────────────────────

  /** The credentialed writes whose proof the runtime burns at admission. */
  const REPLAY_GUARDED: set<string> := {
    "/seam.api.v1.SeamCoordination/OpenSession",
    "/seam.api.v1.SeamCoordination/SubmitProposal",
    "/seam.api.v1.SeamCoordination/SubmitEvaluation",
    "/seam.api.v1.SeamCoordination/SubmitObjection",
    "/seam.api.v1.SeamCoordination/SubmitVote",
    "/seam.api.v1.SeamCoordination/SubmitCommit",
    "/seam.api.v1.SeamCoordination/SubmitApprovalRequest",
    "/seam.api.v1.SeamCoordination/SubmitBallot",
    "/seam.api.v1.SeamCoordination/CancelSession",
    "/seam.api.v1.SeamCoordination/ExpireSession",
    "/seam.api.v1.SeamContext/RegisterContext"
  }

  /** `Credentialed(false)` is the invalidate-then-raise form; `AdmitNow` is an explicit `admit`. */
  datatype Op = Authorize | Credentialed(retry: bool) | SignedOnce | AdmitNow

  /** `wrapped` says the call runs inside the session-retry loop. */
  datatype Call = Call(op: Op, aid: string, rpcFullName: string, resourceId: bytes, bodyDigest: bytes, wrapped: bool)

  predicate Guarded(c: Call) {
    (c.op.Credentialed? || c.op.SignedOnce?) && c.rpcFullName in REPLAY_GUARDED
  }

  datatype Failure =
    | Unauthenticated | SessionUnavailable | TenantMoving | OtherUnavailable | OtherFailedPrecondition | OtherError

  predicate Retryable(f: Failure) {
    f.SessionUnavailable? || f.TenantMoving?
  }

  // ── Threads ───────────────────────────────────────────────────────────────────────────────────

  /** Why a caller wants the per-agent lock. */
  datatype Purpose = ForTicket | ForRefresh(failed: Ticket) | ForForget(failed: Ticket, because: Failure) | ForAdmit

  datatype Pc =
    | Start
    | WantLock(purpose: Purpose)
    | Holding(purpose: Purpose)
    | Challenging(purpose: Purpose)
    | Admitting(purpose: Purpose)
    | Ready(ticket: Ticket, resend: bool)
    | InFlight(ticket: Ticket, resend: bool)
    | Raised(error: Failure)
    | Done
    | Failed(error: Failure)
    | Cancelled

  /** `used` is the ticket of every send so far, over all attempts; `rpcs` and `sends` count the wire
      calls of the current attempt. */
  datatype Thread = Thread(call: Call, pc: Pc, used: seq<Ticket>, rpcs: nat, sends: nat)

  datatype Slot = Slot(cache: Cache, owner: Option<nat>)

  /** `seen` is every ticket the server has handed out. */
  datatype State = State(now: int, slots: map<string, Slot>, threads: map<nat, Thread>, seen: set<Ticket>)

  /** The (cache, lock) pair of an agent, created on first use. */
  function SlotOf(s: State, aid: string): (r: Slot) {
    if aid in s.slots then s.slots[aid] else Slot(EMPTY, None)
  }

  function Fresh(s: State, aid: string): (r: Option<Ticket>) {
    Get(SlotOf(s, aid).cache, s.now)
  }

  predicate HoldsLock(pc: Pc) {
    pc.Holding? || pc.Challenging? || pc.Admitting?
  }

  /** The awaits of the coroutine client, the backoff sleep included. */
  predicate AtAwait(pc: Pc) {
    pc.WantLock? || pc.Challenging? || pc.Admitting? || pc.InFlight? || pc.Raised?
  }

  // ── Events ────────────────────────────────────────────────────────────────────────────────────

  datatype Event =
    | Tick(ms: int)
    | Spawn(tid: nat, call: Call)
    | Begin(tid: nat)
    | Acquire(tid: nat)
    | Look(tid: nat)
    | ChallengeOk(tid: nat)
    | AdmissionFails(tid: nat, error: Failure)
    | AdmitOk(tid: nat, ticket: Ticket, expiresAtMs: int)
    | Send(tid: nat)
    | ReplyOk(tid: nat)
    | ReplyFails(tid: nat, error: Failure)
    | Retry(tid: nat)
    | GiveUp(tid: nat)
    | Cancel(tid: nat)

  predicate Enabled(s: State, e: Event) {
    if e.Tick? then true
    else if e.Spawn? then e.tid !in s.threads
    else
      e.tid in s.threads &&
      var pc := s.threads[e.tid].pc;
      match e
      case Begin(_) => pc.Start?
      case Acquire(_) => pc.WantLock? && SlotOf(s, s.threads[e.tid].call.aid).owner == None
      case Look(_) => pc.Holding?
      case ChallengeOk(_) => pc.Challenging?
      case AdmissionFails(_, _) => pc.Challenging? || pc.Admitting?
      case AdmitOk(_, t, _) => pc.Admitting? && t !in s.seen
      case Send(_) => pc.Ready?
      case ReplyOk(_) => pc.InFlight?
      case ReplyFails(_, _) => pc.InFlight?
      case Retry(_) => pc.Raised? && s.threads[e.tid].call.wrapped && Retryable(pc.error)
      case GiveUp(_) => pc.Raised?
      case Cancel(_) => AtAwait(pc)
      case _ => false
  }

  /** What a caller does with the error its send came back with. */
  function AfterFailure(c: Call, ticket: Ticket, resend: bool, error: Failure): (pc: Pc) {
    if Guarded(c) && Retryable(error) then WantLock(ForForget(ticket, error))
    else if error.Unauthenticated? && !resend && (c.op.Authorize? || c.op == Credentialed(true)) then WantLock(ForRefresh(ticket))
    else if error.Unauthenticated? && !resend && c.op == Credentialed(false) then WantLock(ForForget(ticket, error))
    else Raised(error)
  }

  /** The steps of one thread: its next program counter, the counters, and its agent's slot. */
  function StepThread(s: State, e: Event, th: Thread, slot: Slot): (r: (Thread, Slot))
    requires !e.Tick? && !e.Spawn? && Enabled(s, e) && th == s.threads[e.tid]
  {
    match e
    case Begin(_) =>
      (th.(pc := WantLock(if th.call.op.AdmitNow? then ForAdmit else ForTicket), rpcs := 0, sends := 0), slot)
    case Acquire(_) => (th.(pc := Holding(th.pc.purpose)), slot.(owner := Some(e.tid)))
    case Look(_) => LookAtCache(th, slot, s.now)
    case ChallengeOk(_) => (th.(pc := Admitting(th.pc.purpose), rpcs := th.rpcs + 1), slot)
    case AdmissionFails(_, error) => (th.(pc := Raised(error)), slot.(owner := None))
    case AdmitOk(_, t, expires) =>
      (th.(pc := if th.pc.purpose.ForAdmit? then Done else Ready(t, th.pc.purpose.ForRefresh?)),
       Slot(Store(t, expires, s.now), None))
    case Send(_) =>
      (th.(pc := InFlight(th.pc.ticket, th.pc.resend), used := th.used + [th.pc.ticket], rpcs := th.rpcs + 1, sends := th.sends + 1), slot)
    case ReplyOk(_) => (th.(pc := Done), slot)
    case ReplyFails(_, error) => (th.(pc := AfterFailure(th.call, th.pc.ticket, th.pc.resend, error)), slot)
    case Retry(_) => (th.(pc := Start), slot)
    case GiveUp(_) => (th.(pc := Failed(th.pc.error)), slot)
    case Cancel(_) => (th.(pc := Cancelled), if HoldsLock(th.pc) then slot.(owner := None) else slot)
  }

  /** The lock is held: use the cached ticket, adopt it, forget it, or start an admission. */
  function LookAtCache(th: Thread, slot: Slot, now: int): (r: (Thread, Slot))
    requires th.pc.Holding?
  {
    var current := Get(slot.cache, now);
    var p := th.pc.purpose;
    match p
    case ForTicket =>
      if current.Some? then (th.(pc := Ready(current.value, false)), slot.(owner := None))
      else (th.(pc := Challenging(p), rpcs := th.rpcs + 1), slot)
    case ForRefresh(failed) =>
      if current.Some? && current.value != failed then (th.(pc := Ready(current.value, true)), slot.(owner := None))
      else (th.(pc := Challenging(p), rpcs := th.rpcs + 1), slot.(cache := EMPTY))
    case ForForget(failed, because) =>
      (th.(pc := Raised(because)), Slot(if current == Some(failed) then EMPTY else slot.cache, None))
    case ForAdmit => (th.(pc := Challenging(p), rpcs := th.rpcs + 1), slot)
  }

  function Next(s: State, e: Event): (r: State)
    requires Enabled(s, e)
  {
    if e.Tick? then s.(now := s.now + e.ms)
    else if e.Spawn? then s.(threads := s.threads[e.tid := Thread(e.call, Start, [], 0, 0)])
    else
      var th := s.threads[e.tid];
      var (th', slot') := StepThread(s, e, th, SlotOf(s, th.call.aid));
      State(s.now, s.slots[th.call.aid := slot'], s.threads[e.tid := th'],
            if e.AdmitOk? then s.seen + {e.ticket} else s.seen)
  }

  // ── Runs ──────────────────────────────────────────────────────────────────────────────────────

  function Initial(now: int): (s: State) {
    State(now, map[], map[], {})
  }

  ghost predicate IsRun(s: State, es: seq<Event>)
    decreases |es|, 0
  {
    es == [] || (IsRun(s, es[..|es| - 1]) && Enabled(After(s, es[..|es| - 1]), es[|es| - 1]))
  }

  ghost function After(s: State, es: seq<Event>): (r: State)
    requires IsRun(s, es)
    decreases |es|, 1
  {
    if es == [] then s else Next(After(s, es[..|es| - 1]), es[|es| - 1])
  }

  predicate Forward(e: Event) {
    e.Tick? ==> e.ms >= 0
  }

  /** The clock never goes back during the run. */
  predicate Monotone(es: seq<Event>) {
    forall i :: 0 <= i < |es| ==> Forward(es[i])
  }

  /** The bytes one send signs. */
  function Payload(c: Call, t: Ticket): (r: Option<bytes>) {
    Preimages.Build(Preimages.Request(t, Preimages.Ascii(c.rpcFullName), c.resourceId, c.bodyDigest))
  }
}
