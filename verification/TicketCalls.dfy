/** What a call comes to, told by its own events: which answers end it, how often it sends, which
    tickets it takes out of the cache, and that it can always be brought to an end. */
module TicketCalls {
  import opened Bytes
  import opened TicketCaches
  import opened TicketProtocol
  import opened TicketSafety
  import opened TicketRefresh

  // ── The answers of one attempt ────────────────────────────────────────────────────────────────

  datatype Reply = Success | Failure(error: TicketProtocol.Failure)

  /** What the server has answered since the attempt began: the number of answers, the tickets it
      minted, the error that ended an admission, and the replies to the sends. */
  datatype Attempt = Attempt(answers: nat, minted: seq<Ticket>, unadmitted: Option<TicketProtocol.Failure>, replies: seq<Reply>)

  const UNANSWERED := Attempt(0, [], None, [])

  /** What one event of the caller adds. */
  function Heard(a: Attempt, e: Event): (r: Attempt) {
    match e
    case Begin(_) => UNANSWERED
    case ChallengeOk(_) => a.(answers := a.answers + 1)
    case AdmissionFails(_, error) => a.(answers := a.answers + 1, unadmitted := Some(error))
    case AdmitOk(_, t, _) => a.(answers := a.answers + 1, minted := a.minted + [t])
    case ReplyOk(_) => a.(answers := a.answers + 1, replies := a.replies + [Success])
    case ReplyFails(_, error) => a.(answers := a.answers + 1, replies := a.replies + [Failure(error)])
    case _ => a
  }

  predicate Of(e: Event, tid: nat) {
    !e.Tick? && e.tid == tid
  }

  /** The last attempt of a caller, read off the events alone. */
  function AttemptIn(es: seq<Event>, tid: nat): (a: Attempt) {
    if es == [] then UNANSWERED
    else
      var before, e := AttemptIn(es[..|es| - 1], tid), es[|es| - 1];
      if Of(e, tid) then Heard(before, e) else before
  }

  /** How often the caller has sent, over all its attempts. */
  function SendsIn(es: seq<Event>, tid: nat): (n: nat) {
    if es == [] then 0 else SendsIn(es[..|es| - 1], tid) + if es[|es| - 1] == Send(tid) then 1 else 0
  }

  // ── How an attempt ends ───────────────────────────────────────────────────────────────────────

  datatype Outcome = Returns | Raises(error: TicketProtocol.Failure)

  function OutcomeOf(reply: Reply): (o: Outcome) {
    if reply.Success? then Returns else Raises(reply.error)
  }

  /** The outcome the answers leave the caller with, none while it has to go on: a failed admission is
      raised; an explicit `admit` ends with its ticket; any other call ends with its first reply, except
      that a call that resends goes on after a first UNAUTHENTICATED and ends with its second reply. */
  function Ending(c: Call, a: Attempt): (o: Option<Outcome>) {
    if a.unadmitted.Some? then Some(Raises(a.unadmitted.value))
    else if c.op.AdmitNow? then (if a.minted == [] then None else Some(Returns))
    else if a.replies == [] then None
    else if Resends(c) && a.replies[0] == Failure(Unauthenticated) then
      (if |a.replies| == 1 then None else Some(OutcomeOf(a.replies[1])))
    else Some(OutcomeOf(a.replies[0]))
  }

  /** The calls that are waiting for their answer at a program counter. */
  function Waiting(pc: Pc): (n: nat) {
    if pc.Challenging? || pc.Admitting? || pc.InFlight? then 1 else 0
  }

  predicate ToldLock(th: Thread, p: Purpose, a: Attempt) {
    && a.unadmitted.None?
    && match p
       case ForTicket => !th.call.op.AdmitNow? && a.replies == []
       case ForAdmit => th.call.op.AdmitNow? && a.minted == []
       case ForRefresh(_) => Resends(th.call) && a.replies == [Failure(Unauthenticated)]
       case ForForget(_, because) => Ending(th.call, a) == Some(Raises(because))
  }

  predicate ToldSend(th: Thread, resend: bool, a: Attempt) {
    && a.unadmitted.None? && !th.call.op.AdmitNow?
    && if resend then Resends(th.call) && a.replies == [Failure(Unauthenticated)] else a.replies == []
  }

  /** Where a caller stands is where its answers have brought it. */
  predicate Told(th: Thread, a: Attempt) {
    match th.pc
    case WantLock(p) => ToldLock(th, p, a)
    case Holding(p) => ToldLock(th, p, a)
    case Challenging(p) => !p.ForForget? && ToldLock(th, p, a)
    case Admitting(p) => !p.ForForget? && ToldLock(th, p, a)
    case Ready(_, resend) => ToldSend(th, resend, a)
    case InFlight(_, resend) => ToldSend(th, resend, a)
    case Raised(error) => Ending(th.call, a) == Some(Raises(error))
    case Failed(error) => Ending(th.call, a) == Some(Raises(error))
    case Done => Ending(th.call, a) == Some(Returns)
    case _ => true
  }

  predicate Counted(th: Thread, a: Attempt) {
    && th.rpcs == a.answers + Waiting(th.pc)
    && th.sends == |a.replies| + if th.pc.InFlight? then 1 else 0
  }

  /** The last two sends of an attempt that sent twice were under different tickets. */
  predicate TwiceDiffers(th: Thread) {
    th.sends == 2 ==> |th.used| >= 2 && th.used[|th.used| - 2] != th.used[|th.used| - 1]
  }

  lemma ToldStep(s: State, e: Event, th: Thread, slot: Slot, a: Attempt)
    requires !e.Tick? && !e.Spawn? && Enabled(s, e) && th == s.threads[e.tid]
    requires Told(th, a)
    ensures Told(StepThread(s, e, th, slot).0, Heard(a, e))
  {
  }

  lemma CountedStep(s: State, e: Event, th: Thread, slot: Slot, a: Attempt)
    requires !e.Tick? && !e.Spawn? && Enabled(s, e) && th == s.threads[e.tid]
    requires !th.pc.Cancelled? && Told(th, a) && Counted(th, a)
    ensures e.Cancel? || Counted(StepThread(s, e, th, slot).0, Heard(a, e))
  {
  }

  lemma TwiceDiffersStep(s: State, e: Event, th: Thread, slot: Slot)
    requires !e.Tick? && !e.Spawn? && Enabled(s, e) && th == s.threads[e.tid]
    requires OnAnother(th) && WireBound(th) && TwiceDiffers(th)
    ensures TwiceDiffers(StepThread(s, e, th, slot).0)
  {
  }

  /** All that is kept of one caller; before it is spawned there is nothing to tell. */
  ghost predicate CallInv(s: State, es: seq<Event>, tid: nat) {
    var a := AttemptIn(es, tid);
    if tid in s.threads then
      var th := s.threads[tid];
      Told(th, a) && (th.pc.Cancelled? || Counted(th, a)) && TwiceDiffers(th) && |th.used| == SendsIn(es, tid)
    else a == UNANSWERED && SendsIn(es, tid) == 0
  }

  lemma CallInvStep(s: State, before: seq<Event>, es: seq<Event>, e: Event, tid: nat)
    requires Enabled(s, e) && WireInv(s) && CallInv(s, before, tid)
    requires es != [] && es[..|es| - 1] == before && es[|es| - 1] == e
    requires tid in s.threads ==> OnAnother(s.threads[tid])
    ensures CallInv(Next(s, e), es, tid)
  {
    if Of(e, tid) && !e.Spawn? {
      var th, slot := s.threads[tid], SlotOf(s, s.threads[tid].call.aid);
      ToldStep(s, e, th, slot, AttemptIn(before, tid));
      TwiceDiffersStep(s, e, th, slot);
      if !th.pc.Cancelled? {
        CountedStep(s, e, th, slot, AttemptIn(before, tid));
      }
    }
  }

  lemma {:induction false} CallInvOverRuns(now: int, es: seq<Event>, tid: nat)
    requires IsRun(Initial(now), es)
    ensures CallInv(After(Initial(now), es), es, tid)
    decreases |es|
  {
    if es != [] {
      var before := es[..|es| - 1];
      CallInvOverRuns(now, before, tid);
      ResendsOnAnotherTicket(now, before);
      CallInvStep(After(Initial(now), before), before, es, es[|es| - 1], tid);
    }
  }

  /** Only the cached ticket is left to forget; the error is settled. */
  predicate Forgetting(pc: Pc, error: TicketProtocol.Failure) {
    (pc.WantLock? || pc.Holding?) && pc.purpose.ForForget? && pc.purpose.because == error
  }

  /** In every run, a call that has begun and was not cancelled has returned exactly when its answers say
      so, and raises an error exactly when they leave it with that error; until then it goes on. */
  lemma EndsAsAnswered(now: int, es: seq<Event>, tid: nat)
    requires IsRun(Initial(now), es) && tid in After(Initial(now), es).threads
    requires !After(Initial(now), es).threads[tid].pc.Start? && !After(Initial(now), es).threads[tid].pc.Cancelled?
    ensures var th, ending := After(Initial(now), es).threads[tid], Ending(After(Initial(now), es).threads[tid].call, AttemptIn(es, tid));
            && (th.pc.Done? <==> ending == Some(Returns))
            && (forall error :: th.pc == Raised(error) || th.pc == Failed(error) || Forgetting(th.pc, error)
                  <==> ending == Some(Raises(error)))
  {
    CallInvOverRuns(now, es, tid);
  }

  /** The counters count: wire calls are the answers had and the one awaited, sends the replies had and
      the one awaited, and the tickets used are one for every send of every attempt. */
  lemma CountersCount(now: int, es: seq<Event>, tid: nat)
    requires IsRun(Initial(now), es) && tid in After(Initial(now), es).threads
    requires !After(Initial(now), es).threads[tid].pc.Cancelled?
    ensures var th, a := After(Initial(now), es).threads[tid], AttemptIn(es, tid);
            && th.rpcs == a.answers + Waiting(th.pc)
            && th.sends == |a.replies| + (if th.pc.InFlight? then 1 else 0)
            && |th.used| == SendsIn(es, tid)
  {
    CallInvOverRuns(now, es, tid);
  }

  lemma SentTwice(th: Thread, a: Attempt)
    requires Told(th, a) && Counted(th, a) && WireBound(th) && Resends(th.call) && (th.pc.Done? || th.pc.Raised? || th.pc.Failed?)
    requires a.unadmitted.None? && a.replies != [] && a.replies[0] == Failure(Unauthenticated)
    ensures th.sends == 2 && |a.replies| == 2 && (th.pc.Done? <==> a.replies[1].Success?)
  {
  }

  /** A call that resends and whose first send is refused UNAUTHENTICATED does not end there: unless its
      refresh fails or it is cancelled, it sends a second time, under another ticket, and ends with that
      reply. */
  lemma RefusedOnceSendsTwice(now: int, es: seq<Event>, tid: nat)
    requires IsRun(Initial(now), es) && tid in After(Initial(now), es).threads
    requires var th, a := After(Initial(now), es).threads[tid], AttemptIn(es, tid);
             && Resends(th.call) && (th.pc.Done? || th.pc.Raised? || th.pc.Failed?)
             && a.unadmitted.None? && a.replies != [] && a.replies[0] == Failure(Unauthenticated)
    ensures var th, a := After(Initial(now), es).threads[tid], AttemptIn(es, tid);
            && th.sends == 2 && |a.replies| == 2 && (th.pc.Done? <==> a.replies[1].Success?)
            && |th.used| >= 2 && th.used[|th.used| - 2] != th.used[|th.used| - 1]
  {
    CallInvOverRuns(now, es, tid);
    WireBounds(now, es);
    SentTwice(After(Initial(now), es).threads[tid], AttemptIn(es, tid));
  }

  // ── The refused ticket ────────────────────────────────────────────────────────────────────────

  /** The refusals after which the ticket must not be handed out again. */
  predicate Spoils(c: Call, error: TicketProtocol.Failure) {
    || (Guarded(c) && (error.SessionUnavailable? || error.TenantMoving?))
    || (c.op == Credentialed(false) && error.Unauthenticated?)
  }

  /** The `k`th ticket from the last is no longer handed out. */
  ghost predicate LastGone(s: State, th: Thread, k: nat) {
    0 < k <= |th.used| && Gone(s, th.call.aid, th.used[|th.used| - k])
  }

  /** Past the point where it had to take its refused ticket out of the cache, the caller has. */
  ghost predicate TakenOut(s: State, th: Thread) {
    match th.pc
    case Challenging(p) => p.ForRefresh? ==> LastGone(s, th, 1) && LastUsed(th, p.failed)
    case Admitting(p) => p.ForRefresh? ==> LastGone(s, th, 1) && LastUsed(th, p.failed)
    case Ready(_, resend) => resend ==> LastGone(s, th, 1)
    case InFlight(_, resend) => resend ==> LastGone(s, th, 2)
    case Raised(error) => Spoils(th.call, error) && th.sends > 0 ==> LastGone(s, th, 1)
    case Failed(error) => Spoils(th.call, error) && th.sends > 0 ==> LastGone(s, th, 1)
    case _ => true
  }

  lemma TakenOutOwn(s: State, e: Event)
    requires SeenInv(s) && WireInv(s) && Enabled(s, e) && !e.Tick? && !e.Spawn? && TakenOut(s, s.threads[e.tid])
    ensures TakenOut(Next(s, e), Next(s, e).threads[e.tid])
  {
    var th := s.threads[e.tid];
    assert WireBound(th) && KnownTickets(s, th);
  }

  lemma LastGoneStep(s: State, e: Event, th: Thread, k: nat)
    requires Enabled(s, e) && Forward(e) && LastGone(s, th, k)
    ensures LastGone(Next(s, e), th, k)
  {
    TicketSafety.GoneForGood(s, e, th.call.aid, th.used[|th.used| - k]);
  }

  lemma TakenOutOther(s: State, e: Event, th: Thread)
    requires Enabled(s, e) && Forward(e) && TakenOut(s, th)
    ensures TakenOut(Next(s, e), th)
  {
    if LastGone(s, th, 1) {
      LastGoneStep(s, e, th, 1);
    }
    if LastGone(s, th, 2) {
      LastGoneStep(s, e, th, 2);
    }
  }

  /** In every run on a clock that does not go back, a caller that goes on to a second ticket, or raises an
      error that spoils its ticket, leaves the refused ticket out of everyone's reach. */
  lemma {:induction false} RefusedTicketsGone(now: int, es: seq<Event>)
    requires IsRun(Initial(now), es) && Monotone(es)
    ensures forall tid :: tid in After(Initial(now), es).threads ==> TakenOut(After(Initial(now), es), After(Initial(now), es).threads[tid])
    decreases |es|
  {
    if es != [] {
      var before, e := es[..|es| - 1], es[|es| - 1];
      var s := After(Initial(now), before);
      RefusedTicketsGone(now, before);
      InvOverRuns(Initial(now), before);
      forall tid | tid in Next(s, e).threads ensures TakenOut(Next(s, e), Next(s, e).threads[tid]) {
        if tid in s.threads {
          assert TakenOut(s, s.threads[tid]);
          if Of(e, tid) {
            TakenOutOwn(s, e);
          } else {
            TakenOutOther(s, e, s.threads[tid]);
          }
        }
      }
    }
  }

  // ── Every call can be brought to its end ──────────────────────────────────────────────────────

  lemma {:induction false} LongerThanAll(ts: set<Ticket>) returns (n: nat)
    ensures forall t :: t in ts ==> |t| < n
    decreases |ts|
  {
    n := 1;
    if ts != {} {
      var t :| t in ts;
      var m := LongerThanAll(ts - {t});
      n := if |t| < m then m else |t| + 1;
      assert forall u :: u in ts ==> u == t || u in ts - {t};
    }
  }

  lemma NewTicket(seen: set<Ticket>) returns (t: Ticket)
    ensures t !in seen && t != []
  {
    var n := LongerThanAll(seen);
    t := seq(n + 1, _ => 1);
  }

  /** A step of the lock's holder that lets it go or goes on to a challenge. */
  lemma HolderLooks(m: State, h: nat, tid: nat)
    requires h in m.threads && tid in m.threads && tid != h && m.threads[h].pc.Holding?
    ensures var n := Next(m, Look(h));
            && h in n.threads && tid in n.threads && n.threads[tid] == m.threads[tid] && n.seen == m.seen
            && (n.threads[h].pc.Challenging? || SlotOf(n, m.threads[h].call.aid).owner == None)
            && n.threads[h].call == m.threads[h].call
  {
  }

  lemma HolderGivesUp(m: State, h: nat, tid: nat)
    requires h in m.threads && tid in m.threads && tid != h && (m.threads[h].pc.Challenging? || m.threads[h].pc.Admitting?)
    ensures var n := Next(m, AdmissionFails(h, OtherError));
            && tid in n.threads && n.threads[tid] == m.threads[tid] && n.seen == m.seen
            && SlotOf(n, m.threads[h].call.aid).owner == None
  {
  }

  /** Whoever holds an agent's lock can be brought to release it, and nobody else moves. */
  lemma LockCanBeFreed(s: State, es: seq<Event>, tid: nat) returns (on: seq<Event>)
    requires IsRun(s, es) && LockInv(After(s, es)) && tid in After(s, es).threads && After(s, es).threads[tid].pc.WantLock?
    ensures IsRun(s, on) && es <= on && (Monotone(es) ==> Monotone(on))
    ensures var m, n := After(s, es), After(s, on);
            && tid in n.threads && n.threads[tid] == m.threads[tid] && n.seen == m.seen
            && SlotOf(n, m.threads[tid].call.aid).owner == None
  {
    var m := After(s, es);
    var aid := m.threads[tid].call.aid;
    on := es;
    if SlotOf(m, aid).owner.Some? {
      var h := SlotOf(m, aid).owner.value;
      assert h in m.threads && m.threads[h].call.aid == aid && HoldsLock(m.threads[h].pc);
      if m.threads[h].pc.Holding? {
        HolderLooks(m, h, tid);
        RunSnoc(s, on, Look(h));
        on := on + [Look(h)];
      }
      var l := After(s, on);
      if l.threads[h].pc.Challenging? || l.threads[h].pc.Admitting? {
        HolderGivesUp(l, h, tid);
        RunSnoc(s, on, AdmissionFails(h, OtherError));
        on := on + [AdmissionFails(h, OtherError)];
      }
    }
  }

  /** With the lock free, a fresh ticket other than the refused one is adopted without any admission. */
  lemma Adopts(s: State, es: seq<Event>, tid: nat, failed: Ticket) returns (on: seq<Event>)
    requires IsRun(s, es) && tid in After(s, es).threads && After(s, es).threads[tid].pc == WantLock(ForRefresh(failed))
    requires var m := After(s, es); var aid := m.threads[tid].call.aid;
             SlotOf(m, aid).owner == None && Fresh(m, aid).Some? && Fresh(m, aid).value != failed
    ensures IsRun(s, on) && es <= on && (Monotone(es) ==> Monotone(on))
    ensures var m, n := After(s, es), After(s, on);
            && tid in n.threads && n.threads[tid].pc == InFlight(Fresh(m, m.threads[tid].call.aid).value, true) && n.seen == m.seen
  {
    on := es;
    RunSnoc(s, on, Acquire(tid));
    on := on + [Acquire(tid)];
    RunSnoc(s, on, Look(tid));
    on := on + [Look(tid)];
    RunSnoc(s, on, Send(tid));
    on := on + [Send(tid)];
  }

  /** Otherwise the refused ticket goes and a challenge is asked for. */
  lemma Challenges(s: State, es: seq<Event>, tid: nat, failed: Ticket) returns (on: seq<Event>)
    requires IsRun(s, es) && tid in After(s, es).threads && After(s, es).threads[tid].pc == WantLock(ForRefresh(failed))
    requires var m := After(s, es); var aid := m.threads[tid].call.aid;
             SlotOf(m, aid).owner == None && (Fresh(m, aid).None? || Fresh(m, aid).value == failed)
    ensures IsRun(s, on) && es <= on && (Monotone(es) ==> Monotone(on))
    ensures var m, n := After(s, es), After(s, on);
            && tid in n.threads && n.threads[tid].pc == Challenging(ForRefresh(failed)) && n.seen == m.seen
            && SlotOf(n, m.threads[tid].call.aid).cache == EMPTY
  {
    on := es;
    RunSnoc(s, on, Acquire(tid));
    on := on + [Acquire(tid)];
    RunSnoc(s, on, Look(tid));
    on := on + [Look(tid)];
  }

  /** And a new ticket is admitted and sent with. */
  lemma AdmitsAndSends(s: State, es: seq<Event>, tid: nat, failed: Ticket, t: Ticket) returns (on: seq<Event>)
    requires IsRun(s, es) && tid in After(s, es).threads && After(s, es).threads[tid].pc == Challenging(ForRefresh(failed))
    requires t !in After(s, es).seen
    ensures IsRun(s, on) && es <= on && (Monotone(es) ==> Monotone(on))
    ensures tid in After(s, on).threads && After(s, on).threads[tid].pc == InFlight(t, true)
  {
    on := es;
    RunSnoc(s, on, ChallengeOk(tid));
    on := on + [ChallengeOk(tid)];
    RunSnoc(s, on, AdmitOk(tid, t, After(s, on).now + 10));
    on := on + [AdmitOk(tid, t, After(s, on).now + 10)];
    RunSnoc(s, on, Send(tid));
    on := on + [Send(tid)];
  }

  /** The refusal, and the lock set free. */
  lemma RefusedAndFree(s: State, tid: nat, failed: Ticket) returns (es: seq<Event>)
    requires LockInv(s) && SeenInv(s) && tid in s.threads && s.threads[tid].pc == InFlight(failed, false) && Resends(s.threads[tid].call)
    ensures IsRun(s, es) && Monotone(es) && es != [] && es[0] == ReplyFails(tid, Unauthenticated)
    ensures var m := After(s, es);
            && tid in m.threads && m.threads[tid].pc == WantLock(ForRefresh(failed)) && failed in m.seen
            && SlotOf(m, m.threads[tid].call.aid).owner == None
  {
    var refused := [ReplyFails(tid, Unauthenticated)];
    assert KnownTickets(s, s.threads[tid]);
    RunSnoc(s, [], refused[0]);
    assert [] + refused == refused;
    LockInvStep(s, refused[0]);
    es := LockCanBeFreed(s, refused, tid);
  }

  /** From every reachable state, whoever holds the lock: a call that resends, refused UNAUTHENTICATED on
      its first send, can be brought to its second send, under a ticket other than the refused one. */
  lemma ResendReachable(s: State, tid: nat, failed: Ticket) returns (es: seq<Event>)
    requires LockInv(s) && SeenInv(s) && tid in s.threads && s.threads[tid].pc == InFlight(failed, false) && Resends(s.threads[tid].call)
    ensures IsRun(s, es) && Monotone(es) && es != [] && es[0] == ReplyFails(tid, Unauthenticated)
    ensures tid in After(s, es).threads
    ensures var pc := After(s, es).threads[tid].pc; pc.InFlight? && pc.resend && pc.ticket != failed
  {
    es := RefusedAndFree(s, tid, failed);
    var m := After(s, es);
    if Fresh(m, m.threads[tid].call.aid).Some? && Fresh(m, m.threads[tid].call.aid).value != failed {
      es := Adopts(s, es, tid, failed);
    } else {
      es := Challenges(s, es, tid, failed);
      var t := NewTicket(After(s, es).seen);
      es := AdmitsAndSends(s, es, tid, failed, t);
    }
  }
}
