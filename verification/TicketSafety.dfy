/** What every step of the ticket protocol keeps, and what follows for whole runs. */
module TicketSafety {
  import opened Bytes
  import opened TicketCaches
  import opened TicketProtocol
  import PreimageReader
  import Preimages

  // ── The lock ──────────────────────────────────────────────────────────────────────────────────

  /** A slot's owner is the one thread of that agent that is inside the critical section. */
  ghost predicate LockInv(s: State) {
    && (forall tid :: tid in s.threads ==>
          (HoldsLock(s.threads[tid].pc) <==> SlotOf(s, s.threads[tid].call.aid).owner == Some(tid)))
    && (forall aid :: aid in s.slots && s.slots[aid].owner.Some? ==>
          s.slots[aid].owner.value in s.threads && s.threads[s.slots[aid].owner.value].call.aid == aid)
  }

  /** A thread's own step: it owns its slot afterwards exactly when it is in the critical section, and
      it touches a slot it does not own only to take a free lock. */
  lemma OwnLockStep(s: State, e: Event)
    requires LockInv(s) && Enabled(s, e) && !e.Tick? && !e.Spawn?
    ensures var th := s.threads[e.tid];
            var (th', slot') := StepThread(s, e, th, SlotOf(s, th.call.aid));
            && th'.call == th.call
            && (HoldsLock(th'.pc) <==> slot'.owner == Some(e.tid))
            && (slot' == SlotOf(s, th.call.aid) || SlotOf(s, th.call.aid).owner in {None, Some(e.tid)})
            && (slot'.owner == SlotOf(s, th.call.aid).owner || slot'.owner in {None, Some(e.tid)})
  {
    var th := s.threads[e.tid];
    assert HoldsLock(th.pc) <==> SlotOf(s, th.call.aid).owner == Some(e.tid);
  }

  lemma LockInvStep(s: State, e: Event)
    requires LockInv(s) && Enabled(s, e)
    ensures LockInv(Next(s, e))
  {
    var s' := Next(s, e);
    if !e.Tick? && !e.Spawn? {
      OwnLockStep(s, e);
      var aid := s.threads[e.tid].call.aid;
      var slot' := s'.slots[aid];
      forall tid | tid in s'.threads && tid != e.tid
        ensures HoldsLock(s'.threads[tid].pc) <==> SlotOf(s', s'.threads[tid].call.aid).owner == Some(tid)
      {
        assert s'.threads[tid] == s.threads[tid];
      }
      forall a | a in s'.slots && s'.slots[a].owner.Some?
        ensures s'.slots[a].owner.value in s'.threads && s'.threads[s'.slots[a].owner.value].call.aid == a
      {
        if a != aid {
          assert s'.slots[a] == s.slots[a];
        }
      }
    }
  }

  // ── Tickets the server has handed out ─────────────────────────────────────────────────────────

  function TicketsOf(pc: Pc): (ts: set<Ticket>) {
    match pc
    case WantLock(p) => PurposeTickets(p)
    case Holding(p) => PurposeTickets(p)
    case Challenging(p) => PurposeTickets(p)
    case Admitting(p) => PurposeTickets(p)
    case Ready(t, _) => {t}
    case InFlight(t, _) => {t}
    case _ => {}
  }

  function PurposeTickets(p: Purpose): (ts: set<Ticket>) {
    match p
    case ForRefresh(t) => {t}
    case ForForget(t, _) => {t}
    case _ => {}
  }

  ghost predicate SeenInv(s: State) {
    && (forall aid :: aid in s.slots && s.slots[aid].cache.ticket.Some? ==> s.slots[aid].cache.ticket.value in s.seen)
    && (forall tid :: tid in s.threads ==> KnownTickets(s, s.threads[tid]))
  }

  ghost predicate KnownTickets(s: State, th: Thread) {
    && TicketsOf(th.pc) <= s.seen
    && (forall t :: t in th.used ==> t in s.seen)
  }

  lemma SeenInvStep(s: State, e: Event)
    requires SeenInv(s) && Enabled(s, e)
    ensures SeenInv(Next(s, e))
  {
    var s' := Next(s, e);
    if !e.Tick? && !e.Spawn? {
      var th := s.threads[e.tid];
      var (th', slot') := StepThread(s, e, th, SlotOf(s, th.call.aid));
      assert KnownTickets(s, th);
      assert KnownTickets(s', th');
      forall tid | tid in s'.threads ensures KnownTickets(s', s'.threads[tid]) {
        if tid != e.tid {
          assert KnownTickets(s, s.threads[tid]);
        }
      }
    }
  }

  // ── Replay safety ─────────────────────────────────────────────────────────────────────────────

  /** A handed-out ticket that the agent's cache no longer gives to anyone. */
  ghost predicate Gone(s: State, aid: string, t: Ticket) {
    t in s.seen && Fresh(s, aid) != Some(t)
  }

  /** Once gone, gone for good: with a clock that only moves forward no step brings a ticket back. */
  lemma GoneForGood(s: State, e: Event, aid: string, t: Ticket)
    requires Enabled(s, e) && Forward(e) && Gone(s, aid, t)
    ensures Gone(Next(s, e), aid, t)
  {
    if e.Tick? {
      StaleStaysStale(SlotOf(s, aid).cache, t, s.now, s.now + e.ms);
    }
  }

  ghost predicate AllGone(s: State, aid: string, ts: seq<Ticket>) {
    forall i :: 0 <= i < |ts| ==> Gone(s, aid, ts[i])
  }

  predicate Distinct(ts: seq<Ticket>) {
    forall i, j :: 0 <= i < j < |ts| ==> ts[i] != ts[j]
  }

  /** The last ticket sent is `t`, and every earlier one is gone. */
  ghost predicate SpentBut(s: State, aid: string, used: seq<Ticket>, t: Ticket) {
    used != [] && used[|used| - 1] == t && AllGone(s, aid, used[..|used| - 1])
  }

  /** For a replay-guarded write: the tickets already signed with are pairwise different, and outside
      the window in which the current one is being judged none of them can be had again. */
  ghost predicate Spent(s: State, th: Thread) {
    Guarded(th.call) ==>
      var aid := th.call.aid;
      && Distinct(th.used)
      && match th.pc
         case Start => AllGone(s, aid, th.used)
         case WantLock(p) => SpentWhile(s, th, p)
         case Holding(p) => SpentWhile(s, th, p)
         case Challenging(_) => AllGone(s, aid, th.used)
         case Admitting(_) => AllGone(s, aid, th.used)
         case Ready(t, _) => t !in th.used && AllGone(s, aid, th.used)
         case InFlight(t, _) => SpentBut(s, aid, th.used, t)
         case Raised(error) => Retryable(error) ==> AllGone(s, aid, th.used)
         case _ => true
  }

  ghost predicate SpentWhile(s: State, th: Thread, p: Purpose) {
    match p
    case ForRefresh(t) => SpentBut(s, th.call.aid, th.used, t)
    case ForForget(t, _) => SpentBut(s, th.call.aid, th.used, t)
    case _ => AllGone(s, th.call.aid, th.used)
  }

  lemma AllGoneStays(s: State, e: Event, aid: string, ts: seq<Ticket>)
    requires Enabled(s, e) && Forward(e) && AllGone(s, aid, ts)
    ensures AllGone(Next(s, e), aid, ts)
  {
    forall i | 0 <= i < |ts| ensures Gone(Next(s, e), aid, ts[i]) {
      GoneForGood(s, e, aid, ts[i]);
    }
  }

  /** A step of anybody else keeps a thread's record of spent tickets. */
  lemma SpentByOthers(s: State, e: Event, th: Thread)
    requires Enabled(s, e) && Forward(e) && Spent(s, th)
    ensures Spent(Next(s, e), th)
  {
    if Guarded(th.call) {
      var aid := th.call.aid;
      if AllGone(s, aid, th.used) {
        AllGoneStays(s, e, aid, th.used);
      }
      if th.used != [] && AllGone(s, aid, th.used[..|th.used| - 1]) {
        AllGoneStays(s, e, aid, th.used[..|th.used| - 1]);
      }
    }
  }

  lemma AllGoneSnoc(s: State, aid: string, used: seq<Ticket>, t: Ticket)
    requires SpentBut(s, aid, used, t) && Gone(s, aid, t)
    ensures AllGone(s, aid, used)
  {
    forall i | 0 <= i < |used| ensures Gone(s, aid, used[i]) {
      if i < |used| - 1 {
        assert used[i] == used[..|used| - 1][i];
      }
    }
  }

  /** The thread's own step keeps it too: every way back to the cache goes through forgetting. */
  lemma SpentByItself(s: State, e: Event)
    requires !e.Tick? && !e.Spawn? && Enabled(s, e) && SeenInv(s) && Spent(s, s.threads[e.tid])
    ensures Spent(Next(s, e), Next(s, e).threads[e.tid])
  {
    var th := s.threads[e.tid];
    var s' := Next(s, e);
    var th' := s'.threads[e.tid];
    assert KnownTickets(s, th);
    if Guarded(th.call) {
      SpentByOthers(s, e, th);
      match e {
        case Look(_) => SpentLook(s, e);
        case AdmitOk(_, t, _) =>
        case Send(_) => assert th'.used[..|th'.used| - 1] == th.used;
        case _ =>
      }
    }
  }

  lemma SpentLook(s: State, e: Event)
    requires e.Look? && Enabled(s, e) && SeenInv(s) && Spent(s, s.threads[e.tid]) && Guarded(s.threads[e.tid].call)
    ensures Spent(Next(s, e), Next(s, e).threads[e.tid])
  {
    var th := s.threads[e.tid];
    var s' := Next(s, e);
    assert KnownTickets(s, th);
    SpentByOthers(s, e, th);
    match th.pc.purpose {
      case ForTicket =>
      case ForAdmit =>
      case ForForget(t, _) =>
        assert Gone(s', th.call.aid, t);
        AllGoneSnoc(s', th.call.aid, th.used, t);
      case ForRefresh(t) =>
        if Fresh(s, th.call.aid).Some? && Fresh(s, th.call.aid).value != t {
          assert Gone(s, th.call.aid, t);
          AllGoneSnoc(s, th.call.aid, th.used, t);
          AllGoneStays(s, e, th.call.aid, th.used);
        } else {
          assert Gone(s', th.call.aid, t);
          AllGoneSnoc(s', th.call.aid, th.used, t);
        }
    }
  }

  ghost predicate SpentInv(s: State) {
    forall tid :: tid in s.threads ==> Spent(s, s.threads[tid])
  }

  lemma SpentInvStep(s: State, e: Event)
    requires SpentInv(s) && SeenInv(s) && Enabled(s, e) && Forward(e)
    ensures SpentInv(Next(s, e))
  {
    var s' := Next(s, e);
    forall tid | tid in s'.threads ensures Spent(s', s'.threads[tid]) {
      if !e.Tick? && tid == e.tid {
        if !e.Spawn? {
          SpentByItself(s, e);
        }
      } else {
        SpentByOthers(s, e, s.threads[tid]);
      }
    }
  }

  lemma {:induction false} SpentOverRuns(now: int, es: seq<Event>)
    requires IsRun(Initial(now), es) && Monotone(es)
    ensures SeenInv(After(Initial(now), es)) && SpentInv(After(Initial(now), es))
  {
    if es != [] {
      var front, e := es[..|es| - 1], es[|es| - 1];
      SpentOverRuns(now, front);
      SeenInvStep(After(Initial(now), front), e);
      SpentInvStep(After(Initial(now), front), e);
    }
  }

  /** Replay safety: in every run whose clock moves forward and whose server never mints one ticket
      twice, whatever the other callers do, no two sends of one replay-guarded write - over all attempts
      of its retry loop - sign the same bytes. */
  lemma ReplaySafety(now: int, es: seq<Event>, tid: nat, i: nat, j: nat)
    requires IsRun(Initial(now), es) && Monotone(es)
    requires tid in After(Initial(now), es).threads
    requires Guarded(After(Initial(now), es).threads[tid].call)
    requires i < j < |After(Initial(now), es).threads[tid].used|
    ensures var th := After(Initial(now), es).threads[tid];
            var p, q := Payload(th.call, th.used[i]), Payload(th.call, th.used[j]);
            p.Some? && q.Some? ==> p != q
  {
    SpentOverRuns(now, es);
    var th := After(Initial(now), es).threads[tid];
    assert Spent(After(Initial(now), es), th);
    if Payload(th.call, th.used[i]).Some? && Payload(th.call, th.used[i]) == Payload(th.call, th.used[j]) {
      PayloadBindsTicket(th.call, th.used[i], th.used[j]);
      assert false;
    }
  }

  /** One call signs the same bytes under two tickets only if the tickets are equal. */
  lemma PayloadBindsTicket(c: Call, t: Ticket, u: Ticket)
    requires Payload(c, t).Some? && Payload(c, t) == Payload(c, u)
    ensures t == u
  {
    var name := Preimages.Ascii(c.rpcFullName);
    PreimageReader.PreimageDetermines(Preimages.Request(t, name, c.resourceId, c.bodyDigest), Preimages.Request(u, name, c.resourceId, c.bodyDigest));
  }
}
