/** Refresh coalescing, the wire-call bounds and cancellation, over every interleaving. */
module TicketRefresh {
  import opened Bytes
  import opened TicketCaches
  import opened TicketProtocol
  import opened TicketSafety

  // ── Wire calls ────────────────────────────────────────────────────────────────────────────────

  predicate Resends(c: Call) {
    c.op.Authorize? || c.op == Credentialed(true)
  }

  predicate LastUsed(th: Thread, t: Ticket) {
    th.used != [] && th.used[|th.used| - 1] == t
  }

  /** What a thread has spent on the wire by the time it is at its program counter. */
  predicate WireBound(th: Thread) {
    && th.rpcs <= 6 && th.sends <= 2
    && (th.sends == 2 ==> Resends(th.call))
    && (th.rpcs > 3 ==> Resends(th.call))
    && match th.pc
       case WantLock(p) => WireBoundLock(th, p)
       case Holding(p) => WireBoundLock(th, p)
       case Challenging(p) =>
         !p.ForForget? && if p.ForRefresh? then th.rpcs <= 4 && th.sends == 1 && Resends(th.call) else th.rpcs == 1 && th.sends == 0
       case Admitting(p) =>
         !p.ForForget? && if p.ForRefresh? then th.rpcs <= 5 && th.sends == 1 && Resends(th.call) else th.rpcs == 2 && th.sends == 0
       case Ready(_, resend) => if resend then th.rpcs <= 5 && th.sends == 1 && Resends(th.call) else th.rpcs <= 2 && th.sends == 0
       case InFlight(t, resend) => LastUsed(th, t) && if resend then th.sends == 2 else th.rpcs <= 3 && th.sends == 1
       case _ => true
  }

  predicate WireBoundLock(th: Thread, p: Purpose) {
    match p
    case ForRefresh(t) => LastUsed(th, t) && th.rpcs <= 3 && th.sends == 1 && Resends(th.call)
    case ForForget(t, _) => LastUsed(th, t)
    case _ => th.rpcs == 0 && th.sends == 0
  }

  ghost predicate WireInv(s: State) {
    forall tid :: tid in s.threads ==> WireBound(s.threads[tid])
  }

  lemma WireBoundStep(s: State, e: Event, th: Thread, slot: Slot)
    requires !e.Tick? && !e.Spawn? && Enabled(s, e) && th == s.threads[e.tid] && WireBound(th)
    ensures WireBound(StepThread(s, e, th, slot).0)
  {
  }

  lemma WireInvStep(s: State, e: Event)
    requires WireInv(s) && Enabled(s, e)
    ensures WireInv(Next(s, e))
  {
    if !e.Tick? && !e.Spawn? {
      WireBoundStep(s, e, s.threads[e.tid], SlotOf(s, s.threads[e.tid].call.aid));
    }
  }

  /** Each attempt of a call makes at most six wire calls, two of them sends; a call that does not
      resend makes at most three, one of them a send. */
  lemma {:induction false} WireBounds(now: int, es: seq<Event>)
    requires IsRun(Initial(now), es)
    ensures WireInv(After(Initial(now), es))
    ensures forall tid :: tid in After(Initial(now), es).threads ==>
              var th := After(Initial(now), es).threads[tid];
              th.rpcs <= 6 && th.sends <= 2 && (!Resends(th.call) ==> th.rpcs <= 3 && th.sends <= 1)
  {
    if es != [] {
      WireBounds(now, es[..|es| - 1]);
      WireInvStep(After(Initial(now), es[..|es| - 1]), es[|es| - 1]);
    }
  }

  // ── Admissions happen only over a cache with nothing fresh in it ──────────────────────────────

  /** While a lazy or refreshing admission is under way, its agent's cache offers nothing. */
  ghost predicate AdmissionOpen(s: State, th: Thread) {
    th.pc.Challenging? || th.pc.Admitting? ==>
      match th.pc.purpose
      case ForTicket => Fresh(s, th.call.aid) == None
      case ForRefresh(_) => SlotOf(s, th.call.aid).cache == EMPTY
      case ForForget(_, _) => false
      case ForAdmit => th.call.op.AdmitNow?
  }

  /** An explicit admit is the only call that admits over a fresh ticket. */
  predicate PurposeFits(th: Thread) {
    match th.pc
    case WantLock(p) => p.ForAdmit? ==> th.call.op.AdmitNow?
    case Holding(p) => p.ForAdmit? ==> th.call.op.AdmitNow?
    case _ => true
  }

  ghost predicate AdmissionInv(s: State) {
    forall tid :: tid in s.threads ==> AdmissionOpen(s, s.threads[tid]) && PurposeFits(s.threads[tid])
  }

  /** A step of one thread leaves alone the cache of every agent whose lock another thread holds. */
  lemma LockedCacheUntouched(s: State, e: Event, tid: nat)
    requires LockInv(s) && Enabled(s, e) && tid in s.threads && HoldsLock(s.threads[tid].pc)
    requires e.Tick? || e.tid != tid
    ensures SlotOf(Next(s, e), s.threads[tid].call.aid) == SlotOf(s, s.threads[tid].call.aid)
  {
    if !e.Tick? && !e.Spawn? {
      OwnLockStep(s, e);
      assert SlotOf(s, s.threads[tid].call.aid).owner == Some(tid);
    }
  }

  lemma AdmissionInvStep(s: State, e: Event)
    requires LockInv(s) && AdmissionInv(s) && Enabled(s, e) && Forward(e)
    ensures AdmissionInv(Next(s, e))
  {
    var s' := Next(s, e);
    forall tid | tid in s'.threads ensures AdmissionOpen(s', s'.threads[tid]) && PurposeFits(s'.threads[tid]) {
      if e.Tick? || tid != e.tid {
        assert AdmissionOpen(s, s.threads[tid]) && PurposeFits(s.threads[tid]);
        if HoldsLock(s.threads[tid].pc) {
          LockedCacheUntouched(s, e, tid);
        }
      } else if !e.Spawn? {
        assert AdmissionOpen(s, s.threads[tid]) && PurposeFits(s.threads[tid]);
      }
    }
  }

  ghost predicate Inv(s: State) {
    LockInv(s) && SeenInv(s) && WireInv(s) && AdmissionInv(s)
  }

  lemma InvStep(s: State, e: Event)
    requires Inv(s) && Enabled(s, e) && Forward(e)
    ensures Inv(Next(s, e))
  {
    LockInvStep(s, e);
    SeenInvStep(s, e);
    WireInvStep(s, e);
    AdmissionInvStep(s, e);
  }

  lemma {:induction false} InvOverRuns(s: State, es: seq<Event>)
    requires Inv(s) && IsRun(s, es) && Monotone(es)
    ensures Inv(After(s, es))
  {
    if es != [] {
      InvOverRuns(s, es[..|es| - 1]);
      InvStep(After(s, es[..|es| - 1]), es[|es| - 1]);
    }
  }

  // ── Refresh coalescing ────────────────────────────────────────────────────────────────────────

  /** The caller's last send was refused and it now wants this ticket out of the cache. */
  predicate FailedOn(th: Thread, t: Ticket) {
    && (th.pc.WantLock? || th.pc.Holding?)
    && ((th.pc.purpose.ForRefresh? && th.pc.purpose.failed == t) || (th.pc.purpose.ForForget? && th.pc.purpose.failed == t))
    && LastUsed(th, t)
  }

  /** No caller's failure ever removes a fresh cached ticket other than the one it failed on: a fresh
      ticket leaves the cache only by time, by a caller that was refused on that very ticket, or by an
      explicit `admit` putting a newer one in its place. */
  lemma FreshTicketSurvives(s: State, e: Event, aid: string, t: Ticket)
    requires Inv(s) && Enabled(s, e)
    requires Fresh(s, aid) == Some(t) && Fresh(Next(s, e), aid) != Some(t)
    ensures || e.Tick?
            || (e.Look? && s.threads[e.tid].call.aid == aid && FailedOn(s.threads[e.tid], t))
            || (e.AdmitOk? && s.threads[e.tid].call.aid == aid && s.threads[e.tid].call.op.AdmitNow?)
  {
    if !e.Tick? && !e.Spawn? {
      assert AdmissionOpen(s, s.threads[e.tid]) && WireBound(s.threads[e.tid]);
    }
  }

  /** The ticket of a resend is not the one whose refusal caused it. */
  predicate OnAnother(th: Thread) {
    match th.pc
    case Ready(t, resend) => resend ==> th.used != [] && th.used[|th.used| - 1] != t
    case InFlight(t, resend) => resend ==> |th.used| >= 2 && th.used[|th.used| - 2] != t
    case Challenging(p) => p.ForRefresh? ==> th.used != []
    case Admitting(p) => p.ForRefresh? ==> th.used != []
    case _ => true
  }

  /** Whatever the other callers do and however the clock moves, no resend goes out under the ticket
      that was just refused. */
  lemma {:induction false} ResendsOnAnotherTicket(now: int, es: seq<Event>)
    requires IsRun(Initial(now), es)
    ensures SeenInv(After(Initial(now), es)) && WireInv(After(Initial(now), es))
    ensures forall tid :: tid in After(Initial(now), es).threads ==> OnAnother(After(Initial(now), es).threads[tid])
  {
    if es != [] {
      var s, e := After(Initial(now), es[..|es| - 1]), es[|es| - 1];
      ResendsOnAnotherTicket(now, es[..|es| - 1]);
      SeenInvStep(s, e);
      WireInvStep(s, e);
      if !e.Tick? && !e.Spawn? {
        OnAnotherStep(s, e, s.threads[e.tid], SlotOf(s, s.threads[e.tid].call.aid));
      }
    }
  }

  lemma OnAnotherStep(s: State, e: Event, th: Thread, slot: Slot)
    requires !e.Tick? && !e.Spawn? && Enabled(s, e) && th == s.threads[e.tid]
    requires OnAnother(th) && WireBound(th) && KnownTickets(s, th)
    ensures OnAnother(StepThread(s, e, th, slot).0)
  {
  }

  /** Admissions on one agent, explicit `admit` calls not counted. */
  ghost function Admissions(s: State, es: seq<Event>, aid: string): (n: nat)
    requires IsRun(s, es)
    decreases |es|
  {
    if es == [] then 0
    else
      var front, e := es[..|es| - 1], es[|es| - 1];
      Admissions(s, front, aid) + if LazyAdmission(After(s, front), e, aid) then 1 else 0
  }

  predicate LazyAdmission(s: State, e: Event, aid: string) {
    e.AdmitOk? && e.tid in s.threads && s.threads[e.tid].call.aid == aid && !s.threads[e.tid].call.op.AdmitNow?
  }

  /** A fresh ticket is gone and nothing fresh has taken its place. */
  ghost predicate Loses(s: State, e: Event, aid: string)
    requires Enabled(s, e)
  {
    Fresh(s, aid).Some? && Fresh(Next(s, e), aid) == None
  }

  /** An admission that left nothing fresh: an empty or expired ticket. */
  ghost predicate Unusable(s: State, e: Event, aid: string)
    requires Enabled(s, e)
  {
    e.AdmitOk? && s.threads[e.tid].call.aid == aid && Fresh(Next(s, e), aid) == None
  }

  /** How often one of the two happens. */
  ghost function Losses(s: State, es: seq<Event>, aid: string): (n: nat)
    requires IsRun(s, es)
    decreases |es|
  {
    if es == [] then 0
    else
      var front, e := es[..|es| - 1], es[|es| - 1];
      Losses(s, front, aid) + if Loses(After(s, front), e, aid) || Unusable(After(s, front), e, aid) then 1 else 0
  }

  /** How often `t`, cached and fresh, stops being so. */
  ghost function LossesOf(s: State, es: seq<Event>, aid: string, t: Ticket): (n: nat)
    requires IsRun(s, es)
    decreases |es|
  {
    if es == [] then 0
    else
      var front, e := es[..|es| - 1], es[|es| - 1];
      LossesOf(s, front, aid, t) +
      if Fresh(After(s, front), aid) == Some(t) && Fresh(After(s, es), aid) != Some(t) then 1 else 0
  }

  /** 1 while nothing fresh is cached: the next caller has to admit. */
  ghost function Owed(s: State, aid: string): (n: nat) {
    if Fresh(s, aid) == None then 1 else 0
  }

  lemma OwedStep(s: State, e: Event, aid: string)
    requires Inv(s) && Enabled(s, e)
    ensures (if LazyAdmission(s, e, aid) then 1 else 0) + Owed(Next(s, e), aid)
            <= Owed(s, aid) + if Loses(s, e, aid) || Unusable(s, e, aid) then 1 else 0
  {
    if !e.Tick? && !e.Spawn? {
      assert AdmissionOpen(s, s.threads[e.tid]) && WireBound(s.threads[e.tid]);
    }
  }

  /** Every admission is paid for: over any run on a clock that does not go back, the callers of one
      agent together admit once for the ticket they start without and once for every fresh ticket lost
      and every unusable one handed out, however many of them were refused or waiting. */
  lemma {:induction false} RefreshCoalesces(s: State, es: seq<Event>, aid: string)
    requires Inv(s) && IsRun(s, es) && Monotone(es)
    ensures Admissions(s, es, aid) + Owed(After(s, es), aid) <= Owed(s, aid) + Losses(s, es, aid)
  {
    if es != [] {
      var front, e := es[..|es| - 1], es[|es| - 1];
      RefreshCoalesces(s, front, aid);
      InvOverRuns(s, front);
      OwedStep(After(s, front), e, aid);
    }
  }

  /** A ticket that has been handed out and is not fresh never becomes fresh again. */
  lemma GoneForGood(s: State, e: Event, aid: string, t: Ticket)
    requires SeenInv(s) && Enabled(s, e) && Forward(e) && t in s.seen && Fresh(s, aid) != Some(t)
    ensures Fresh(Next(s, e), aid) != Some(t)
  {
  }

  /** Each ticket is lost at most once, however many callers are refused on it, and not at all if it is
      handed out and no longer fresh. */
  lemma {:induction false} LostOnce(s: State, es: seq<Event>, aid: string, t: Ticket)
    requires Inv(s) && IsRun(s, es) && Monotone(es) && t in s.seen
    ensures t in After(s, es).seen
    ensures LossesOf(s, es, aid, t) + (if Fresh(After(s, es), aid) == Some(t) then 1 else 0)
            <= if Fresh(s, aid) == Some(t) then 1 else 0
  {
    if es != [] {
      var front, e := es[..|es| - 1], es[|es| - 1];
      LostOnce(s, front, aid, t);
      InvOverRuns(s, front);
      if Fresh(After(s, front), aid) != Some(t) {
        GoneForGood(After(s, front), e, aid, t);
      }
    }
  }

  /** A step during which, on this agent, only `t` is ever rejected, every admission yields a usable
      ticket, and no ticket but `t` goes stale. */
  ghost predicate OnlyRejects(s: State, e: Event, aid: string, t: Ticket)
    requires Enabled(s, e)
  {
    && (e.Look? && s.threads[e.tid].call.aid == aid ==>
          match s.threads[e.tid].pc.purpose
          case ForRefresh(f) => f == t
          case ForForget(f, _) => f == t
          case _ => true)
    && !Unusable(s, e, aid)
    && (e.Tick? && Fresh(s, aid).Some? && Fresh(s, aid) != Some(t) ==> Fresh(Next(s, e), aid) == Fresh(s, aid))
  }

  ghost predicate OnlyRejectsOver(s: State, es: seq<Event>, aid: string, t: Ticket)
    requires IsRun(s, es)
    decreases |es|
  {
    es == [] || (OnlyRejectsOver(s, es[..|es| - 1], aid, t) && OnlyRejects(After(s, es[..|es| - 1]), es[|es| - 1], aid, t))
  }

  /** In such a run nothing but `t` is lost. */
  lemma {:induction false} OnlyLoses(s: State, es: seq<Event>, aid: string, t: Ticket)
    requires Inv(s) && IsRun(s, es) && Monotone(es) && OnlyRejectsOver(s, es, aid, t)
    ensures Losses(s, es, aid) <= LossesOf(s, es, aid, t)
  {
    if es != [] {
      var front, e := es[..|es| - 1], es[|es| - 1];
      OnlyLoses(s, front, aid, t);
      InvOverRuns(s, front);
      if Loses(After(s, front), e, aid) {
        FreshTicketSurvives(After(s, front), e, aid, Fresh(After(s, front), aid).value);
      }
    }
  }

  /** From every reachable state a stampede of rejections on `t` admits at most once, and not at all if
      somebody has already replaced it. */
  lemma OneAdmissionPerRejectedTicket(now: int, before: seq<Event>, es: seq<Event>, aid: string, t: Ticket)
    requires IsRun(Initial(now), before) && Monotone(before) && t in After(Initial(now), before).seen
    requires IsRun(After(Initial(now), before), es) && Monotone(es)
    requires OnlyRejectsOver(After(Initial(now), before), es, aid, t)
    ensures Admissions(After(Initial(now), before), es, aid) <= 1
    ensures var f := Fresh(After(Initial(now), before), aid);
            f.Some? && f.value != t ==> Admissions(After(Initial(now), before), es, aid) == 0
  {
    InvOverRuns(Initial(now), before);
    RefreshCoalesces(After(Initial(now), before), es, aid);
    OnlyLoses(After(Initial(now), before), es, aid, t);
    LostOnce(After(Initial(now), before), es, aid, t);
  }

  // ── Cancellation ──────────────────────────────────────────────────────────────────────────────

  /** Cancelling at any await releases the lock and writes to no cache. */
  lemma CancelReleases(s: State, tid: nat)
    requires LockInv(s) && Enabled(s, Cancel(tid))
    ensures var s' := Next(s, Cancel(tid));
            && s'.threads[tid].pc == Cancelled
            && (forall aid :: SlotOf(s', aid).cache == SlotOf(s, aid).cache)
            && (forall aid :: SlotOf(s', aid).owner != Some(tid))
            && (HoldsLock(s.threads[tid].pc) ==> SlotOf(s', s.threads[tid].call.aid).owner == None)
  {
    var s' := Next(s, Cancel(tid));
    var own := s.threads[tid].call.aid;
    forall aid ensures SlotOf(s', aid).owner != Some(tid) {
      if aid != own && aid in s.slots && s.slots[aid].owner.Some? {
        assert s.threads[s.slots[aid].owner.value].call.aid == aid;
      }
    }
  }

  /** Cancelling a refresh leaves the rejected ticket cached exactly when the refresh was still waiting
      for the lock and the ticket was cached then; once it holds the lock, the cache is left empty. */
  lemma CancelledRefresh(s: State, tid: nat, failed: Ticket)
    requires Inv(s) && Enabled(s, Cancel(tid))
    requires var pc := s.threads[tid].pc; !pc.InFlight? && !pc.Raised? && pc.purpose == ForRefresh(failed)
    ensures var s', aid := Next(s, Cancel(tid)), s.threads[tid].call.aid;
            && (SlotOf(s', aid).cache.ticket == Some(failed) <==>
                s.threads[tid].pc.WantLock? && SlotOf(s, aid).cache.ticket == Some(failed))
            && (HoldsLock(s.threads[tid].pc) ==> SlotOf(s', aid) == Slot(EMPTY, None))
  {
    assert AdmissionOpen(s, s.threads[tid]);
  }

  /** The steps an admission takes between the lock and its answer. */
  predicate AdmissionStep(e: Event, tid: nat) {
    (!e.Tick? && e.tid == tid) ==> e.Look? || e.ChallengeOk?
  }

  /** The thread still has its call; if it still holds the lock, its slot is as it was at `s`. */
  ghost predicate HeldSince(s: State, m: State, tid: nat) {
    && LockInv(m) && tid in s.threads && tid in m.threads
    && m.threads[tid].call == s.threads[tid].call
    && (m.threads[tid].pc.Ready? || HoldsLock(m.threads[tid].pc))
    && (HoldsLock(m.threads[tid].pc) ==>
          && !m.threads[tid].pc.purpose.ForRefresh? && !m.threads[tid].pc.purpose.ForForget?
          && SlotOf(m, s.threads[tid].call.aid) == SlotOf(s, s.threads[tid].call.aid))
  }

  lemma HeldSinceStep(s: State, m: State, e: Event, tid: nat)
    requires HeldSince(s, m, tid) && Enabled(m, e) && AdmissionStep(e, tid)
    ensures HeldSince(s, Next(m, e), tid)
  {
    LockInvStep(m, e);
    if (e.Tick? || e.tid != tid) && HoldsLock(m.threads[tid].pc) {
      LockedCacheUntouched(m, e, tid);
    }
  }

  lemma {:induction false} HeldSinceOverRuns(s: State, es: seq<Event>, tid: nat)
    requires IsRun(s, es) && HeldSince(s, s, tid)
    requires forall i :: 0 <= i < |es| ==> AdmissionStep(es[i], tid)
    ensures HeldSince(s, After(s, es), tid)
  {
    if es != [] {
      HeldSinceOverRuns(s, es[..|es| - 1], tid);
      HeldSinceStep(s, After(s, es[..|es| - 1]), es[|es| - 1], tid);
    }
  }

  /** From taking the lock for a plain admission until the admission is cancelled, whatever the other
      callers do meanwhile, the agent's cache is left as it was. */
  lemma CancelledAdmitLeavesCache(s: State, es: seq<Event>, tid: nat)
    requires LockInv(s) && IsRun(s, es)
    requires tid in s.threads && s.threads[tid].pc in {Holding(ForTicket), Holding(ForAdmit)}
    requires forall i :: 0 <= i < |es| ==> AdmissionStep(es[i], tid)
    requires var m := After(s, es); Enabled(m, Cancel(tid)) && HoldsLock(m.threads[tid].pc)
    ensures SlotOf(Next(After(s, es), Cancel(tid)), s.threads[tid].call.aid) == SlotOf(s, s.threads[tid].call.aid).(owner := None)
  {
    HeldSinceOverRuns(s, es, tid);
  }

  // ── Where the clock or the timing of a cancellation matters ───────────────────────────────────

  lemma RunSnoc(s: State, es: seq<Event>, e: Event)
    requires IsRun(s, es) && Enabled(After(s, es), e)
    ensures IsRun(s, es + [e]) && After(s, es + [e]) == Next(After(s, es), e)
  {
    assert (es + [e])[..|es|] == es;
  }

  const WRITE := Call(Credentialed(true), "a", "/seam.api.v1.SeamCoordination/SubmitVote", [], [], true)

  lemma FirstAdmission(now: int) returns (es: seq<Event>)
    ensures IsRun(Initial(now), es) && Monotone(es)
    ensures var s := After(Initial(now), es);
            && s.now == now && s.seen == {} && SlotOf(s, "a") == Slot(EMPTY, Some(0))
            && 0 in s.threads && s.threads[0] == Thread(WRITE, Challenging(ForTicket), [], 1, 0)
  {
    es := [];
    RunSnoc(Initial(now), es, Spawn(0, WRITE));
    es := es + [Spawn(0, WRITE)];
    RunSnoc(Initial(now), es, Begin(0));
    es := es + [Begin(0)];
    RunSnoc(Initial(now), es, Acquire(0));
    es := es + [Acquire(0)];
    RunSnoc(Initial(now), es, Look(0));
    es := es + [Look(0)];
  }

  /** One agent, one caller, admitted with a ticket that turns stale after `8 * d`; the send is out. */
  lemma FirstSend(now: int, d: int) returns (es: seq<Event>)
    requires d > 0
    ensures IsRun(Initial(now), es) && Monotone(es)
    ensures var s := After(Initial(now), es);
            && s.now == now && SlotOf(s, "a") == Slot(Cache(Some([1]), now + 8 * d), None)
            && 0 in s.threads && s.threads[0] == Thread(WRITE, InFlight([1], false), [[1]], 3, 1)
  {
    es := FirstAdmission(now);
    RunSnoc(Initial(now), es, ChallengeOk(0));
    es := es + [ChallengeOk(0)];
    RunSnoc(Initial(now), es, AdmitOk(0, [1], now + 10 * d));
    es := es + [AdmitOk(0, [1], now + 10 * d)];
    RunSnoc(Initial(now), es, Send(0));
    es := es + [Send(0)];
  }

  /** A refresh cancelled while it waits for the lock leaves the rejected ticket cached and fresh. */
  lemma CancelledWaitKeepsRejectedTicket() returns (es: seq<Event>)
    ensures IsRun(Initial(0), es) && Monotone(es)
    ensures var s := After(Initial(0), es);
            0 in s.threads && s.threads[0].pc == Cancelled && s.threads[0].used == [[1]] && Fresh(s, "a") == Some([1])
  {
    es := FirstSend(0, 1);
    RunSnoc(Initial(0), es, ReplyFails(0, Unauthenticated));
    es := es + [ReplyFails(0, Unauthenticated)];
    RunSnoc(Initial(0), es, Cancel(0));
    es := es + [Cancel(0)];
  }

  /** No step of the clock sets it back by more than `d`. */
  predicate SetBackAtMost(es: seq<Event>, d: int) {
    forall i :: 0 <= i < |es| && es[i].Tick? ==> es[i].ms >= -d
  }

  /** The ticket turns stale while the send is out, and the send is refused. */
  lemma StaleWhenRefused(now: int, d: int) returns (es: seq<Event>)
    requires d > 0
    ensures IsRun(Initial(now), es) && Monotone(es)
    ensures var s := After(Initial(now), es);
            && s.now == now + 8 * d && SlotOf(s, "a") == Slot(Cache(Some([1]), now + 8 * d), None)
            && 0 in s.threads && s.threads[0] == Thread(WRITE, WantLock(ForForget([1], SessionUnavailable)), [[1]], 3, 1)
  {
    es := FirstSend(now, d);
    RunSnoc(Initial(now), es, Tick(8 * d));
    es := es + [Tick(8 * d)];
    RunSnoc(Initial(now), es, ReplyFails(0, SessionUnavailable));
    es := es + [ReplyFails(0, SessionUnavailable)];
  }

  /** A burned ticket that has turned stale is not dropped; the clock then goes back by `d`, and the
      ticket is fresh again. */
  lemma BurnedTicketReturns(now: int, d: int) returns (es: seq<Event>)
    requires d > 0
    ensures IsRun(Initial(now), es) && SetBackAtMost(es, d)
    ensures var s := After(Initial(now), es);
            && s.now == now + 7 * d && SlotOf(s, "a") == Slot(Cache(Some([1]), now + 8 * d), None)
            && 0 in s.threads && s.threads[0] == Thread(WRITE, Raised(SessionUnavailable), [[1]], 3, 1)
  {
    es := StaleWhenRefused(now, d);
    RunSnoc(Initial(now), es, Acquire(0));
    es := es + [Acquire(0)];
    RunSnoc(Initial(now), es, Look(0));
    es := es + [Look(0)];
    RunSnoc(Initial(now), es, Tick(-d));
    es := es + [Tick(-d)];
  }

  /** The retry takes the lock again. */
  lemma RetryAfterSetBack(now: int, d: int) returns (es: seq<Event>)
    requires d > 0
    ensures IsRun(Initial(now), es) && SetBackAtMost(es, d)
    ensures var s := After(Initial(now), es);
            && s.now == now + 7 * d && SlotOf(s, "a") == Slot(Cache(Some([1]), now + 8 * d), Some(0))
            && 0 in s.threads && s.threads[0] == Thread(WRITE, Holding(ForTicket), [[1]], 0, 0)
  {
    es := BurnedTicketReturns(now, d);
    RunSnoc(Initial(now), es, Retry(0));
    es := es + [Retry(0)];
    RunSnoc(Initial(now), es, Begin(0));
    es := es + [Begin(0)];
    RunSnoc(Initial(now), es, Acquire(0));
    es := es + [Acquire(0)];
  }

  /** However little the clock goes back, the guarantee is lost: a retried write is sent twice under
      one ticket. */
  lemma BackwardClockReplays(now: int, d: int) returns (es: seq<Event>)
    requires d > 0
    ensures IsRun(Initial(now), es) && SetBackAtMost(es, d)
    ensures var s := After(Initial(now), es);
            0 in s.threads && s.threads[0].call == WRITE && s.threads[0].used == [[1], [1]]
  {
    es := RetryAfterSetBack(now, d);
    RunSnoc(Initial(now), es, Look(0));
    es := es + [Look(0)];
    RunSnoc(Initial(now), es, Send(0));
    es := es + [Send(0)];
  }

  /** No two sends of one replay-guarded write sign the same bytes. */
  ghost predicate ReplaySafe(s: State) {
    forall tid, i, j ::
      && tid in s.threads && Guarded(s.threads[tid].call) && 0 <= i < j < |s.threads[tid].used|
      && Payload(s.threads[tid].call, s.threads[tid].used[i]).Some?
      ==> Payload(s.threads[tid].call, s.threads[tid].used[i]) != Payload(s.threads[tid].call, s.threads[tid].used[j])
  }

  ghost predicate ReplaySafeRun(now: int, es: seq<Event>) {
    IsRun(Initial(now), es) ==> ReplaySafe(After(Initial(now), es))
  }

  lemma MonotoneRunsAreReplaySafe(now: int, es: seq<Event>)
    requires Monotone(es)
    ensures ReplaySafeRun(now, es)
  {
    if IsRun(Initial(now), es) {
      var s := After(Initial(now), es);
      forall tid, i, j |
        && tid in s.threads && Guarded(s.threads[tid].call) && 0 <= i < j < |s.threads[tid].used|
        && Payload(s.threads[tid].call, s.threads[tid].used[i]).Some?
        ensures Payload(s.threads[tid].call, s.threads[tid].used[i]) != Payload(s.threads[tid].call, s.threads[tid].used[j])
      {
        ReplaySafety(now, es, tid, i, j);
      }
    }
  }

  /** The exact clock the guarantee needs: all runs whose clock is never set back by more than `d` are
      replay-safe if and only if `d` is not positive. */
  lemma ReplaySafeIffClockForward(now: int, d: int)
    ensures (forall es :: SetBackAtMost(es, d) ==> ReplaySafeRun(now, es)) <==> d <= 0
  {
    if d <= 0 {
      forall es | SetBackAtMost(es, d) ensures ReplaySafeRun(now, es) {
        MonotoneRunsAreReplaySafe(now, es);
      }
    } else {
      var es := BackwardClockReplays(now, d);
      var th := After(Initial(now), es).threads[0];
      assert Guarded(th.call) && Payload(th.call, th.used[0]).Some? && th.used[0] == th.used[1];
      assert !ReplaySafe(After(Initial(now), es));
    }
  }
}
