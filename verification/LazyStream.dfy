/** The stream that opens on its first message, because the proof it is opened with signs that message. */
module LazyStream {
  import opened Bytes

  type Message = nat

  type Thread = nat

  datatype Error = NotStarted | OneMessageOnly | Failed(code: nat)

  /** The calls that return an error of their own; `Trailer` and `Context` return none. */
  datatype Op = SendMsg | RecvMsg | Header | CloseSend

  /** Where a thread is inside `SendMsg`: holding the lock before and after signing, or past it. */
  datatype Pc = Idle | Entered(m: Message) | Signed(m: Message) | Ready(m: Message)

  /** A call returned: its own error, or whatever the real stream said. */
  datatype Return = Refused(op: Op, error: Error) | Delegated(op: Op)

  datatype State = State(
    lock: Option<Thread>,
    threads: map<Thread, Pc>,
    started: bool,
    err: Option<Error>,
    opens: nat,
    proof: Option<Message>,
    wire: seq<Message>,
    answers: seq<Return>)

  datatype Event =
    | Enter(t: Thread, m: Message)
    | Cancelled(t: Thread, code: nat)
    | SignFails(t: Thread, code: nat)
    | Signs(t: Thread)
    | OpenFails(t: Thread, code: nat)
    | Opens(t: Thread)
    | Sends(t: Thread)
    | Calls(op: Op)

  function PcOf(s: State, t: Thread): (r: Pc) {
    if t in s.threads then s.threads[t] else Idle
  }

  predicate HoldsLock(s: State, t: Thread) {
    PcOf(s, t).Entered? || PcOf(s, t).Signed?
  }

  predicate Enabled(s: State, e: Event) {
    match e
    case Enter(t, _) => PcOf(s, t).Idle? && s.lock.None?
    case Cancelled(t, _) => PcOf(s, t).Entered?
    case SignFails(t, _) => PcOf(s, t).Entered?
    case Signs(t) => PcOf(s, t).Entered?
    case OpenFails(t, _) => PcOf(s, t).Signed?
    case Opens(t) => PcOf(s, t).Signed?
    case Sends(t) => PcOf(s, t).Ready?
    case Calls(op) => s.lock.None? && !op.SendMsg?
  }

  /** A failure inside the lock is kept and returned. */
  function Fail(s: State, t: Thread, error: Error): (r: State) {
    s.(lock := None, err := Some(error), threads := s.threads[t := Idle], answers := s.answers + [Refused(SendMsg, error)])
  }

  /** What a call that needs the real stream answers. */
  function Answer(s: State, op: Op): (r: Return) {
    if s.err.Some? then Refused(op, s.err.value)
    else if !s.started then Refused(op, NotStarted)
    else Delegated(op)
  }

  function Next(s: State, e: Event): (r: State) {
    match e
    case Enter(t, m) =>
      if s.err.Some? then s.(answers := s.answers + [Refused(SendMsg, s.err.value)])
      else if s.started then s.(answers := s.answers + [Refused(SendMsg, OneMessageOnly)])
      else s.(lock := Some(t), threads := s.threads[t := Entered(m)])
    case Cancelled(t, code) => Fail(s, t, Failed(code))
    case SignFails(t, code) => Fail(s, t, Failed(code))
    case Signs(t) => if PcOf(s, t).Entered? then s.(threads := s.threads[t := Signed(PcOf(s, t).m)]) else s
    case OpenFails(t, code) => Fail(s, t, Failed(code)).(opens := s.opens + 1)
    case Opens(t) =>
      if PcOf(s, t).Signed? then
        s.(lock := None, opens := s.opens + 1, started := true, proof := Some(PcOf(s, t).m),
           threads := s.threads[t := Ready(PcOf(s, t).m)])
      else s
    case Sends(t) =>
      if PcOf(s, t).Ready? then
        s.(wire := s.wire + [PcOf(s, t).m], threads := s.threads[t := Idle], answers := s.answers + [Delegated(SendMsg)])
      else s
    case Calls(op) => s.(answers := s.answers + [Answer(s, op)])
  }

  const START: State := State(None, map[], false, None, 0, None, [], [])

  predicate IsPath(s: State, es: seq<Event>)
    decreases |es|, 0
  {
    es == [] || (IsPath(s, es[..|es| - 1]) && Enabled(RunFrom(s, es[..|es| - 1]), es[|es| - 1]))
  }

  function RunFrom(s: State, es: seq<Event>): (r: State)
    decreases |es|, 1
  {
    if es == [] then s else Next(RunFrom(s, es[..|es| - 1]), es[|es| - 1])
  }

  predicate IsRun(es: seq<Event>) {
    IsPath(START, es)
  }

  function After(es: seq<Event>): (r: State) {
    RunFrom(START, es)
  }

  // ── What every step keeps ─────────────────────────────────────────────────────────────────────

  ghost predicate OneHolder(s: State) {
    forall t: Thread :: HoldsLock(s, t) <==> s.lock == Some(t)
  }

  /** Nothing has been opened, kept or sent while a thread is inside the lock. */
  predicate HolderFirst(s: State) {
    s.lock.Some? ==> !s.started && s.err.None? && s.opens == 0 && s.wire == []
  }

  ghost predicate OneSender(s: State) {
    && (forall t, u :: PcOf(s, t).Ready? && PcOf(s, u).Ready? ==> t == u)
    && (forall t :: PcOf(s, t).Ready? ==> s.started && s.wire == [] && s.proof == Some(PcOf(s, t).m))
  }

  ghost predicate Inv(s: State) {
    && OneHolder(s) && HolderFirst(s) && OneSender(s)
    && s.opens <= 1
    && (s.started ==> s.opens == 1 && s.err.None? && s.proof.Some?)
    && (!s.started ==> s.wire == [] && s.proof.None? && (s.err.None? ==> s.opens == 0))
    && |s.wire| <= 1 && forall m :: m in s.wire ==> s.proof == Some(m)
  }

  /** A thread inside `SendMsg` has seen no failure, and one holding the lock no stream either. */
  lemma Inside(s: State, t: Thread)
    requires Inv(s)
    ensures HoldsLock(s, t) ==> s.lock == Some(t) && !s.started && s.opens == 0
    ensures HoldsLock(s, t) || PcOf(s, t).Ready? ==> s.err.None?
  {
    assert HoldsLock(s, t) <==> s.lock == Some(t);
  }

  lemma InvStep(s: State, e: Event)
    requires Inv(s) && Enabled(s, e)
    ensures Inv(Next(s, e))
  {
    var n := Next(s, e);
    if e.Calls? {
      assert forall u :: PcOf(n, u) == PcOf(s, u) && (HoldsLock(n, u) <==> HoldsLock(s, u));
    } else {
      Inside(s, e.t);
      assert forall u :: u != e.t ==> PcOf(n, u) == PcOf(s, u) && (HoldsLock(n, u) <==> HoldsLock(s, u));
      assert PcOf(n, e.t) == PcOf(s, e.t) || PcOf(n, e.t) == n.threads[e.t];
      assert HoldsLock(n, e.t) <==> n.lock == Some(e.t);
    }
  }

  lemma {:induction false} InvOverRuns(es: seq<Event>)
    requires IsRun(es)
    ensures Inv(After(es))
    decreases |es|
  {
    if es != [] {
      InvOverRuns(es[..|es| - 1]);
      InvStep(After(es[..|es| - 1]), es[|es| - 1]);
    }
  }

  /** In every interleaving the real stream is opened at most once, at most one message is sent, and it is the
      message the proof signed. */
  lemma OpenedOnceForOneMessage(es: seq<Event>)
    requires IsRun(es)
    ensures After(es).opens <= 1
    ensures |After(es).wire| <= 1
    ensures forall m :: m in After(es).wire ==> After(es).proof == Some(m)
  {
    InvOverRuns(es);
  }

  /** Only a `SendMsg` opens the stream, and it opens it with a proof over its own message. */
  lemma OnlySendOpens(s: State, e: Event)
    requires Inv(s) && Enabled(s, e) && Next(s, e).opens != s.opens
    ensures !s.started && s.err.None? && (e.Opens? || e.OpenFails?) && PcOf(s, e.t).Signed?
    ensures e.Opens? ==> Next(s, e).proof == Some(PcOf(s, e.t).m)
  {
    assert HoldsLock(s, e.t);
  }

  // ── The first failure ─────────────────────────────────────────────────────────────────────────

  /** Every return from `n` on is this refusal. */
  predicate AllRefused(s: State, n: nat, error: Error) {
    n <= |s.answers| && forall i :: n <= i < |s.answers| ==> s.answers[i].Refused? && s.answers[i].error == error
  }

  /** After a failure no thread is inside `SendMsg`. */
  lemma QuietAfterFailure(s: State, e: Event)
    requires Inv(s) && Enabled(s, e) && s.err.Some?
    ensures e.Enter? || e.Calls?
  {
    if !e.Calls? {
      Inside(s, e.t);
    }
  }

  lemma FailureStep(s: State, e: Event, n: nat, error: Error)
    requires Inv(s) && Enabled(s, e) && s.err == Some(error) && AllRefused(s, n, error)
    ensures Next(s, e).err == Some(error) && AllRefused(Next(s, e), n, error)
    ensures Next(s, e).opens == s.opens && Next(s, e).wire == []
  {
    QuietAfterFailure(s, e);
  }

  /** Once opening has failed, every later call that returns an error returns that one, nothing is opened again and
      nothing is ever sent. */
  lemma {:induction false} FailureSticks(es: seq<Event>, n: nat, error: Error)
    requires IsRun(es) && n <= |es| && After(es[..n]).err == Some(error)
    ensures After(es).err == Some(error) && After(es).opens == After(es[..n]).opens && After(es).wire == []
    ensures AllRefused(After(es), |After(es[..n]).answers|, error)
    decreases |es|
  {
    InvOverRuns(es);
    if n == |es| {
      assert es[..n] == es;
    } else {
      var init := es[..|es| - 1];
      assert init[..n] == es[..n];
      FailureSticks(init, n, error);
      InvOverRuns(init);
      FailureStep(After(init), es[|es| - 1], |After(es[..n]).answers|, error);
    }
  }

  /** The error of the first event that failed. */
  function FirstFailure(es: seq<Event>): (r: Option<Error>) {
    if es == [] then None
    else
      var e := es[0];
      if e.Cancelled? || e.SignFails? || e.OpenFails? then Some(Failed(e.code)) else FirstFailure(es[1..])
  }

  predicate Opened(es: seq<Event>) {
    exists i :: 0 <= i < |es| && es[i].Opens?
  }

  lemma {:induction false} FirstFailureSnoc(es: seq<Event>, e: Event)
    ensures FirstFailure(es + [e]) == if FirstFailure(es).Some? then FirstFailure(es) else FirstFailure([e])
  {
    if es == [] {
      assert [] + [e] == [e];
    } else {
      assert (es + [e])[0] == es[0] && (es + [e])[1..] == es[1..] + [e];
      FirstFailureSnoc(es[1..], e);
    }
  }

  lemma OpenedSnoc(es: seq<Event>, e: Event)
    ensures Opened(es + [e]) <==> Opened(es) || e.Opens?
  {
    if e.Opens? {
      assert (es + [e])[|es|].Opens?;
    }
    if Opened(es) {
      var i :| 0 <= i < |es| && es[i].Opens?;
      assert (es + [e])[i].Opens?;
    }
  }

  lemma FailureKept(s: State, e: Event)
    requires Inv(s) && Enabled(s, e)
    ensures Next(s, e).err == if s.err.Some? then s.err else FirstFailure([e])
    ensures Next(s, e).started <==> s.started || e.Opens?
  {
    assert [e][1..] == [];
    if s.err.Some? {
      QuietAfterFailure(s, e);
    }
  }

  /** What is kept is the first failure there was, and the stream has started exactly when it was opened. */
  lemma {:induction false} KeepsFirstFailure(es: seq<Event>)
    requires IsRun(es)
    ensures After(es).err == FirstFailure(es) && (After(es).started <==> Opened(es))
    decreases |es|
  {
    if es != [] {
      var front, e := es[..|es| - 1], es[|es| - 1];
      assert es == front + [e];
      KeepsFirstFailure(front);
      InvOverRuns(front);
      FailureKept(After(front), e);
      FirstFailureSnoc(front, e);
      OpenedSnoc(front, e);
    }
  }

  // ── The answers of a whole run ────────────────────────────────────────────────────────────────

  /** What a call other than `SendMsg` returns before the stream has opened or failed. */
  predicate Early(a: Return) {
    a.Refused? && !a.op.SendMsg? && a.error.NotStarted?
  }

  /** What any call returns after that. */
  predicate Late(s: State, a: Return) {
    if s.err.Some? then a.Refused? && a.error == s.err.value
    else a.Delegated? || a == Refused(SendMsg, OneMessageOnly)
  }

  /** The first `k` answers are early, the others late, and only an opened or failed stream has late ones. */
  ghost predicate Phased(s: State, k: nat) {
    && k <= |s.answers|
    && (forall i :: 0 <= i < k ==> Early(s.answers[i]))
    && (forall i :: k <= i < |s.answers| ==> Late(s, s.answers[i]))
    && (!s.started && s.err.None? ==> k == |s.answers|)
  }

  lemma PhasedStep(s: State, e: Event, k: nat) returns (k': nat)
    requires Inv(s) && Enabled(s, e) && Phased(s, k)
    ensures Phased(Next(s, e), k')
    ensures Delegated(SendMsg) in Next(s, e).answers <==> Delegated(SendMsg) in s.answers || e.Sends?
  {
    if !e.Calls? {
      Inside(s, e.t);
    }
    k' := if !Next(s, e).started && Next(s, e).err.None? then |Next(s, e).answers| else k;
  }

  /** In every interleaving the calls answer in two phases: that the stream has not started, up to the
      opening or the failure; from then on the failure, or the real stream and one `SendMsg` only. A
      `SendMsg` is answered by the real stream exactly when the message has gone out. */
  lemma {:induction false} AnswersInPhases(es: seq<Event>) returns (k: nat)
    requires IsRun(es)
    ensures Phased(After(es), k)
    ensures Delegated(SendMsg) in After(es).answers <==> After(es).wire != []
    decreases |es|
  {
    k := 0;
    if es != [] {
      var front := es[..|es| - 1];
      k := AnswersInPhases(front);
      InvOverRuns(front);
      k := PhasedStep(After(front), es[|es| - 1], k);
    }
  }

  // ── One call at a time ────────────────────────────────────────────────────────────────────────

  lemma Extended(s: State, es: seq<Event>, e: Event)
    requires IsPath(s, es) && Enabled(RunFrom(s, es), e)
    ensures IsPath(s, es + [e]) && RunFrom(s, es + [e]) == Next(RunFrom(s, es), e)
  {
    assert (es + [e])[..|es|] == es;
  }

  function Returned(op: Op, error: Option<Error>): (r: Return) {
    if error.Some? then Refused(op, error.value) else Delegated(op)
  }

  /** The stream's own fields; the context, the signer and the opener answer through the arguments. */
  class Stream {
    var started: bool
    var err: Option<Error>

    constructor ()
      ensures Agrees(START)
    {
      started, err := false, None;
    }

    /** The fields are what the protocol says of a stream nobody is inside of. */
    ghost predicate Agrees(s: State)
      reads this
    {
      started == s.started && err == s.err && s.lock.None?
    }

    method Started(ghost s: State, ghost op: Op) returns (error: Option<Error>)
      requires Agrees(s)
      ensures Returned(op, error) == Answer(s, op)
    {
      if err.Some? {
        return err;
      }
      if !started {
        return Some(NotStarted);
      }
      error := None;
    }

    /** Runs the protocol's steps of one `SendMsg`: from any state the fields agree with, to one they agree with again,
        returning what the protocol returns and handing `m` to the real stream exactly when the protocol does. */
    method Send(m: Message, cancelled: Option<nat>, sign: Option<nat>, open: Option<nat>, ghost s: State, ghost t: Thread)
      returns (error: Option<Error>, sent: bool, ghost es: seq<Event>)
      requires Agrees(s) && PcOf(s, t).Idle?
      modifies this
      ensures IsPath(s, es) && Agrees(RunFrom(s, es)) && PcOf(RunFrom(s, es), t).Idle?
      ensures RunFrom(s, es).answers == s.answers + [Returned(SendMsg, error)]
      ensures RunFrom(s, es).wire == s.wire + (if sent then [m] else [])
      ensures sent ==> RunFrom(s, es).proof == Some(m)
    {
      Extended(s, [], Enter(t, m));
      es, sent := [] + [Enter(t, m)], false;
      assert s.wire + [] == s.wire;
      if err.Some? {
        return err, false, es;
      }
      if started {
        return Some(OneMessageOnly), false, es;
      }
      if cancelled.Some? {
        Extended(s, es, Cancelled(t, cancelled.value));
        err := Some(Failed(cancelled.value));
        return err, false, es + [Cancelled(t, cancelled.value)];
      }
      if sign.Some? {
        Extended(s, es, SignFails(t, sign.value));
        err := Some(Failed(sign.value));
        return err, false, es + [SignFails(t, sign.value)];
      }
      Extended(s, es, Signs(t));
      es := es + [Signs(t)];
      if open.Some? {
        Extended(s, es, OpenFails(t, open.value));
        err := Some(Failed(open.value));
        return err, false, es + [OpenFails(t, open.value)];
      }
      Extended(s, es, Opens(t));
      es := es + [Opens(t)];
      started := true;
      Extended(s, es, Sends(t));
      error, sent, es := None, true, es + [Sends(t)];
    }
  }
}
