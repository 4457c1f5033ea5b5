/** The drift check's verdict, exit code and reporting, from the facts a run has gathered to the issues it leaves. */
module DriftVerdict {
  import opened Bytes

  type Version = nat

  /** The titles the check files under, and every other title. */
  datatype Title = InternalTitle(v: Version) | PartnerTitle(v: Version) | OtherTitle(text: nat)

  datatype Issue = Issue(title: Title, open: bool, labelled: bool)

  /** What became of one `gh` call: done, failed, or failed after its effect. */
  datatype Outcome = Done | FailedBefore | FailedAfter

  datatype Call = List | Create(title: Title) | Comment(n: nat) | Reopen(n: nat) | Heartbeat

  datatype Partner = PartnerFault | PartnerUnchecked | PartnerRead(short: bool)

  /** The newest-release question as it would be answered: a fault, the declared version itself, or another one. */
  datatype Newest = NewestFault | NewestDeclared | NewestOther(v: Version, short: bool, minutes: real)

  /** The facts of a run; ages in minutes, none when git cannot date the release. */
  datatype Facts = Facts(
    version: Version, instrument: bool, short: bool, partner: Partner, newest: Newest, clock: Option<real>,
    soft: int, hard: int, report: bool, repoKnown: bool, tagReadable: bool)

  datatype Verdict = Clean | Deferred | Warned | Drift | Suppressed

  const CLOCK_SKEW: real := 5.0

  // ── The verdicts ──────────────────────────────────────────────────────────────────────────────

  function Tier(minutes: real, soft: int, hard: int): (r: Verdict) {
    if minutes < soft as real then Deferred else if minutes < hard as real then Warned else Drift
  }

  /** An age too far in the future is a fault; a small one is none. */
  function Age(minutes: real): (r: Option<real>) {
    if minutes < 0.0 - CLOCK_SKEW then None else if minutes < 0.0 then Some(0.0) else Some(minutes)
  }

  function DeclaredAge(f: Facts): (r: Option<real>) {
    if f.clock.None? then None else Age(f.clock.value)
  }

  /** The newest question is asked only when partner was read. */
  function NewestAsked(f: Facts): (r: Option<Newest>) {
    if !f.partner.PartnerRead? then None
    else if f.newest.NewestOther? && Age(f.newest.minutes).None? then Some(NewestFault)
    else Some(f.newest)
  }

  predicate NewestFaulty(f: Facts) {
    NewestAsked(f) == Some(NewestFault)
  }

  function NewestVerdict(f: Facts): (r: Option<Verdict>) {
    var q := NewestAsked(f);
    if q.Some? && q.value.NewestOther? && q.value.short && Age(q.value.minutes).Some? then
      Some(Tier(Age(q.value.minutes).value, f.soft, f.hard))
    else None
  }

  /** Partner is the subject only when internal serves the version. */
  predicate Lacking(f: Facts) {
    f.short || (f.partner.PartnerRead? && f.partner.short)
  }

  function DeclaredVerdict(f: Facts, age: real): (r: Verdict) {
    if Lacking(f) then Tier(age, f.soft, f.hard) else Clean
  }

  function DeclaredTitle(f: Facts): (r: Title) {
    if f.short then InternalTitle(f.version) else PartnerTitle(f.version)
  }

  function WithNewest(code: nat, newest: Option<Verdict>, fault: bool): (r: nat) {
    if fault then (if code == 1 then 1 else 2)
    else if newest == Some(Drift) then 1
    else code
  }

  // ── Reporting ─────────────────────────────────────────────────────────────────────────────────

  /** The issues on GitHub, what is to become of the calls to come, and the calls made with what became of them. */
  datatype Tracker = Tracker(issues: seq<Issue>, outcomes: seq<Outcome>, log: seq<(Call, Outcome)>)

  function Effect(issues: seq<Issue>, c: Call): (r: seq<Issue>)
    ensures |issues| <= |r|
  {
    match c
    case Create(title) => issues + [Issue(title, true, false)]
    case Reopen(n) => if n < |issues| then issues[n := issues[n].(open := true)] else issues
    case _ => issues
  }

  function OutcomeOf(t: Tracker): (r: Outcome) {
    if t.outcomes == [] then Done else t.outcomes[0]
  }

  function Perform(t: Tracker, c: Call): (r: Tracker) {
    Tracker(if OutcomeOf(t).FailedBefore? then t.issues else Effect(t.issues, c),
            if t.outcomes == [] then [] else t.outcomes[1..],
            t.log + [(c, OutcomeOf(t))])
  }

  /** The listing is newest first: the last issue with exactly this title. */
  function Exact(issues: seq<Issue>, title: Title): (r: Option<nat>)
    ensures r.Some? ==> r.value < |issues| && issues[r.value].title == title
    ensures r.None? ==> forall i :: 0 <= i < |issues| ==> issues[i].title != title
  {
    if issues == [] then None
    else if issues[|issues| - 1].title == title then Some(|issues| - 1)
    else Exact(issues[..|issues| - 1], title)
  }

  /** Closed and labelled: a person decided to leave it. */
  predicate IsSuppressed(issues: seq<Issue>, title: Title) {
    var n := Exact(issues, title);
    n.Some? && !issues[n.value].open && issues[n.value].labelled
  }

  predicate HasOpen(issues: seq<Issue>, title: Title) {
    exists i :: 0 <= i < |issues| && issues[i].title == title && issues[i].open
  }

  /** Files, recognises, or comments and reopens; the answer is whether a suppression was found, none when a call
      failed. */
  function ReportDrift(t: Tracker, listing: seq<Issue>, title: Title): (r: (Option<bool>, Tracker)) {
    var n := Exact(listing, title);
    if n.None? then
      (if OutcomeOf(t).Done? then Some(false) else None, Perform(t, Create(title)))
    else if listing[n.value].open then (Some(false), t)
    else if listing[n.value].labelled then (Some(true), t)
    else
      var commented := Perform(t, Comment(n.value));
      if !OutcomeOf(t).Done? then (None, commented)
      else
        (if OutcomeOf(commented).Done? then Some(false) else None, Perform(commented, Reopen(n.value)))
  }

  /** The run's one listing: not read yet, failed, or what it said. */
  datatype IssueListing = Unread | Unreadable | Read(issues: seq<Issue>)

  function Listed(f: Facts, t: Tracker, l: IssueListing): (r: (IssueListing, Tracker)) {
    if !l.Unread? then (l, t)
    else if !f.repoKnown then (Unreadable, t)
    else (if OutcomeOf(t).Done? then Read(t.issues) else Unreadable, Perform(t, List))
  }

  /** Where reporting has got to: the declared code and the newest verdict, or failed. */
  datatype Progress = Progress(code: nat, newest: Option<Verdict>, listing: IssueListing, tracker: Tracker, failed: bool)

  function ReportDeclared(f: Facts, t: Tracker, verdict: Verdict, code: nat): (r: Progress) {
    var start := Progress(code, NewestVerdict(f), Unread, t, false);
    if !verdict.Drift? && !verdict.Clean? then start
    else
      var (l, u) := Listed(f, t, Unread);
      if verdict.Clean? then start.(listing := l, tracker := u)
      else if !l.Read? then start.(listing := l, tracker := u, failed := true)
      else
        var (suppressed, v) := ReportDrift(u, l.issues, DeclaredTitle(f));
        Progress(if suppressed == Some(true) then 0 else code, NewestVerdict(f), l, v, suppressed.None?)
  }

  function ReportNewest(f: Facts, p: Progress): (r: Progress) {
    if p.failed || p.newest != Some(Drift) then p
    else
      var (l, u) := Listed(f, p.tracker, p.listing);
      if !l.Read? || !f.tagReadable || !f.newest.NewestOther? then p.(listing := l, tracker := u, failed := true)
      else
        var (suppressed, v) := ReportDrift(u, l.issues, PartnerTitle(f.newest.v));
        p.(newest := if suppressed == Some(true) then Some(Suppressed) else p.newest,
           listing := l, tracker := v, failed := suppressed.None?)
  }

  datatype Result = Result(code: nat, tracker: Tracker)

  function Finish(f: Facts, p: Progress): (r: Result) {
    if p.failed then Result(2, p.tracker)
    else
      var code := if f.partner.PartnerFault? && p.code == 0 then 2 else p.code;
      Result(WithNewest(code, p.newest, NewestFaulty(f)),
             if p.listing.Unread? then p.tracker else Perform(p.tracker, Heartbeat))
  }

  function Report(f: Facts, t: Tracker, verdict: Verdict, code: nat): (r: Result) {
    Finish(f, ReportNewest(f, ReportDeclared(f, t, verdict, code)))
  }

  /** One run of the check. */
  function Run(f: Facts, t: Tracker): (r: Result) {
    if !f.instrument || f.soft > f.hard then Result(2, t)
    else
      var age := DeclaredAge(f);
      if age.None? then Result(WithNewest(2, NewestVerdict(f), NewestFaulty(f)), t)
      else if !f.short && f.partner.PartnerFault? then Result(2, t)
      else
        var verdict := DeclaredVerdict(f, age.value);
        var code := if verdict.Drift? then 1 else 0;
        if f.partner.PartnerFault? && !verdict.Drift? then Result(2, t)
        else if !f.report then Result(WithNewest(code, NewestVerdict(f), NewestFaulty(f)), t)
        else Report(f, t, verdict, code)
  }

  // ── What the exit code means ──────────────────────────────────────────────────────────────────

  /** A release may lie up to five minutes in the future, and is then as old as one made now. */
  predicate Dated(minutes: real) {
    minutes >= -5.0
  }

  predicate AtOrPast(minutes: real, hard: int) {
    Dated(minutes) && (if minutes < 0.0 then 0.0 else minutes) >= hard as real
  }

  /** The run reaches its verdicts: the instrument answered and git dated the release. */
  predicate Answered(f: Facts) {
    f.instrument && f.soft <= f.hard && f.clock.Some? && Dated(f.clock.value)
  }

  /** The declared version is short on internal, or on partner while internal serves it, at or past the hard window. */
  predicate DeclaredDrift(f: Facts) {
    Answered(f) && (f.short || (f.partner.PartnerRead? && f.partner.short)) && AtOrPast(f.clock.value, f.hard)
  }

  /** Partner was read and the newest release could not be found or dated. */
  predicate NewestUnknown(f: Facts) {
    f.partner.PartnerRead? && (f.newest.NewestFault? || (f.newest.NewestOther? && !Dated(f.newest.minutes)))
  }

  /** The newest release, another than the declared, is short on partner at or past the hard window. */
  predicate NewestDrift(f: Facts) {
    && f.instrument && f.soft <= f.hard && f.partner.PartnerRead?
    && f.newest.NewestOther? && f.newest.short && AtOrPast(f.newest.minutes, f.hard)
  }

  /** The issue a declared shortfall is reported under: internal's while internal is short, else partner's. */
  function Reported(f: Facts): (t: Title) {
    if f.short then InternalTitle(f.version) else PartnerTitle(f.version)
  }

  function NewestTitle(f: Facts): (t: Title)
    requires f.newest.NewestOther?
  {
    PartnerTitle(f.newest.v)
  }

  /** A suppression counts only in a run that reads the issues. */
  predicate DeclaredFinding(f: Facts, issues: seq<Issue>) {
    DeclaredDrift(f) && !(f.report && IsSuppressed(issues, Reported(f)))
  }

  predicate NewestFinding(f: Facts, issues: seq<Issue>) {
    NewestDrift(f) && !(f.report && Answered(f) && IsSuppressed(issues, NewestTitle(f)))
  }

  predicate AnyFinding(f: Facts, issues: seq<Issue>) {
    DeclaredFinding(f, issues) || NewestFinding(f, issues)
  }

  /** Everything was asked, everything answered, and nothing found. */
  predicate AllClear(f: Facts, issues: seq<Issue>) {
    Answered(f) && !f.partner.PartnerFault? && !NewestUnknown(f) && !AnyFinding(f, issues)
  }

  lemma TierIsDrift(minutes: real, soft: int, hard: int)
    requires soft <= hard
    ensures Tier(minutes, soft, hard).Drift? <==> minutes >= hard as real
  {
  }

  lemma NewestVerdictMeans(f: Facts)
    requires f.instrument && f.soft <= f.hard
    ensures NewestVerdict(f) == Some(Drift) <==> NewestDrift(f)
    ensures NewestVerdict(f) != Some(Suppressed) && (NewestFaulty(f) <==> NewestUnknown(f))
  {
  }

  lemma DeclaredVerdictMeans(f: Facts)
    requires f.instrument && f.soft <= f.hard
    ensures DeclaredAge(f).Some? <==> Answered(f)
    ensures Answered(f) ==> (DeclaredVerdict(f, DeclaredAge(f).value).Drift? <==> DeclaredDrift(f)) && DeclaredTitle(f) == Reported(f)
  {
  }

  // ── What reporting does to the issues ─────────────────────────────────────────────────────────

  /** Nothing is closed, renamed or relabelled. */
  predicate OnlyAdds(before: seq<Issue>, after: seq<Issue>) {
    && |before| <= |after|
    && forall i :: 0 <= i < |before| ==>
         after[i].title == before[i].title && after[i].labelled == before[i].labelled && (before[i].open ==> after[i].open)
  }

  /** A listing still says what is true of the issues with this title. */
  predicate Agrees(listing: seq<Issue>, issues: seq<Issue>, title: Title) {
    && |listing| <= |issues|
    && (forall i :: 0 <= i < |listing| ==> issues[i].title == listing[i].title)
    && (forall i :: 0 <= i < |listing| && listing[i].title == title ==> issues[i] == listing[i])
    && (forall i :: |listing| <= i < |issues| ==> issues[i].title != title)
  }

  lemma AddsTransitive(a: seq<Issue>, b: seq<Issue>, c: seq<Issue>)
    requires OnlyAdds(a, b) && OnlyAdds(b, c)
    ensures OnlyAdds(a, c)
  {
  }

  lemma PerformAdds(t: Tracker, c: Call)
    ensures OnlyAdds(t.issues, Perform(t, c).issues)
  {
  }

  lemma ReportDriftAdds(t: Tracker, listing: seq<Issue>, title: Title)
    ensures OnlyAdds(t.issues, ReportDrift(t, listing, title).1.issues)
  {
    var n := Exact(listing, title);
    PerformAdds(t, Create(title));
    if n.Some? {
      PerformAdds(t, Comment(n.value));
      PerformAdds(Perform(t, Comment(n.value)), Reopen(n.value));
    }
  }

  lemma PerformDisturbs(t: Tracker, c: Call, listing: seq<Issue>, other: Title)
    requires Agrees(listing, t.issues, other)
    requires c.Create? ==> c.title != other
    requires c.Reopen? ==> c.n < |listing| && listing[c.n].title != other
    ensures Agrees(listing, Perform(t, c).issues, other)
  {
  }

  /** Reporting one title leaves what the listing says of another true. */
  lemma ReportDriftDisturbs(t: Tracker, listing: seq<Issue>, title: Title, other: Title)
    requires title != other && |listing| <= |t.issues| && Agrees(listing, t.issues, other) && Agrees(listing, t.issues, title)
    ensures Agrees(listing, ReportDrift(t, listing, title).1.issues, other)
  {
    var n := Exact(listing, title);
    PerformDisturbs(t, Create(title), listing, other);
    if n.Some? {
      PerformDisturbs(t, Comment(n.value), listing, other);
      PerformDisturbs(Perform(t, Comment(n.value)), Reopen(n.value), listing, other);
    }
  }

  /** Reporting finds a suppression exactly when there is one, and otherwise leaves an open issue or fails. */
  lemma ReportDriftDelivers(t: Tracker, listing: seq<Issue>, title: Title)
    requires Agrees(listing, t.issues, title)
    ensures var r := ReportDrift(t, listing, title);
            && (r.0 == Some(true) <==> IsSuppressed(listing, title))
            && (r.0 == Some(false) ==> HasOpen(r.1.issues, title))
  {
    var n := Exact(listing, title);
    var r := ReportDrift(t, listing, title);
    if n.None? {
      assert OutcomeOf(t).Done? ==> r.1.issues[|t.issues|] == Issue(title, true, false);
    } else if listing[n.value].open {
      assert t.issues[n.value] == listing[n.value];
    } else if !listing[n.value].labelled && r.0 == Some(false) {
      assert r.1.issues[n.value].title == title && r.1.issues[n.value].open;
    }
  }

  lemma {:induction false} AgreeOnSuppression(listing: seq<Issue>, issues: seq<Issue>, title: Title)
    requires Agrees(listing, issues, title)
    ensures Exact(listing, title) == Exact(issues, title) && (IsSuppressed(listing, title) <==> IsSuppressed(issues, title))
    decreases |issues|
  {
    if |issues| > |listing| {
      AgreeOnSuppression(listing, issues[..|issues| - 1], title);
    } else if issues != [] && issues[|issues| - 1].title != title {
      AgreeOnSuppression(listing[..|issues| - 1], issues[..|issues| - 1], title);
    }
  }

  lemma AgreesWithItself(issues: seq<Issue>, title: Title)
    ensures Agrees(issues, issues, title)
  {
  }

  /** No call fails. */
  predicate AllDone(t: Tracker) {
    forall i :: 0 <= i < |t.outcomes| ==> t.outcomes[i].Done?
  }

  lemma PerformDone(t: Tracker, c: Call)
    requires AllDone(t)
    ensures OutcomeOf(t).Done? && AllDone(Perform(t, c))
  {
  }

  lemma ReportDriftDone(t: Tracker, listing: seq<Issue>, title: Title)
    requires AllDone(t)
    ensures ReportDrift(t, listing, title).0.Some? && AllDone(ReportDrift(t, listing, title).1)
  {
    var n := Exact(listing, title);
    PerformDone(t, Create(title));
    if n.Some? {
      PerformDone(t, Comment(n.value));
      PerformDone(Perform(t, Comment(n.value)), Reopen(n.value));
    }
  }

  // ── A reporting run, step by step ─────────────────────────────────────────────────────────────

  /** What is known once the declared question has been reported. */
  ghost predicate DeclaredReported(f: Facts, t: Tracker, p: Progress) {
    && OnlyAdds(t.issues, p.tracker.issues)
    && p.newest == NewestVerdict(f)
    && (p.listing.Read? ==> p.listing.issues == t.issues)
    && (p.listing.Unread? ==> p.tracker == t)
    && (!p.failed ==> (p.code == 1 <==> DeclaredFinding(f, t.issues)) && p.code <= 1)
    && (!p.failed && p.code == 1 ==> HasOpen(p.tracker.issues, Reported(f)))
    && (!p.failed && NewestDrift(f) && p.listing.Read? ==> Agrees(t.issues, p.tracker.issues, NewestTitle(f)))
    && (AllDone(t) && f.repoKnown ==> !p.failed && AllDone(p.tracker) && !p.listing.Unreadable?)
  }

  lemma ListedReads(f: Facts, t: Tracker)
    ensures var (l, u) := Listed(f, t, Unread);
            && u.issues == t.issues && !l.Unread? && (l.Read? ==> l.issues == t.issues)
            && (AllDone(t) && f.repoKnown ==> l.Read? && AllDone(u))
  {
    if AllDone(t) {
      PerformDone(t, List);
    }
  }

  /** The two questions never file under one title. */
  predicate Distinguished(f: Facts) {
    f.newest.NewestOther? ==> f.newest.v != f.version
  }

  lemma DeclaredStep(f: Facts, t: Tracker, verdict: Verdict, code: nat)
    requires Answered(f) && f.report && Distinguished(f)
    requires DeclaredAge(f).Some? && verdict == DeclaredVerdict(f, DeclaredAge(f).value) && code == if verdict.Drift? then 1 else 0
    ensures DeclaredReported(f, t, ReportDeclared(f, t, verdict, code))
  {
    DeclaredVerdictMeans(f);
    ListedReads(f, t);
    var (l, u) := Listed(f, t, Unread);
    var title := DeclaredTitle(f);
    AgreesWithItself(t.issues, title);
    if NewestDrift(f) {
      AgreesWithItself(t.issues, NewestTitle(f));
    }
    if verdict.Drift? && l.Read? {
      ReportDriftAdds(u, l.issues, title);
      ReportDriftDelivers(u, l.issues, title);
      if NewestDrift(f) {
        ReportDriftDisturbs(u, l.issues, title, NewestTitle(f));
      }
      if AllDone(u) {
        ReportDriftDone(u, l.issues, title);
      }
    }
  }

  /** What is known once the newest question has been reported too. */
  ghost predicate BothReported(f: Facts, t: Tracker, p: Progress) {
    && OnlyAdds(t.issues, p.tracker.issues)
    && (!p.failed ==> (p.code == 1 <==> DeclaredFinding(f, t.issues)) && p.code <= 1)
    && (!p.failed ==> (p.newest == Some(Drift) <==> NewestFinding(f, t.issues)))
    && (!p.failed && p.code == 1 ==> HasOpen(p.tracker.issues, Reported(f)))
    && (!p.failed && p.newest == Some(Drift) ==> NewestDrift(f) && HasOpen(p.tracker.issues, NewestTitle(f)))
    && (AllDone(t) && f.repoKnown && f.tagReadable ==> !p.failed)
  }

  lemma OpenStaysOpen(a: seq<Issue>, b: seq<Issue>, title: Title)
    requires OnlyAdds(a, b) && HasOpen(a, title)
    ensures HasOpen(b, title)
  {
    var i :| 0 <= i < |a| && a[i].title == title && a[i].open;
    assert b[i].title == title && b[i].open;
  }

  lemma NewestReport(f: Facts, t: Tracker, p: Progress, l: IssueListing, u: Tracker)
    requires Answered(f) && f.report && DeclaredReported(f, t, p) && !p.failed && NewestDrift(f)
    requires (l, u) == Listed(f, p.tracker, p.listing) && l.Read? && l.issues == t.issues && f.tagReadable
    requires OnlyAdds(t.issues, u.issues) && Agrees(t.issues, u.issues, NewestTitle(f))
    requires p.code == 1 ==> HasOpen(u.issues, Reported(f))
    requires AllDone(t) && f.repoKnown ==> AllDone(u)
    ensures BothReported(f, t, ReportNewest(f, p))
  {
    var title := NewestTitle(f);
    NewestVerdictMeans(f);
    ReportDriftAdds(u, l.issues, title);
    ReportDriftDelivers(u, l.issues, title);
    var v := ReportDrift(u, l.issues, title).1;
    AddsTransitive(t.issues, u.issues, v.issues);
    if p.code == 1 {
      OpenStaysOpen(u.issues, v.issues, Reported(f));
    }
    if AllDone(u) {
      ReportDriftDone(u, l.issues, title);
    }
  }

  lemma NewestStep(f: Facts, t: Tracker, p: Progress)
    requires Answered(f) && f.report && DeclaredReported(f, t, p)
    ensures BothReported(f, t, ReportNewest(f, p))
  {
    NewestVerdictMeans(f);
    if !p.failed && NewestDrift(f) {
      var (l, u) := Listed(f, p.tracker, p.listing);
      if p.listing.Unread? {
        ListedReads(f, t);
        AgreesWithItself(t.issues, NewestTitle(f));
      }
      if l.Read? && f.tagReadable {
        NewestReport(f, t, p, l, u);
      }
    }
  }

  /** How the findings reported turn into the exit code. */
  lemma FinishMeans(f: Facts, t: Tracker, p: Progress)
    requires BothReported(f, t, p) && (f.partner.PartnerFault? || NewestFaulty(f) ==> !NewestDrift(f))
    requires f.partner.PartnerFault? ==> !NewestFaulty(f)
    ensures var r := Finish(f, p);
            && r.tracker.issues == p.tracker.issues
            && (r.code == 1 <==> !p.failed && (p.code == 1 || p.newest == Some(Drift)))
            && (r.code == 0 <==> !p.failed && p.code == 0 && p.newest != Some(Drift) && !f.partner.PartnerFault? && !NewestFaulty(f))
            && r.code <= 2
  {
  }

  /** A reporting run ends in failure, or its code says which findings there are and they are on record. */
  lemma ReportMeans(f: Facts, t: Tracker)
    requires Answered(f) && f.report && Distinguished(f) && (f.partner.PartnerFault? ==> DeclaredDrift(f))
    ensures var r := Run(f, t);
            && OnlyAdds(t.issues, r.tracker.issues) && r.code <= 2
            && (r.code == 1 ==> AnyFinding(f, t.issues)) && (r.code == 0 ==> AllClear(f, t.issues))
            && (r.code == 1 && DeclaredFinding(f, t.issues) ==> HasOpen(r.tracker.issues, Reported(f)))
            && (r.code == 1 && NewestFinding(f, t.issues) ==> HasOpen(r.tracker.issues, NewestTitle(f)))
            && (AllDone(t) && f.repoKnown && f.tagReadable ==>
                  (r.code == 1 <==> AnyFinding(f, t.issues)) && (r.code == 0 <==> AllClear(f, t.issues)))
  {
    DeclaredVerdictMeans(f);
    NewestVerdictMeans(f);
    var verdict := DeclaredVerdict(f, DeclaredAge(f).value);
    var code := if verdict.Drift? then 1 else 0;
    DeclaredStep(f, t, verdict, code);
    var p := ReportNewest(f, ReportDeclared(f, t, verdict, code));
    NewestStep(f, t, ReportDeclared(f, t, verdict, code));
    FinishMeans(f, t, p);
    assert Run(f, t) == Finish(f, p);
  }

  // ── The main results ──────────────────────────────────────────────────────────────────────────

  /** A run that does not report only computes. */
  lemma QuietMeans(f: Facts, t: Tracker)
    requires !(Answered(f) && f.report && (f.partner.PartnerFault? ==> DeclaredDrift(f)))
    ensures Run(f, t).tracker == t && Run(f, t).code <= 2
    ensures Run(f, t).code == 1 <==> AnyFinding(f, t.issues)
    ensures Run(f, t).code == 0 <==> AllClear(f, t.issues)
  {
    if f.instrument && f.soft <= f.hard {
      NewestVerdictMeans(f);
      DeclaredVerdictMeans(f);
    }
  }

  /** Exit 1 means a finding: a shortfall at or past the hard window that no suppression covers. Exit 0 means all
      clear: everything asked, answered and free of findings. Every other exit is 2. And while GitHub and the tags can
      be read, the exit is 1 exactly when there is a finding and 0 exactly when all is clear, so that no fault hides a
      finding and no run without a fault or a finding fails. */
  lemma ExitCodeMeans(f: Facts, t: Tracker)
    requires Distinguished(f)
    ensures Run(f, t).code <= 2
    ensures Run(f, t).code == 1 ==> AnyFinding(f, t.issues)
    ensures Run(f, t).code == 0 ==> AllClear(f, t.issues)
    ensures AllDone(t) && f.repoKnown && f.tagReadable ==>
            (Run(f, t).code == 1 <==> AnyFinding(f, t.issues)) && (Run(f, t).code == 0 <==> AllClear(f, t.issues))
  {
    if Answered(f) && f.report && (f.partner.PartnerFault? ==> DeclaredDrift(f)) {
      ReportMeans(f, t);
    } else {
      QuietMeans(f, t);
    }
  }

  /** The tool never closes, renames or relabels an issue; and a reporting run that exits 1 leaves an open issue under
      the exact title of each finding. */
  lemma ReportingLeavesIssues(f: Facts, t: Tracker)
    requires Distinguished(f)
    ensures OnlyAdds(t.issues, Run(f, t).tracker.issues)
    ensures Answered(f) && f.report && Run(f, t).code == 1 && DeclaredFinding(f, t.issues) ==>
            HasOpen(Run(f, t).tracker.issues, Reported(f))
    ensures Answered(f) && f.report && Run(f, t).code == 1 && NewestFinding(f, t.issues) ==>
            HasOpen(Run(f, t).tracker.issues, NewestTitle(f))
  {
    if Answered(f) && f.report && (f.partner.PartnerFault? ==> DeclaredDrift(f)) {
      ReportMeans(f, t);
    } else {
      QuietMeans(f, t);
    }
  }

  // ── The calls a run makes ─────────────────────────────────────────────────────────────────────

  type Calls = seq<(Call, Outcome)>

  function Lists(calls: Calls): (n: nat) {
    if calls == [] then 0 else (if calls[0].0.List? then 1 else 0) + Lists(calls[1..])
  }

  lemma {:induction false} ListsAppend(a: Calls, b: Calls)
    ensures Lists(a + b) == Lists(a) + Lists(b)
  {
    if a == [] {
      assert [] + b == b;
    } else {
      assert (a + b)[1..] == a[1..] + b;
      ListsAppend(a[1..], b);
    }
  }

  /** Every reopening comes right after a comment on the same issue that went through. */
  predicate CommentedFirst(calls: Calls) {
    forall j :: 0 <= j < |calls| && calls[j].0.Reopen? ==> j > 0 && calls[j - 1] == (Comment(calls[j].0.n), Done)
  }

  lemma CommentedAppend(a: Calls, b: Calls)
    requires CommentedFirst(a) && CommentedFirst(b)
    ensures CommentedFirst(a + b)
  {
    forall j | 0 <= j < |a + b| && (a + b)[j].0.Reopen?
      ensures j > 0 && (a + b)[j - 1] == (Comment((a + b)[j].0.n), Done)
    {
      if j >= |a| {
        assert (a + b)[j] == b[j - |a|];
      }
    }
  }

  /** An issue that was closed is open only if it was reopened. */
  ghost predicate ReopenedBy(before: seq<Issue>, after: seq<Issue>, calls: Calls) {
    forall n :: 0 <= n < |before| && n < |after| && !before[n].open && after[n].open ==>
      exists j :: 0 <= j < |calls| && calls[j].0 == Reopen(n)
  }

  /** From `t` to `u` these calls were made. */
  ghost predicate Made(t: Tracker, u: Tracker, calls: Calls) {
    u.log == t.log + calls && |t.issues| <= |u.issues| && ReopenedBy(t.issues, u.issues, calls) && CommentedFirst(calls)
  }

  lemma MadeThen(t: Tracker, u: Tracker, v: Tracker, a: Calls, b: Calls)
    requires Made(t, u, a) && Made(u, v, b)
    ensures Made(t, v, a + b)
  {
    assert (t.log + a) + b == t.log + (a + b);
    CommentedAppend(a, b);
    forall n | 0 <= n < |t.issues| && !t.issues[n].open && v.issues[n].open
      ensures exists j :: 0 <= j < |a + b| && (a + b)[j].0 == Reopen(n)
    {
      if u.issues[n].open {
        var j :| 0 <= j < |a| && a[j].0 == Reopen(n);
        assert (a + b)[j].0 == Reopen(n);
      } else {
        var j :| 0 <= j < |b| && b[j].0 == Reopen(n);
        assert (a + b)[|a| + j].0 == Reopen(n);
      }
    }
  }

  lemma MadeNothing(t: Tracker)
    ensures Made(t, t, [])
  {
    assert t.log + [] == t.log;
  }

  lemma MadeOne(t: Tracker, c: Call)
    requires !c.Reopen?
    ensures Made(t, Perform(t, c), [(c, OutcomeOf(t))])
  {
  }

  lemma ReopenMade(t: Tracker, n: nat)
    requires OutcomeOf(t).Done?
    ensures var u := Perform(t, Comment(n));
            Made(t, Perform(u, Reopen(n)), [(Comment(n), Done), (Reopen(n), OutcomeOf(u))])
  {
    var u := Perform(t, Comment(n));
    var calls := [(Comment(n), Done), (Reopen(n), OutcomeOf(u))];
    assert (t.log + [(Comment(n), Done)]) + [(Reopen(n), OutcomeOf(u))] == t.log + calls;
    assert calls[1].0 == Reopen(n);
  }

  /** An issue is filed only under a title no issue has, and only a closed, unlabelled issue is commented on or
      reopened. */
  predicate Warranted(calls: Calls, issues: seq<Issue>) {
    forall j :: 0 <= j < |calls| ==>
      match calls[j].0
      case Create(title) => forall i :: 0 <= i < |issues| ==> issues[i].title != title
      case Comment(n) => n < |issues| && !issues[n].open && !issues[n].labelled
      case Reopen(n) => n < |issues| && !issues[n].open && !issues[n].labelled
      case _ => true
  }

  lemma ReportDriftMade(t: Tracker, listing: seq<Issue>, title: Title) returns (calls: Calls)
    ensures Made(t, ReportDrift(t, listing, title).1, calls) && Lists(calls) == 0 && Warranted(calls, listing)
    ensures forall i :: 0 <= i < |calls| ==> !calls[i].0.Heartbeat?
  {
    var n := Exact(listing, title);
    calls := [];
    MadeNothing(t);
    if n.None? {
      MadeOne(t, Create(title));
      calls := [(Create(title), OutcomeOf(t))];
    } else if !listing[n.value].open && !listing[n.value].labelled {
      MadeOne(t, Comment(n.value));
      calls := [(Comment(n.value), OutcomeOf(t))];
      if OutcomeOf(t).Done? {
        ReopenMade(t, n.value);
        var reopened := (Reopen(n.value), OutcomeOf(Perform(t, Comment(n.value))));
        calls := [(Comment(n.value), Done), reopened];
        assert calls == [(Comment(n.value), Done)] + [reopened];
        ListsAppend([(Comment(n.value), Done)], [reopened]);
      }
    }
  }

  lemma ListedMade(f: Facts, t: Tracker, l: IssueListing) returns (calls: Calls)
    ensures var r := Listed(f, t, l);
            && Made(t, r.1, calls) && Lists(calls) == (if l.Unread? && f.repoKnown then 1 else 0) && !r.0.Unread?
            && r.1.issues == t.issues && (l.Unread? && r.0.Read? ==> r.0.issues == t.issues)
            && forall issues :: Warranted(calls, issues)
    ensures forall i :: 0 <= i < |calls| ==> !calls[i].0.Heartbeat?
  {
    MadeNothing(t);
    calls := [];
    if l.Unread? && f.repoKnown {
      MadeOne(t, List);
      calls := [(List, OutcomeOf(t))];
    }
  }

  /** The calls so far: at most one listing, and none before one was wanted. */
  ghost predicate CallsSoFar(t: Tracker, p: Progress, calls: Calls) {
    && Made(t, p.tracker, calls) && Lists(calls) <= 1
    && (p.listing.Unread? ==> calls == [] && p.tracker == t)
    && Warranted(calls, t.issues) && (p.listing.Read? ==> p.listing.issues == t.issues)
    && forall i :: 0 <= i < |calls| ==> !calls[i].0.Heartbeat?
  }

  lemma DeclaredMade(f: Facts, t: Tracker, verdict: Verdict, code: nat) returns (calls: Calls)
    ensures CallsSoFar(t, ReportDeclared(f, t, verdict, code), calls)
  {
    MadeNothing(t);
    calls := [];
    if verdict.Drift? || verdict.Clean? {
      var (l, u) := Listed(f, t, Unread);
      calls := ListedMade(f, t, Unread);
      if verdict.Drift? && l.Read? {
        var more := ReportDriftMade(u, l.issues, DeclaredTitle(f));
        MadeThen(t, u, ReportDrift(u, l.issues, DeclaredTitle(f)).1, calls, more);
        ListsAppend(calls, more);
        calls := calls + more;
      }
    }
  }

  lemma NewestMade(f: Facts, t: Tracker, p: Progress, before: Calls) returns (calls: Calls)
    requires CallsSoFar(t, p, before)
    ensures CallsSoFar(t, ReportNewest(f, p), calls)
  {
    calls := before;
    if !p.failed && p.newest == Some(Drift) {
      var (l, u) := Listed(f, p.tracker, p.listing);
      var listed := ListedMade(f, p.tracker, p.listing);
      MadeThen(t, p.tracker, u, before, listed);
      ListsAppend(before, listed);
      calls := before + listed;
      if l.Read? && f.tagReadable && f.newest.NewestOther? {
        var more := ReportDriftMade(u, l.issues, PartnerTitle(f.newest.v));
        MadeThen(t, u, ReportDrift(u, l.issues, PartnerTitle(f.newest.v)).1, calls, more);
        ListsAppend(calls, more);
        calls := calls + more;
      }
    }
  }

  /** Every run lists the issues at most once; it files only under a title no issue has, comments only on a closed
      and unlabelled issue, and reopens one only right after commenting on it; and the heartbeat is read only by a run
      that wanted the listing. */
  lemma RunCalls(f: Facts, t: Tracker) returns (calls: Calls)
    ensures Made(t, Run(f, t).tracker, calls) && Lists(calls) <= 1 && Warranted(calls, t.issues)
    ensures forall i :: 0 <= i < |calls| && calls[i].0.Heartbeat? ==>
            Answered(f) && f.report && (NewestDrift(f) || !Lacking(f) || DeclaredDrift(f))
  {
    MadeNothing(t);
    calls := [];
    if Answered(f) && f.report && !(f.partner.PartnerFault? && !DeclaredDrift(f)) {
      var verdict := DeclaredVerdict(f, DeclaredAge(f).value);
      var code := if verdict.Drift? then 1 else 0;
      DeclaredVerdictMeans(f);
      NewestVerdictMeans(f);
      var declared := ReportDeclared(f, t, verdict, code);
      calls := DeclaredMade(f, t, verdict, code);
      calls := NewestMade(f, t, declared, calls);
      var p := ReportNewest(f, declared);
      assert Run(f, t) == Finish(f, p);
      if !p.failed && !p.listing.Unread? {
        MadeOne(p.tracker, Heartbeat);
        var beat := [(Heartbeat, OutcomeOf(p.tracker))];
        MadeThen(t, p.tracker, Perform(p.tracker, Heartbeat), calls, beat);
        ListsAppend(calls, beat);
        calls := calls + beat;
      }
    }
  }

  /** A run that does not report, that cannot date the release, or whose questions are all in grace makes no call. */
  lemma GraceIsSilent(f: Facts, t: Tracker)
    requires !f.report || !Answered(f) || (Lacking(f) && !DeclaredDrift(f) && !NewestDrift(f))
    ensures Run(f, t).tracker == t
  {
    if Answered(f) {
      DeclaredVerdictMeans(f);
      NewestVerdictMeans(f);
    }
  }

  // ── Over many runs ────────────────────────────────────────────────────────────────────────────

  /** Between runs people may do anything to the issues; a run has its facts and its luck with GitHub. */
  datatype Step = People(issues: seq<Issue>) | Check(facts: Facts, outcomes: seq<Outcome>)

  function IssuesAfter(start: seq<Issue>, steps: seq<Step>): (r: seq<Issue>) {
    if steps == [] then start
    else
      var before, last := IssuesAfter(start, steps[..|steps| - 1]), steps[|steps| - 1];
      match last
      case People(issues) => issues
      case Check(facts, outcomes) => Run(facts, Tracker(before, outcomes, [])).tracker.issues
  }

  lemma ReopenCommented(t: Tracker, u: Tracker, calls: Calls, n: nat)
    requires Made(t, u, calls) && t.log == [] && n < |t.issues| && !t.issues[n].open && u.issues[n].open
    ensures (Comment(n), Done) in u.log
  {
    var j :| 0 <= j < |calls| && calls[j].0 == Reopen(n);
    assert u.log == calls && calls[j - 1] == (Comment(n), Done);
  }

  lemma ReopenedWasCommented(f: Facts, t: Tracker, n: nat)
    requires t.log == [] && n < |t.issues| && |t.issues| <= |Run(f, t).tracker.issues|
    requires !t.issues[n].open && Run(f, t).tracker.issues[n].open
    ensures (Comment(n), Done) in Run(f, t).tracker.log
  {
    var calls := RunCalls(f, t);
    ReopenCommented(t, Run(f, t).tracker, calls, n);
  }

  /** In any history, whatever fails and whatever people do, a check closes nothing; what it opened again it had
      commented on in that same run; and when it reports and exits 1, each finding has an open issue. */
  lemma EveryCheckOnlySpeaks(start: seq<Issue>, steps: seq<Step>, k: nat)
    requires k < |steps| && steps[k].Check? && Distinguished(steps[k].facts)
    ensures var f, before, after := steps[k].facts, IssuesAfter(start, steps[..k]), IssuesAfter(start, steps[..k + 1]);
            && OnlyAdds(before, after)
            && (forall n :: 0 <= n < |before| && !before[n].open && after[n].open ==>
                  (Comment(n), Done) in Run(f, Tracker(before, steps[k].outcomes, [])).tracker.log)
            && (Answered(f) && f.report && Run(f, Tracker(before, steps[k].outcomes, [])).code == 1 ==>
                  && (DeclaredFinding(f, before) ==> HasOpen(after, Reported(f)))
                  && (NewestFinding(f, before) ==> HasOpen(after, NewestTitle(f))))
  {
    var f, before := steps[k].facts, IssuesAfter(start, steps[..k]);
    var t := Tracker(before, steps[k].outcomes, []);
    assert steps[..k + 1][..k] == steps[..k];
    ReportingLeavesIssues(f, t);
    var after := Run(f, t).tracker.issues;
    forall n | 0 <= n < |before| && !before[n].open && after[n].open ensures (Comment(n), Done) in Run(f, t).tracker.log {
      ReopenedWasCommented(f, t, n);
    }
  }

  /** At most one issue has this title. */
  predicate Once(issues: seq<Issue>, title: Title) {
    forall i, j :: 0 <= i < j < |issues| && issues[i].title == title ==> issues[j].title != title
  }

  /** An issue a person closed and labelled is not opened again. */
  predicate LeavesSuppressed(before: seq<Issue>, after: seq<Issue>) {
    forall n :: 0 <= n < |before| && n < |after| && !before[n].open && before[n].labelled ==> !after[n].open
  }

  ghost predicate Considerate(before: seq<Issue>, after: seq<Issue>, title: Title) {
    OnlyAdds(before, after) && LeavesSuppressed(before, after) && (Once(before, title) ==> Once(after, title))
  }

  lemma ConsiderateThen(a: seq<Issue>, b: seq<Issue>, c: seq<Issue>, title: Title)
    requires Considerate(a, b, title) && Considerate(b, c, title)
    ensures Considerate(a, c, title)
  {
    AddsTransitive(a, b, c);
    forall n | 0 <= n < |a| && n < |c| && !a[n].open && a[n].labelled ensures !c[n].open {
      assert !b[n].open && b[n].labelled;
    }
  }

  /** From a listing that still holds for the title it is asked about, a report files no second issue. */
  lemma ReportDriftConsiderate(t: Tracker, listing: seq<Issue>, asked: Title, title: Title)
    requires Agrees(listing, t.issues, asked)
    ensures Considerate(t.issues, ReportDrift(t, listing, asked).1.issues, title)
  {
    ReportDriftAdds(t, listing, asked);
    var n := Exact(listing, asked);
    if n.None? {
      assert forall i :: 0 <= i < |t.issues| ==> t.issues[i].title != asked;
    } else {
      assert t.issues[n.value] == listing[n.value];
    }
  }

  lemma DeclaredConsiderate(f: Facts, t: Tracker, verdict: Verdict, code: nat, title: Title)
    ensures Considerate(t.issues, ReportDeclared(f, t, verdict, code).tracker.issues, title)
  {
    ListedReads(f, t);
    var (l, u) := Listed(f, t, Unread);
    if verdict.Drift? && l.Read? {
      AgreesWithItself(t.issues, DeclaredTitle(f));
      ReportDriftConsiderate(u, l.issues, DeclaredTitle(f), title);
    }
  }

  lemma NewestConsiderate(f: Facts, t: Tracker, p: Progress, title: Title)
    requires f.instrument && f.soft <= f.hard && DeclaredReported(f, t, p)
    ensures Considerate(p.tracker.issues, ReportNewest(f, p).tracker.issues, title)
  {
    NewestVerdictMeans(f);
    if !p.failed && NewestDrift(f) {
      var (l, u) := Listed(f, p.tracker, p.listing);
      if p.listing.Unread? {
        ListedReads(f, t);
        AgreesWithItself(t.issues, NewestTitle(f));
      }
      if l.Read? {
        ReportDriftConsiderate(u, l.issues, NewestTitle(f), title);
      }
    }
  }

  lemma FinishIssues(f: Facts, p: Progress)
    ensures Finish(f, p).tracker.issues == p.tracker.issues
  {
  }

  lemma ReportConsiderate(f: Facts, t: Tracker, verdict: Verdict, code: nat, title: Title)
    requires Answered(f) && f.report && Distinguished(f)
    requires DeclaredAge(f).Some? && verdict == DeclaredVerdict(f, DeclaredAge(f).value) && code == if verdict.Drift? then 1 else 0
    ensures Considerate(t.issues, Report(f, t, verdict, code).tracker.issues, title)
  {
    var p := ReportDeclared(f, t, verdict, code);
    DeclaredStep(f, t, verdict, code);
    DeclaredConsiderate(f, t, verdict, code, title);
    NewestConsiderate(f, t, p, title);
    ConsiderateThen(t.issues, p.tracker.issues, ReportNewest(f, p).tracker.issues, title);
    FinishIssues(f, ReportNewest(f, p));
  }

  /** Whatever call fails, before or after its effect, a run files no second issue under a title and opens none
      that a person closed and labelled. */
  lemma RunConsiderate(f: Facts, t: Tracker, title: Title)
    requires Distinguished(f)
    ensures Considerate(t.issues, Run(f, t).tracker.issues, title)
  {
    if Answered(f) && f.report {
      var verdict := DeclaredVerdict(f, DeclaredAge(f).value);
      ReportConsiderate(f, t, verdict, if verdict.Drift? then 1 else 0, title);
    } else {
      QuietMeans(f, t);
    }
  }

  /** People may do anything but file a second issue under this title. */
  predicate PeopleFileOnce(start: seq<Issue>, steps: seq<Step>, title: Title) {
    forall k :: 0 <= k < |steps| && steps[k].People? && Once(IssuesAfter(start, steps[..k]), title) ==> Once(steps[k].issues, title)
  }

  /** No history of checks ever files a second issue under one title, whatever fails and whatever people close,
      label, reopen or delete in between. */
  lemma {:induction false} OneIssuePerTitle(start: seq<Issue>, steps: seq<Step>, title: Title)
    requires forall k :: 0 <= k < |steps| && steps[k].Check? ==> Distinguished(steps[k].facts)
    requires Once(start, title) && PeopleFileOnce(start, steps, title)
    ensures Once(IssuesAfter(start, steps), title)
    decreases |steps|
  {
    if steps != [] {
      var front, last := steps[..|steps| - 1], steps[|steps| - 1];
      assert forall k :: 0 <= k < |front| ==> front[..k] == steps[..k];
      OneIssuePerTitle(start, front, title);
      if last.Check? {
        RunConsiderate(last.facts, Tracker(IssuesAfter(start, front), last.outcomes, []), title);
      }
    }
  }

  // ── The check as it runs ──────────────────────────────────────────────────────────────────────

  /** GitHub as the run sees it: every call may fail, before or after its effect. */
  class GitHub {
    var issues: seq<Issue>
    var outcomes: seq<Outcome>
    var log: Calls

    function View(): (r: Tracker)
      reads this
    {
      Tracker(issues, outcomes, log)
    }

    method Call(c: Call) returns (ok: bool)
      modifies this
      ensures ok == OutcomeOf(old(View())).Done? && View() == Perform(old(View()), c)
    {
      var outcome := if outcomes == [] then Done else outcomes[0];
      if !outcome.FailedBefore? {
        issues := Effect(issues, c);
      }
      outcomes := if outcomes == [] then [] else outcomes[1..];
      log := log + [(c, outcome)];
      ok := outcome.Done?;
    }

    /** The cached listing: read on first use, and a failure is cached too. */
    method Listing(f: Facts, cache: IssueListing) returns (l: IssueListing)
      modifies this
      ensures (l, View()) == Listed(f, old(View()), cache)
    {
      if !cache.Unread? {
        return cache;
      }
      if !f.repoKnown {
        return Unreadable;
      }
      var shown := issues;
      var ok := Call(List);
      l := if ok then Read(shown) else Unreadable;
    }

    /** Files, recognises, or comments and then reopens. */
    method Report(listing: seq<Issue>, title: Title) returns (suppressed: Option<bool>)
      modifies this
      ensures (suppressed, View()) == ReportDrift(old(View()), listing, title)
      ensures OnlyAdds(old(issues), issues)
      ensures Agrees(listing, old(issues), title) ==>
              && (suppressed == Some(true) <==> IsSuppressed(old(issues), title))
              && (suppressed == Some(false) ==> HasOpen(issues, title))
    {
      ReportDriftAdds(View(), listing, title);
      if Agrees(listing, issues, title) {
        ReportDriftDelivers(View(), listing, title);
        AgreeOnSuppression(listing, issues, title);
      }
      var existing := Exact(listing, title);
      if existing.None? {
        var ok := Call(Create(title));
        return if ok then Some(false) else None;
      }
      if listing[existing.value].open {
        return Some(false);
      }
      if listing[existing.value].labelled {
        return Some(true);
      }
      var commented := Call(Comment(existing.value));
      if !commented {
        return None;
      }
      var reopened := Call(Reopen(existing.value));
      suppressed := if reopened then Some(false) else None;
    }
  }

  method ReportBoth(f: Facts, g: GitHub, verdict: Verdict, declaredCode: nat) returns (code: nat)
    modifies g
    ensures Result(code, g.View()) == Report(f, old(g.View()), verdict, declaredCode)
  {
    ghost var t := g.View();
    var cache := Unread;
    code := declaredCode;
    if verdict.Drift? {
      cache := g.Listing(f, cache);
      if !cache.Read? {
        return 2;
      }
      var suppressed := g.Report(cache.issues, DeclaredTitle(f));
      if suppressed.None? {
        return 2;
      }
      if suppressed.value {
        code := 0;
      }
    } else if verdict.Clean? {
      cache := g.Listing(f, cache);
    }
    var newest := NewestVerdict(f);
    ghost var p := Progress(code, newest, cache, g.View(), false);
    assert p == ReportDeclared(f, t, verdict, declaredCode);
    if newest == Some(Drift) {
      cache := g.Listing(f, cache);
      if !cache.Read? || !f.tagReadable || !f.newest.NewestOther? {
        return 2;
      }
      var suppressed := g.Report(cache.issues, PartnerTitle(f.newest.v));
      if suppressed.None? {
        return 2;
      }
      if suppressed.value {
        newest := Some(Suppressed);
      }
    }
    assert Progress(code, newest, cache, g.View(), false) == ReportNewest(f, p);
    if f.partner.PartnerFault? && code == 0 {
      code := 2;
    }
    code := WithNewest(code, newest, NewestFaulty(f));
    if !cache.Unread? {
      var beat := g.Call(Heartbeat);
    }
  }

  method CheckDrift(f: Facts, g: GitHub) returns (code: nat)
    modifies g
    ensures Result(code, g.View()) == Run(f, old(g.View()))
    ensures Distinguished(f) ==>
            && OnlyAdds(old(g.issues), g.issues) && LeavesSuppressed(old(g.issues), g.issues)
            && code <= 2 && (code == 1 ==> AnyFinding(f, old(g.issues))) && (code == 0 ==> AllClear(f, old(g.issues)))
            && (AllDone(old(g.View())) && f.repoKnown && f.tagReadable ==>
                  (code == 1 <==> AnyFinding(f, old(g.issues))) && (code == 0 <==> AllClear(f, old(g.issues))))
            && (code == 1 && f.report && DeclaredFinding(f, old(g.issues)) ==> HasOpen(g.issues, Reported(f)))
            && (code == 1 && f.report && Answered(f) && NewestFinding(f, old(g.issues)) ==> HasOpen(g.issues, NewestTitle(f)))
  {
    if Distinguished(f) {
      ExitCodeMeans(f, g.View());
      ReportingLeavesIssues(f, g.View());
      RunConsiderate(f, g.View(), DeclaredTitle(f));
    }
    if !f.instrument || f.soft > f.hard {
      return 2;
    }
    var age := DeclaredAge(f);
    if age.None? {
      return WithNewest(2, NewestVerdict(f), NewestFaulty(f));
    }
    if !f.short && f.partner.PartnerFault? {
      return 2;
    }
    var verdict := DeclaredVerdict(f, age.value);
    code := if verdict.Drift? then 1 else 0;
    if f.partner.PartnerFault? && !verdict.Drift? {
      return 2;
    }
    if !f.report {
      return WithNewest(code, NewestVerdict(f), NewestFaulty(f));
    }
    code := ReportBoth(f, g, verdict, code);
  }
}
