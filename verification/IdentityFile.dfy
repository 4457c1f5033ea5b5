/** Publishing an identity file: a private temporary file, written and synced, then linked to the final path, by
    any number of creators at once, with processes killed and the power cut at any step. */
module IdentityFile {
  import opened Bytes

  type Creator = nat

  type Inode = nat

  datatype Name = Final | Tmp(token: nat)

  /** A file's bytes, and whether they are on the disk. */
  datatype File = File(data: bytes, synced: bool)

  /** Where a creator is: writing what is left, synced, linked, cleaning up after a refusal, or done; `synced` says
      whether the directory was synced before it returned. */
  datatype Pc = Writing(token: nat, inode: Inode, left: bytes) | Synced(token: nat, inode: Inode)
              | Linked(token: nat) | Refused(token: nat) | Unlinked | Returned(synced: bool) | Raised | Dead

  datatype State = State(
    dir: map<Name, Inode>,
    durable: map<Name, Inode>,
    files: map<Inode, File>,
    nextInode: Inode,
    creators: map<Creator, Pc>,
    bodies: map<Creator, bytes>,
    owner: Option<Creator>,
    prior: Option<(Inode, bytes)>)

  datatype Event =
    | Open(c: Creator, token: nat, body: bytes)
    | Write(c: Creator, k: nat)
    | Fsync(c: Creator)
    | Link(c: Creator)
    | Unlink(c: Creator)
    | FsyncDir(c: Creator, posix: bool)
    | Fails(c: Creator)
    | Kill(c: Creator)
    | PowerCut(dir: map<Name, Inode>, files: map<Inode, File>)

  predicate Live(s: State, c: Creator) {
    c in s.creators && !s.creators[c].Returned? && !s.creators[c].Raised? && !s.creators[c].Dead?
  }

  /** A directory the disk may show after the power was cut: an entry that was synced and is still there stays, and
      every entry was there now or at the last sync. */
  predicate Recoverable(s: State, dir: map<Name, Inode>) {
    && (forall n :: n in s.durable && n in s.dir && s.durable[n] == s.dir[n] ==> n in dir && dir[n] == s.dir[n])
    && (forall n :: n in dir ==> (n in s.dir && dir[n] == s.dir[n]) || (n in s.durable && dir[n] == s.durable[n]))
  }

  /** Synced bytes survive; the others may be anything. */
  predicate Retained(s: State, files: map<Inode, File>) {
    files.Keys == s.files.Keys && forall f :: f in s.files && s.files[f].synced ==> files[f] == s.files[f]
  }

  predicate Enabled(s: State, e: Event) {
    match e
    case Open(c, _, _) => c !in s.creators
    case Write(c, k) => c in s.creators && s.creators[c].Writing? && k <= |s.creators[c].left|
    case Fsync(c) => c in s.creators && s.creators[c].Writing? && s.creators[c].left == []
    case Link(c) => c in s.creators && s.creators[c].Synced?
    case Unlink(c) => c in s.creators && (s.creators[c].Linked? || s.creators[c].Refused?)
    case FsyncDir(c, _) => c in s.creators && s.creators[c].Unlinked?
    case Fails(c) => Live(s, c)
    case Kill(c) => Live(s, c)
    case PowerCut(dir, files) => Recoverable(s, dir) && Retained(s, files)
  }

  function Move(s: State, c: Creator, pc: Pc): (r: State) {
    s.(creators := s.creators[c := pc])
  }

  /** Opening exclusively: an existing name is refused. */
  function AfterOpen(s: State, c: Creator, token: nat, body: bytes): (r: State) {
    if Tmp(token) in s.dir then Move(s, c, Raised).(bodies := s.bodies[c := body])
    else
      Move(s, c, Writing(token, s.nextInode, body)).(
        dir := s.dir[Tmp(token) := s.nextInode], files := s.files[s.nextInode := File([], false)],
        nextInode := s.nextInode + 1, bodies := s.bodies[c := body])
  }

  /** Linking refuses an existing final path. */
  function AfterLink(s: State, c: Creator, token: nat): (r: State) {
    if Final in s.dir || Tmp(token) !in s.dir then Move(s, c, Refused(token))
    else Move(s, c, Linked(token)).(dir := s.dir[Final := s.dir[Tmp(token)]], owner := Some(c))
  }

  function Without(dir: map<Name, Inode>, n: Name): (r: map<Name, Inode>) {
    map m | m in dir && m != n :: dir[m]
  }

  /** Where an error at this step leads: before the cleanup, or out. */
  function AfterFailure(pc: Pc): (r: Pc) {
    match pc
    case Writing(token, _, _) => Refused(token)
    case Synced(token, _) => Refused(token)
    case _ => Raised
  }

  function AllDead(creators: map<Creator, Pc>): (r: map<Creator, Pc>) {
    map c | c in creators :: if creators[c].Returned? || creators[c].Raised? then creators[c] else Dead
  }

  function Next(s: State, e: Event): (r: State)
    requires Enabled(s, e)
  {
    match e
    case Open(c, token, body) => AfterOpen(s, c, token, body)
    case Write(c, k) =>
      var pc := s.creators[c];
      if pc.inode !in s.files then s
      else
        Move(s, c, pc.(left := pc.left[k..])).(
          files := s.files[pc.inode := File(s.files[pc.inode].data + pc.left[..k], false)])
    case Fsync(c) =>
      var pc := s.creators[c];
      if pc.inode !in s.files then s
      else Move(s, c, Synced(pc.token, pc.inode)).(files := s.files[pc.inode := s.files[pc.inode].(synced := true)])
    case Link(c) => AfterLink(s, c, s.creators[c].token)
    case Unlink(c) =>
      var pc := s.creators[c];
      Move(s, c, if pc.Linked? then Unlinked else Raised).(dir := Without(s.dir, Tmp(pc.token)))
    case FsyncDir(c, posix) => Move(s, c, Returned(posix)).(durable := if posix then s.dir else s.durable)
    case Fails(c) => Move(s, c, AfterFailure(s.creators[c]))
    case Kill(c) => Move(s, c, Dead)
    case PowerCut(dir, files) =>
      s.(dir := dir, durable := dir, files := map f | f in files :: files[f].(synced := true),
         creators := AllDead(s.creators), owner := if Final in dir then s.owner else None)
  }

  predicate Initial(s: State) {
    && s.creators == map[] && s.bodies == map[] && s.owner.None? && s.durable == s.dir
    && (forall n :: n in s.dir ==> s.dir[n] in s.files)
    && (forall f :: f in s.files ==> f < s.nextInode && s.files[f].synced)
    && s.prior == if Final in s.dir then Some((s.dir[Final], s.files[s.dir[Final]].data)) else None
  }

  ghost predicate IsRun(s: State, es: seq<Event>)
    decreases |es|, 0
  {
    es == [] || (IsRun(s, es[..|es| - 1]) && Enabled(After(s, es[..|es| - 1]), es[|es| - 1]))
  }

  ghost function After(s: State, es: seq<Event>): (r: State)
    requires IsRun(s, es)
    decreases |es|, 1
  {
    if es == [] then s else Next(After(s, es[..|es| - 1]), es[|es| - 1])
  }

  // ── What every step keeps ─────────────────────────────────────────────────────────────────────

  predicate HasToken(pc: Pc) {
    pc.Writing? || pc.Synced? || pc.Linked? || pc.Refused?
  }

  predicate SameToken(a: Pc, b: Pc) {
    HasToken(a) && HasToken(b) && a.token == b.token
  }

  predicate IsWriter(pc: Pc) {
    pc.Writing? || pc.Synced?
  }

  predicate Allocated(s: State) {
    && (forall n :: n in s.dir ==> s.dir[n] in s.files)
    && (forall n :: n in s.durable ==> s.durable[n] in s.files)
    && (forall f :: f in s.files ==> f < s.nextInode)
    && s.creators.Keys == s.bodies.Keys
  }

  /** A temporary name belongs to one creator until it is unlinked. */
  predicate TokensApart(s: State) {
    && (forall c :: c in s.creators && HasToken(s.creators[c]) ==> Tmp(s.creators[c].token) in s.dir)
    && (forall c, d :: c in s.creators && d in s.creators && SameToken(s.creators[c], s.creators[d]) ==> c == d)
  }

  /** A writer's file is reached through its temporary name alone, and holds its body up to what is left. */
  predicate WriterOk(s: State, pc: Pc, body: bytes)
    requires IsWriter(pc)
  {
    && pc.inode in s.files && Tmp(pc.token) in s.dir && s.dir[Tmp(pc.token)] == pc.inode
    && (forall n :: n in s.dir && s.dir[n] == pc.inode ==> n == Tmp(pc.token))
    && (forall n :: n in s.durable && s.durable[n] == pc.inode ==> n == Tmp(pc.token))
    && if pc.Writing? then s.files[pc.inode].data + pc.left == body
       else s.files[pc.inode] == File(body, true)
  }

  predicate WritersOk(s: State) {
    forall c :: c in s.creators && c in s.bodies && IsWriter(s.creators[c]) ==> WriterOk(s, s.creators[c], s.bodies[c])
  }

  /** The final path holds a whole, synced body: its owner's, or what was there before. */
  predicate FinalOk(s: State)
    requires Allocated(s)
  {
    && (Final in s.dir ==> s.files[s.dir[Final]].synced)
    && (Final in s.durable ==> Final in s.dir && s.durable[Final] == s.dir[Final])
    && (s.owner.Some? ==> Final in s.dir && s.owner.value in s.bodies && s.files[s.dir[Final]].data == s.bodies[s.owner.value])
    && (s.owner.None? && Final in s.dir ==> s.prior == Some((s.dir[Final], s.files[s.dir[Final]].data)))
    && (s.prior.Some? ==> Final in s.durable && s.owner.None?)
  }

  /** Past its link, and not killed, failed or returned without a directory sync. */
  predicate PastLink(pc: Pc) {
    pc.Linked? || pc.Unlinked? || pc == Returned(true)
  }

  /** Who has linked is the owner, and what a creator returned on after a directory sync is durable. */
  predicate WinnersOwn(s: State) {
    forall c :: c in s.creators ==>
      && (PastLink(s.creators[c]) ==> s.owner == Some(c))
      && (s.creators[c] == Returned(true) ==> Final in s.durable)
  }

  predicate Inv(s: State) {
    Allocated(s) && TokensApart(s) && WritersOk(s) && FinalOk(s) && WinnersOwn(s)
  }

  lemma InitialInv(s: State)
    requires Initial(s)
    ensures Inv(s)
  {
  }

  lemma OpenAllocated(s: State, e: Event)
    requires Allocated(s) && Enabled(s, e) && e.Open?
    ensures Allocated(Next(s, e))
  {
  }

  lemma OpenNames(s: State, e: Event)
    requires Allocated(s) && TokensApart(s) && Enabled(s, e) && e.Open?
    ensures Allocated(Next(s, e)) && TokensApart(Next(s, e))
  {
    OpenAllocated(s, e);
  }

  lemma OpenWriters(s: State, e: Event)
    requires Allocated(s) && TokensApart(s) && WritersOk(s) && Enabled(s, e) && e.Open?
    ensures WritersOk(Next(s, e))
  {
  }

  lemma OpenWinners(s: State, e: Event)
    requires WinnersOwn(s) && Enabled(s, e) && e.Open?
    ensures WinnersOwn(Next(s, e))
  {
  }

  lemma OpenFinal(s: State, e: Event)
    requires Allocated(s) && FinalOk(s) && WinnersOwn(s) && Enabled(s, e) && e.Open? && Allocated(Next(s, e))
    ensures FinalOk(Next(s, e)) && WinnersOwn(Next(s, e))
  {
    OpenWinners(s, e);
  }

  lemma WriteNames(s: State, e: Event)
    requires Allocated(s) && TokensApart(s) && Enabled(s, e) && e.Write?
    ensures Allocated(Next(s, e)) && TokensApart(Next(s, e))
  {
  }

  lemma WriteWriters(s: State, e: Event)
    requires Allocated(s) && TokensApart(s) && WritersOk(s) && Enabled(s, e) && e.Write?
    ensures WritersOk(Next(s, e))
  {
  }

  lemma WriteFinal(s: State, e: Event)
    requires Inv(s) && Enabled(s, e) && e.Write? && Allocated(Next(s, e))
    ensures FinalOk(Next(s, e)) && WinnersOwn(Next(s, e))
  {
  }

  lemma FsyncNames(s: State, e: Event)
    requires Allocated(s) && TokensApart(s) && Enabled(s, e) && e.Fsync?
    ensures Allocated(Next(s, e)) && TokensApart(Next(s, e))
  {
  }

  lemma FsyncWriters(s: State, e: Event)
    requires Allocated(s) && TokensApart(s) && WritersOk(s) && Enabled(s, e) && e.Fsync?
    ensures WritersOk(Next(s, e))
  {
  }

  lemma FsyncFinal(s: State, e: Event)
    requires Inv(s) && Enabled(s, e) && e.Fsync? && Allocated(Next(s, e))
    ensures FinalOk(Next(s, e)) && WinnersOwn(Next(s, e))
  {
  }

  lemma LinkNames(s: State, e: Event)
    requires Allocated(s) && TokensApart(s) && Enabled(s, e) && e.Link?
    ensures Allocated(Next(s, e)) && TokensApart(Next(s, e))
  {
  }

  lemma LinkWriters(s: State, e: Event)
    requires Allocated(s) && TokensApart(s) && WritersOk(s) && Enabled(s, e) && e.Link?
    ensures WritersOk(Next(s, e))
  {
  }

  lemma LinkWinners(s: State, e: Event)
    requires Allocated(s) && FinalOk(s) && WinnersOwn(s) && Enabled(s, e) && e.Link?
    ensures WinnersOwn(Next(s, e))
  {
  }

  lemma LinkFinal(s: State, e: Event)
    requires Inv(s) && Enabled(s, e) && e.Link? && Allocated(Next(s, e))
    ensures FinalOk(Next(s, e)) && WinnersOwn(Next(s, e))
  {
    LinkWinners(s, e);
  }

  lemma UnlinkNames(s: State, e: Event)
    requires Allocated(s) && TokensApart(s) && Enabled(s, e) && e.Unlink?
    ensures Allocated(Next(s, e)) && TokensApart(Next(s, e))
  {
  }

  lemma UnlinkWriters(s: State, e: Event)
    requires Allocated(s) && TokensApart(s) && WritersOk(s) && Enabled(s, e) && e.Unlink?
    ensures WritersOk(Next(s, e))
  {
  }

  lemma UnlinkWinners(s: State, e: Event)
    requires Allocated(s) && FinalOk(s) && WinnersOwn(s) && Enabled(s, e) && e.Unlink?
    ensures WinnersOwn(Next(s, e))
  {
  }

  lemma UnlinkFinal(s: State, e: Event)
    requires Inv(s) && Enabled(s, e) && e.Unlink? && Allocated(Next(s, e))
    ensures FinalOk(Next(s, e)) && WinnersOwn(Next(s, e))
  {
    UnlinkWinners(s, e);
  }

  lemma EndNames(s: State, e: Event)
    requires Allocated(s) && TokensApart(s) && Enabled(s, e) && (e.FsyncDir? || e.Fails? || e.Kill?)
    ensures Allocated(Next(s, e)) && TokensApart(Next(s, e))
  {
    MoveNames(s, e.c, Next(s, e).creators[e.c]);
  }

  /** A creator that keeps its token or gives it up disturbs no other. */
  lemma MoveNames(s: State, c: Creator, pc: Pc)
    requires Allocated(s) && TokensApart(s) && c in s.creators
    requires HasToken(pc) ==> SameToken(pc, s.creators[c])
    ensures Allocated(Move(s, c, pc)) && TokensApart(Move(s, c, pc))
  {
  }

  lemma EndWriters(s: State, e: Event)
    requires Allocated(s) && TokensApart(s) && WritersOk(s) && Enabled(s, e) && (e.FsyncDir? || e.Fails? || e.Kill?)
    ensures WritersOk(Next(s, e))
  {
  }

  lemma EndWinners(s: State, e: Event)
    requires Allocated(s) && FinalOk(s) && WinnersOwn(s) && Enabled(s, e) && (e.FsyncDir? || e.Fails? || e.Kill?)
    ensures WinnersOwn(Next(s, e))
  {
  }

  lemma EndFinal(s: State, e: Event)
    requires Inv(s) && Enabled(s, e) && (e.FsyncDir? || e.Fails? || e.Kill?) && Allocated(Next(s, e))
    ensures FinalOk(Next(s, e)) && WinnersOwn(Next(s, e))
  {
    EndWinners(s, e);
  }

  lemma AllDeadHoldNothing(creators: map<Creator, Pc>, c: Creator)
    requires c in creators
    ensures !HasToken(AllDead(creators)[c])
  {
  }

  lemma PowerCutAllocated(s: State, e: Event)
    requires Allocated(s) && Enabled(s, e) && e.PowerCut?
    ensures Allocated(Next(s, e))
  {
    assert Next(s, e).files.Keys == s.files.Keys;
    assert Next(s, e).creators.Keys == s.creators.Keys;
  }

  lemma PowerCutNames(s: State, e: Event)
    requires Allocated(s) && TokensApart(s) && Enabled(s, e) && e.PowerCut?
    ensures Allocated(Next(s, e)) && TokensApart(Next(s, e))
  {
    PowerCutAllocated(s, e);
    forall c | c in s.creators ensures !HasToken(Next(s, e).creators[c]) {
      AllDeadHoldNothing(s.creators, c);
    }
  }

  lemma PowerCutWriters(s: State, e: Event)
    requires Allocated(s) && TokensApart(s) && WritersOk(s) && Enabled(s, e) && e.PowerCut?
    ensures WritersOk(Next(s, e))
  {
  }

  lemma PowerCutWinners(s: State, e: Event)
    requires Allocated(s) && FinalOk(s) && WinnersOwn(s) && Enabled(s, e) && e.PowerCut?
    ensures WinnersOwn(Next(s, e))
  {
  }

  lemma PowerCutFinal(s: State, e: Event)
    requires Inv(s) && Enabled(s, e) && e.PowerCut? && Allocated(Next(s, e))
    ensures FinalOk(Next(s, e)) && WinnersOwn(Next(s, e))
  {
    PowerCutWinners(s, e);
  }

  lemma InvStep(s: State, e: Event)
    requires Inv(s) && Enabled(s, e)
    ensures Inv(Next(s, e))
  {
    match e
    case Open(_, _, _) => OpenNames(s, e); OpenWriters(s, e); OpenFinal(s, e);
    case Write(_, _) => WriteNames(s, e); WriteWriters(s, e); WriteFinal(s, e);
    case Fsync(_) => FsyncNames(s, e); FsyncWriters(s, e); FsyncFinal(s, e);
    case Link(_) => LinkNames(s, e); LinkWriters(s, e); LinkFinal(s, e);
    case Unlink(_) => UnlinkNames(s, e); UnlinkWriters(s, e); UnlinkFinal(s, e);
    case FsyncDir(_, _) => EndNames(s, e); EndWriters(s, e); EndFinal(s, e);
    case Fails(_) => EndNames(s, e); EndWriters(s, e); EndFinal(s, e);
    case Kill(_) => EndNames(s, e); EndWriters(s, e); EndFinal(s, e);
    case PowerCut(_, _) => PowerCutNames(s, e); PowerCutWriters(s, e); PowerCutFinal(s, e);
  }

  lemma {:induction false} InvOverRuns(s: State, es: seq<Event>)
    requires Initial(s) && IsRun(s, es)
    ensures Inv(After(s, es)) && After(s, es).prior == s.prior
    decreases |es|
  {
    if es == [] {
      InitialInv(s);
    } else {
      InvOverRuns(s, es[..|es| - 1]);
      InvStep(After(s, es[..|es| - 1]), es[|es| - 1]);
    }
  }

  // ── The main results ──────────────────────────────────────────────────────────────────────────

  /** The bytes at the final path. */
  predicate Shows(s: State, inode: Inode, data: bytes) {
    Final in s.dir && s.dir[Final] == inode && inode in s.files && s.files[inode].data == data
  }

  /** In every interleaving and after any crash, the final path is what it was before, absent, or one creator's
      complete body. */
  lemma FinalIsWhole(s: State, es: seq<Event>)
    requires Initial(s) && IsRun(s, es)
    ensures Final in s.dir ==> Shows(After(s, es), s.dir[Final], s.files[s.dir[Final]].data)
    ensures Final in After(s, es).dir && Final !in s.dir ==>
            exists c :: c in After(s, es).bodies && Shows(After(s, es), After(s, es).dir[Final], After(s, es).bodies[c])
  {
    InvOverRuns(s, es);
    var n := After(s, es);
    if Final in n.dir && Final !in s.dir {
      assert n.owner.value in n.bodies && Shows(n, n.dir[Final], n.bodies[n.owner.value]);
    }
  }

  lemma ShownStep(s: State, e: Event, inode: Inode, data: bytes)
    requires Inv(s) && Enabled(s, e) && !e.PowerCut? && Shows(s, inode, data)
    ensures Shows(Next(s, e), inode, data) && Next(s, e).owner == s.owner
  {
    if e.Write? || e.Fsync? {
      assert WriterOk(s, s.creators[e.c], s.bodies[e.c]);
    }
  }

  /** While the power stays on, what has appeared at the final path never changes, and no one else publishes. */
  lemma {:induction false} PublishedNeverChanges(s: State, es: seq<Event>, k: nat, inode: Inode, data: bytes)
    requires Initial(s) && IsRun(s, es) && k <= |es| && IsRun(s, es[..k]) && Shows(After(s, es[..k]), inode, data)
    requires forall i :: k <= i < |es| ==> !es[i].PowerCut?
    ensures Shows(After(s, es), inode, data) && After(s, es).owner == After(s, es[..k]).owner
    decreases |es|
  {
    if k == |es| {
      assert es[..k] == es;
    } else {
      var init := es[..|es| - 1];
      assert init[..k] == es[..k];
      PublishedNeverChanges(s, init, k, inode, data);
      InvOverRuns(s, init);
      ShownStep(After(s, init), es[|es| - 1], inode, data);
    }
  }

  /** At any moment at most one creator is past its link, and its body is shown. */
  lemma OnePublisher(s: State, es: seq<Event>, c: Creator, d: Creator)
    requires Initial(s) && IsRun(s, es) && c in After(s, es).creators && d in After(s, es).creators
    requires PastLink(After(s, es).creators[c]) && PastLink(After(s, es).creators[d])
    ensures c == d && Final !in s.dir
    ensures var n := After(s, es); Final in n.dir && c in n.bodies && Shows(n, n.dir[Final], n.bodies[c])
  {
    InvOverRuns(s, es);
  }

  /** A creator's link goes through: it publishes, whatever becomes of it afterwards. */
  predicate Publishes(s: State, e: Event) {
    Enabled(s, e) && e.Link? && Next(s, e).creators[e.c].Linked?
  }

  /** A power cut after which the final path is not there. */
  predicate Drops(e: Event) {
    e.PowerCut? && Final !in e.dir
  }

  lemma {:induction false} RunPrefix(s: State, es: seq<Event>, k: nat)
    requires IsRun(s, es) && k <= |es|
    ensures IsRun(s, es[..k]) && (k < |es| ==> Enabled(After(s, es[..k]), es[k]) && IsRun(s, es[..k + 1]))
    ensures k < |es| ==> After(s, es[..k + 1]) == Next(After(s, es[..k]), es[k])
    decreases |es|
  {
    if k < |es| {
      assert es[..k + 1][..k] == es[..k];
      if k + 1 < |es| {
        var init := es[..|es| - 1];
        assert init[..k] == es[..k] && init[..k + 1] == es[..k + 1];
        RunPrefix(s, init, k);
      } else {
        assert es[..k + 1] == es;
      }
    } else {
      assert es[..k] == es;
    }
  }

  lemma FinalStep(s: State, e: Event)
    requires Enabled(s, e) && Final in s.dir && !Drops(e)
    ensures Final in Next(s, e).dir
  {
  }

  /** A publication finds nothing at the final path and leaves something there. */
  lemma PublicationAppears(s: State, e: Event)
    requires Publishes(s, e)
    ensures Final !in s.dir && Final in Next(s, e).dir
  {
  }

  lemma {:induction false} FinalStays(s: State, es: seq<Event>, i: nat, j: nat)
    requires IsRun(s, es) && i <= j <= |es| && IsRun(s, es[..i]) && Final in After(s, es[..i]).dir
    requires forall k :: i <= k < j ==> !Drops(es[k])
    ensures IsRun(s, es[..j]) && Final in After(s, es[..j]).dir
    decreases j
  {
    if i < j {
      FinalStays(s, es, i, j - 1);
      RunPrefix(s, es, j - 1);
      FinalStep(After(s, es[..j - 1]), es[j - 1]);
    }
  }

  /** Between any two publications there is a power cut that took the first one away, and where the final path
      existed to begin with there is none at all. Creators that were killed or raised after linking count too. */
  lemma PublishedOnce(s: State, es: seq<Event>, i: nat, j: nat)
    requires Initial(s) && IsRun(s, es) && i <= j < |es| && IsRun(s, es[..i]) && IsRun(s, es[..j])
    requires Publishes(After(s, es[..i]), es[i]) && Publishes(After(s, es[..j]), es[j])
    ensures Final !in s.dir && (i < j ==> exists k :: i < k < j && Drops(es[k]))
  {
    PublicationAppears(After(s, es[..i]), es[i]);
    PublicationAppears(After(s, es[..j]), es[j]);
    if Final in s.dir {
      FinalIsWhole(s, es[..j]);
    }
    RunPrefix(s, es, i);
    if i < j && forall k :: i < k < j ==> !Drops(es[k]) {
      FinalStays(s, es, i + 1, j);
    }
  }

  /** While the power stays on, the body of the creator that published is what is shown, even if it is killed. */
  lemma PublisherIsShown(s: State, es: seq<Event>, i: nat)
    requires Initial(s) && IsRun(s, es) && i < |es| && IsRun(s, es[..i]) && Publishes(After(s, es[..i]), es[i])
    requires forall k :: i < k < |es| ==> !es[k].PowerCut?
    ensures var n, before := After(s, es), After(s, es[..i]);
            es[i].c in before.bodies && Final in n.dir && Shows(n, n.dir[Final], before.bodies[es[i].c])
  {
    RunPrefix(s, es, i);
    InvOverRuns(s, es[..i]);
    InvOverRuns(s, es[..i + 1]);
    var m := After(s, es[..i + 1]);
    PublishedNeverChanges(s, es, i + 1, m.dir[Final], m.bodies[es[i].c]);
  }

  lemma ReturnedStep(s: State, e: Event, c: Creator)
    requires Allocated(s) && Enabled(s, e) && c in s.creators && s.creators[c].Returned?
    ensures c in Next(s, e).creators && Next(s, e).creators[c] == s.creators[c]
    ensures c in s.bodies && c in Next(s, e).bodies && Next(s, e).bodies[c] == s.bodies[c]
  {
  }

  lemma {:induction false} ReturnedStaysReturned(s: State, es: seq<Event>, k: nat, c: Creator)
    requires Initial(s) && IsRun(s, es) && k <= |es| && IsRun(s, es[..k])
    requires c in After(s, es[..k]).creators && After(s, es[..k]).creators[c].Returned?
    ensures c in After(s, es).creators && After(s, es).creators[c] == After(s, es[..k]).creators[c]
    ensures c in After(s, es[..k]).bodies && c in After(s, es).bodies
    ensures After(s, es).bodies[c] == After(s, es[..k]).bodies[c]
    decreases |es|
  {
    InvOverRuns(s, es);
    if k == |es| {
      assert es[..k] == es;
    } else {
      var init := es[..|es| - 1];
      assert init[..k] == es[..k];
      ReturnedStaysReturned(s, init, k, c);
      InvOverRuns(s, init);
      ReturnedStep(After(s, init), es[|es| - 1], c);
    }
  }

  /** Once a creator has returned after syncing the directory, its body stays at the final path whatever happens
      after, power cuts included, and no other creator ever does the same. */
  lemma ReturnedIsForever(s: State, es: seq<Event>, k: nat, c: Creator, d: Creator)
    requires Initial(s) && IsRun(s, es) && k <= |es| && IsRun(s, es[..k])
    requires c in After(s, es[..k]).creators && After(s, es[..k]).creators[c] == Returned(true)
    ensures c in After(s, es[..k]).bodies && Final in After(s, es).dir
    ensures Shows(After(s, es), After(s, es).dir[Final], After(s, es[..k]).bodies[c])
    ensures d in After(s, es).creators && After(s, es).creators[d] == Returned(true) ==> d == c
  {
    ReturnedStaysReturned(s, es, k, c);
    InvOverRuns(s, es);
  }

  // ── Temporary files ───────────────────────────────────────────────────────────────────────────

  /** No process is killed, the power stays on, and removing a temporary file does not fail. */
  predicate Tidy(s: State, e: Event)
    requires Enabled(s, e)
  {
    !e.Kill? && !e.PowerCut? && (e.Fails? ==> !s.creators[e.c].Linked? && !s.creators[e.c].Refused?)
  }

  ghost predicate TidyRun(s: State, es: seq<Event>)
    requires IsRun(s, es)
    decreases |es|
  {
    es == [] || (TidyRun(s, es[..|es| - 1]) && Tidy(After(s, es[..|es| - 1]), es[|es| - 1]))
  }

  /** Some creator is still at work on this temporary name. */
  ghost predicate InUse(s: State, token: nat) {
    exists c :: c in s.creators && HasToken(s.creators[c]) && s.creators[c].token == token
  }

  lemma InUseByOther(s: State, e: Event, c: Creator)
    requires Allocated(s) && TokensApart(s) && Enabled(s, e) && Tidy(s, e)
    requires c in s.creators && HasToken(s.creators[c]) && Tmp(s.creators[c].token) in Next(s, e).dir
    ensures c in Next(s, e).creators && SameToken(Next(s, e).creators[c], s.creators[c])
  {
  }

  lemma InUseStep(s: State, e: Event, token: nat)
    requires Allocated(s) && TokensApart(s) && Enabled(s, e) && Tidy(s, e) && Tmp(token) in Next(s, e).dir
    requires Tmp(token) in s.dir ==> InUse(s, token)
    ensures InUse(Next(s, e), token)
  {
    if Tmp(token) in s.dir {
      var c :| c in s.creators && HasToken(s.creators[c]) && s.creators[c].token == token;
      InUseByOther(s, e, c);
    } else {
      TempOpened(s, e, token);
    }
  }

  lemma TempOpened(s: State, e: Event, token: nat)
    requires Enabled(s, e) && Tidy(s, e) && Tmp(token) !in s.dir && Tmp(token) in Next(s, e).dir
    ensures e.Open? && Next(s, e).creators[e.c].Writing? && Next(s, e).creators[e.c].token == token
  {
  }

  /** Every temporary file there was not before belongs to a creator still at work on it: whoever returns or raises
      has removed its own. */
  lemma {:induction false} TempsCleaned(s: State, es: seq<Event>, token: nat)
    requires Initial(s) && IsRun(s, es) && TidyRun(s, es)
    requires Tmp(token) !in s.dir && Tmp(token) in After(s, es).dir
    ensures InUse(After(s, es), token)
    decreases |es|
  {
    var front, e := es[..|es| - 1], es[|es| - 1];
    InvOverRuns(s, front);
    if Tmp(token) in After(s, front).dir {
      TempsCleaned(s, front, token);
    }
    InUseStep(After(s, front), e, token);
  }

  // ── Without a directory sync ──────────────────────────────────────────────────────────────────

  /** Whether the system can sync a directory is one answer for the whole run. */
  predicate AllSync(es: seq<Event>, posix: bool) {
    forall i :: 0 <= i < |es| && es[i].FsyncDir? ==> es[i].posix == posix
  }

  lemma ReturnsStep(s: State, e: Event, posix: bool, c: Creator)
    requires Allocated(s) && FinalOk(s) && WinnersOwn(s) && Enabled(s, e) && (e.FsyncDir? ==> e.posix == posix)
    requires c in s.creators && s.creators[c].Returned? ==> s.creators[c].synced == posix && s.prior.None?
    ensures c in Next(s, e).creators && Next(s, e).creators[c].Returned? ==>
            Next(s, e).creators[c].synced == posix && s.prior.None?
  {
  }

  lemma {:induction false} ReturnsAsSynced(s: State, es: seq<Event>, posix: bool, c: Creator)
    requires Initial(s) && IsRun(s, es) && AllSync(es, posix)
    ensures c in After(s, es).creators && After(s, es).creators[c].Returned? ==>
            After(s, es).creators[c].synced == posix && Final !in s.dir
    decreases |es|
  {
    if es != [] {
      var init := es[..|es| - 1];
      InvOverRuns(s, init);
      ReturnsAsSynced(s, init, posix, c);
      ReturnsStep(After(s, init), es[|es| - 1], posix, c);
    }
  }

  lemma {:induction false} FreshNat(tokens: set<nat>) returns (t: nat)
    ensures forall x :: x in tokens ==> x < t
    decreases |tokens|
  {
    t := 0;
    if tokens != {} {
      var x :| x in tokens;
      var u := FreshNat(tokens - {x});
      t := if x < u then u else x + 1;
      assert forall y :: y in tokens ==> y == x || y in tokens - {x};
    }
  }

  lemma FreshToken(dir: map<Name, Inode>) returns (t: nat)
    ensures Tmp(t) !in dir
  {
    var tokens := set n | n in dir && n.Tmp? :: n.token;
    t := FreshNat(tokens);
    assert forall n :: n in dir && n.Tmp? ==> n.token in tokens;
  }

  lemma RunSnoc(s: State, es: seq<Event>, e: Event)
    requires IsRun(s, es) && Enabled(After(s, es), e)
    ensures IsRun(s, es + [e]) && After(s, es + [e]) == Next(After(s, es), e)
  {
    assert (es + [e])[..|es|] == es;
  }

  /** A lone creator, up to its synced temporary file. */
  lemma LoneWriter(s: State, body: bytes) returns (es: seq<Event>, token: nat)
    requires Initial(s)
    ensures IsRun(s, es) && AllSync(es, false) && Tmp(token) !in s.dir
    ensures var n := After(s, es);
            && n.dir == s.dir[Tmp(token) := s.nextInode] && n.durable == s.dir
            && n.creators == map[0 := Synced(token, s.nextInode)] && n.bodies == map[0 := body]
  {
    token := FreshToken(s.dir);
    es := [];
    RunSnoc(s, es, Open(0, token, body));
    es := es + [Open(0, token, body)];
    RunSnoc(s, es, Write(0, |body|));
    es := es + [Write(0, |body|)];
    RunSnoc(s, es, Fsync(0));
    es := es + [Fsync(0)];
  }

  /** It links, cleans up and returns without a directory sync. */
  lemma LoneReturn(s: State, body: bytes) returns (es: seq<Event>)
    requires Initial(s) && Final !in s.dir
    ensures IsRun(s, es) && AllSync(es, false)
    ensures var n := After(s, es);
            n.durable == s.dir && n.creators == map[0 := Returned(false)] && n.bodies == map[0 := body]
  {
    var token;
    es, token := LoneWriter(s, body);
    RunSnoc(s, es, Link(0));
    es := es + [Link(0)];
    RunSnoc(s, es, Unlink(0));
    es := es + [Unlink(0)];
    RunSnoc(s, es, FsyncDir(0, false));
    es := es + [FsyncDir(0, false)];
  }

  /** A creator that has returned by event `k` still has its body at the final path at the end. */
  ghost predicate ReturnKept(s: State, es: seq<Event>, k: nat, c: Creator) {
    IsRun(s, es) && k <= |es| && IsRun(s, es[..k]) && c in After(s, es[..k]).creators && After(s, es[..k]).creators[c].Returned? ==>
      c in After(s, es[..k]).bodies && Final in After(s, es).dir && Shows(After(s, es), After(s, es).dir[Final], After(s, es[..k]).bodies[c])
  }

  /** The power goes after the return: the name is lost. */
  lemma UnsyncedReturnLost(s: State, body: bytes) returns (es: seq<Event>, k: nat)
    requires Initial(s) && Final !in s.dir
    ensures AllSync(es, false) && !ReturnKept(s, es, k, 0)
  {
    var returned := LoneReturn(s, body);
    var n := After(s, returned);
    var cut := PowerCut(s.dir, n.files);
    RunSnoc(s, returned, cut);
    es, k := returned + [cut], |returned|;
    assert es[..k] == returned;
    assert Final !in After(s, es).dir;
  }

  /** The exact condition: a returned creator's body always stays if and only if directories are synced, or the final
      path was taken to begin with, so that no creator returns. */
  lemma ReturnKeptIffSynced(s: State, posix: bool)
    requires Initial(s)
    ensures (forall es: seq<Event>, k: nat, c: Creator :: AllSync(es, posix) ==> ReturnKept(s, es, k, c)) <==> posix || Final in s.dir
  {
    if posix || Final in s.dir {
      forall es: seq<Event>, k: nat, c: Creator | AllSync(es, posix) ensures ReturnKept(s, es, k, c) {
        if IsRun(s, es) && k <= |es| && IsRun(s, es[..k]) && c in After(s, es[..k]).creators && After(s, es[..k]).creators[c].Returned? {
          ReturnsAsSynced(s, es[..k], posix, c);
          ReturnedIsForever(s, es, k, c, c);
        }
      }
    } else {
      var es, k := UnsyncedReturnLost(s, []);
    }
  }

  // ── The write loop ────────────────────────────────────────────────────────────────────────────

  /** Writes the body in whatever portions the system takes; `takes` lists them until the body is out or the process
      is gone. What is in the file and what is left always make up the body. */
  method WriteBody(body: bytes, takes: seq<nat>) returns (file: bytes, view: bytes)
    ensures file + view == body
    ensures view != [] ==> |body| > Sum(takes)
  {
    file, view := [], body;
    var i := 0;
    assert takes[..0] == [];
    while view != [] && i < |takes|
      invariant i <= |takes| && file + view == body
      invariant view != [] ==> |file| == Sum(takes[..i])
      decreases |takes| - i
    {
      var n := if takes[i] < |view| then takes[i] else |view|;
      assert takes[..i + 1] == takes[..i] + [takes[i]];
      SumSnoc(takes[..i], takes[i]);
      file, view := file + view[..n], view[n..];
      i := i + 1;
    }
    assert i == |takes| ==> takes[..i] == takes;
  }

  function Sum(ns: seq<nat>): (r: nat) {
    if ns == [] then 0 else ns[0] + Sum(ns[1..])
  }

  lemma {:induction false} SumSnoc(ns: seq<nat>, n: nat)
    ensures Sum(ns + [n]) == Sum(ns) + n
  {
    if ns == [] {
      assert [] + [n] == [n] && [n][1..] == [];
    } else {
      assert (ns + [n])[1..] == ns[1..] + [n];
      SumSnoc(ns[1..], n);
    }
  }
}
