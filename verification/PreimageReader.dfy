/** The preimages read back: a reader that knows only frames, counts and the names of the domains, and
    from the bytes of every preimage gives back each field in its place. */
module PreimageReader {
  import opened Bytes
  import opened Preimages
  import opened Sorting

  /** A value read from the front of the bytes, and what follows it. */
  datatype Parsed<+T> = Unreadable | Parsed(value: T, rest: bytes) {
    predicate IsFailure() {
      Unreadable?
    }

    function PropagateFailure<U>(): (r: Parsed<U>)
      requires IsFailure()
    {
      Unreadable
    }

    function Extract(): (r: (T, bytes))
      requires !IsFailure()
    {
      (value, rest)
    }
  }

  // ── Frames ────────────────────────────────────────────────────────────────────────────────────

  function Take(n: nat, bs: bytes): (r: Parsed<bytes>) {
    if n <= |bs| then Parsed(bs[..n], bs[n..]) else Unreadable
  }

  /** A four-byte little-endian length, and that many bytes. */
  function ReadFrame(bs: bytes): (r: Parsed<bytes>) {
    var (length, rest) :- Take(4, bs);
    Take(FromLe(length), rest)
  }

  /** An eight-byte big-endian length, and that many bytes. */
  function ReadBigFrame(bs: bytes): (r: Parsed<bytes>) {
    var (length, rest) :- Take(8, bs);
    Take(FromBe(length), rest)
  }

  /** `n` fields of one kind. */
  function ReadMany<T>(read: bytes -> Parsed<T>, n: nat, bs: bytes): (r: Parsed<seq<T>>)
    ensures r.Parsed? ==> |r.value| == n
  {
    if n == 0 then Parsed([], bs)
    else
      var (x, rest) :- read(bs);
      var (xs, end) :- ReadMany(read, n - 1, rest);
      Parsed([x] + xs, end)
  }

  function ReadOpt(bs: bytes): (r: Parsed<Option<bytes>>) {
    var (flag, rest) :- Take(1, bs);
    if flag == [0] then Parsed(None, rest)
    else if flag == [1] then
      var (x, end) :- ReadFrame(rest);
      Parsed(Some(x), end)
    else Unreadable
  }

  function ReadBigOpt(bs: bytes): (r: Parsed<Option<bytes>>) {
    var (flag, rest) :- Take(1, bs);
    if flag == [0] then Parsed(None, rest)
    else if flag == [1] then
      var (x, end) :- ReadBigFrame(rest);
      Parsed(Some(x), end)
    else Unreadable
  }

  function ReadConfidence(bs: bytes): (r: Parsed<Option<nat>>) {
    var (flag, rest) :- Take(1, bs);
    if flag == [0] then Parsed(None, rest)
    else if flag == [1] then
      var (bits, end) :- Take(8, rest);
      Parsed(Some(FromBe(bits)), end)
    else Unreadable
  }

  // ── The kinds ─────────────────────────────────────────────────────────────────────────────────

  function ReadCallV2(bs: bytes): (r: Parsed<Preimage>) {
    var (f, rest) :- ReadMany(ReadFrame, 4, bs);
    Parsed(CallV2(f[0], f[1], f[2], f[3]), rest)
  }

  function ReadRequest(bs: bytes): (r: Parsed<Preimage>) {
    var (f, rest) :- ReadMany(ReadFrame, 4, bs);
    Parsed(Request(f[0], f[1], f[2], f[3]), rest)
  }

  function ReadEnrollPop(bs: bytes): (r: Parsed<Preimage>) {
    var (f, rest) :- ReadMany(ReadFrame, 5, bs);
    Parsed(EnrollPop(f[0], f[1], f[2], FromLe(f[3]), f[4]), rest)
  }

  function ReadPair(bs: bytes): (r: Parsed<Pair>) {
    var (f, rest) :- ReadMany(ReadFrame, 2, bs);
    Parsed((f[0], f[1]), rest)
  }

  function ReadCallV3(bs: bytes): (r: Parsed<Preimage>) {
    var (f, b1) :- ReadMany(ReadFrame, 6, bs);
    var (subjects, b2) :- ReadMany(ReadFrame, FromLe(f[5]), b1);
    var (g, b3) :- ReadMany(ReadFrame, 3, b2);
    var (features, rest) :- ReadMany(ReadPair, FromLe(g[2]), b3);
    Parsed(CallV3(CallFields(f[0], f[1], f[2], f[3], f[4], subjects, g[0], g[1], features)), rest)
  }

  function ReadParticipants(bs: bytes): (r: Parsed<Preimage>) {
    var (n, b1) :- Take(4, bs);
    var (ids, rest) :- ReadMany(ReadFrame, FromLe(n), b1);
    Parsed(Participants(ids), rest)
  }

  function ReadRecord(bs: bytes): (r: Parsed<Preimage>) {
    var (f, b1) :- ReadMany(ReadFrame, 6, bs);
    var (o, b2) :- ReadMany(ReadOpt, 3, b1);
    var (d, b3) :- ReadMany(ReadFrame, 2, b2);
    var (rules, b4) :- ReadOpt(b3);
    var (g, rest) :- ReadMany(ReadFrame, 5, b4);
    Parsed(Record(RecordFields(f[0], f[1], f[2], f[3], FromLe(f[4]), f[5], o[0], o[1], o[2],
                               Some(d[0]), Some(d[1]), rules, Some(g[0]), Some(g[1]), Some(g[2]), Some(g[3]), FromLe(g[4]))), rest)
  }

  /** The second version names the tenant too. */
  function ReadChainHead(tenant: bool, bs: bytes): (r: Parsed<Preimage>) {
    var (f, rest) :- ReadMany(ReadFrame, if tenant then 6 else 5, bs);
    Parsed(ChainHead(FromLe(f[0]), f[1], FromLe(f[2]), FromLe(f[3]), f[4], if tenant then Some(f[5]) else None), rest)
  }

  function ReadBinding(bs: bytes): (r: Parsed<Binding>) {
    var (f, b1) :- ReadMany(ReadFrame, 3, bs);
    var (lineage, b2) :- ReadOpt(b1);
    var (version, b3) :- ReadFrame(b2);
    var (n, b4) :- Take(4, b3);
    var (derived, b5) :- ReadMany(ReadFrame, FromLe(n), b4);
    var (o, rest) :- ReadMany(ReadOpt, 5, b5);
    Parsed(Binding(f[0], f[1], f[2], lineage, FromLe(version), derived, o[0], o[1], o[2], o[3], o[4]), rest)
  }

  function ReadContext(bs: bytes): (r: Parsed<Preimage>) {
    var (n, b1) :- Take(4, bs);
    var (bindings, rest) :- ReadMany(ReadBinding, FromLe(n), b1);
    Parsed(Context(bindings), rest)
  }

  function ReadEntry(bs: bytes): (r: Parsed<Entry>) {
    var (f, b1) :- ReadMany(ReadBigFrame, 5, bs);
    var (confidence, b2) :- ReadConfidence(b1);
    var (rationale, rest) :- ReadBigOpt(b2);
    Parsed(Entry(f[0], f[1], f[2], f[3], f[4], confidence, rationale), rest)
  }

  function ReadExplanation(bs: bytes): (r: Parsed<Preimage>) {
    var (n, b1) :- Take(8, bs);
    var (entries, rest) :- ReadMany(ReadEntry, FromBe(n), b1);
    Parsed(Explanation(entries), rest)
  }

  function ReadCommitment(bs: bytes): (r: Parsed<Preimage>) {
    var (f, b1) :- ReadMany(ReadBigFrame, 3, bs);
    var (supersedes, b2) :- ReadBigOpt(b1);
    var (g, rest) :- ReadMany(ReadBigFrame, 4, b2);
    Parsed(Commitment(CommitmentFields(f[0], f[1], f[2], supersedes, g[0], g[1], g[2], g[3])), rest)
  }

  // ── The domains ───────────────────────────────────────────────────────────────────────────────

  /** The domain a tag names; 11 when it names none. */
  function DomainOf(tag: bytes): (d: nat) {
    if tag == Ascii("seam-authorize-call-v2") then 0
    else if tag == Ascii("seam-authorize-call-v3") then 1
    else if tag == Ascii("seam-request-call-v1") then 2
    else if tag == Ascii("seam-enroll-pop-v1") then 3
    else if tag == Ascii("seam.audit.participants.v4") then 4
    else if tag == Ascii("seam.audit.record-digest.v4") then 5
    else if tag == Ascii("seam.audit.chain-head-attestation.v1") then 6
    else if tag == Ascii("seam.audit.chain-head-attestation.v2") then 7
    else if tag == Ascii("seam.audit.context-provenance.v4") then 8
    else if tag == Ascii("seam-explanation-digest:v1") then 9
    else if tag == Ascii("seam-commitment-digest:v3") then 10
    else 11
  }

  function ReadFields(domain: nat, bs: bytes): (r: Parsed<Preimage>) {
    match domain
    case 0 => ReadCallV2(bs)
    case 1 => ReadCallV3(bs)
    case 2 => ReadRequest(bs)
    case 3 => ReadEnrollPop(bs)
    case 4 => ReadParticipants(bs)
    case 5 => ReadRecord(bs)
    case 6 => ReadChainHead(false, bs)
    case 7 => ReadChainHead(true, bs)
    case 8 => ReadContext(bs)
    case 9 => ReadExplanation(bs)
    case 10 => ReadCommitment(bs)
    case _ => Unreadable
  }

  /** The tag of a little-endian domain in a little-endian frame, or of a big-endian one in a big-endian frame. */
  function ReadDomain(bs: bytes): (r: Parsed<nat>) {
    var little, big := ReadFrame(bs), ReadBigFrame(bs);
    if little.Parsed? && DomainOf(little.value) < 9 then Parsed(DomainOf(little.value), little.rest)
    else if big.Parsed? && 9 <= DomainOf(big.value) < 11 then Parsed(DomainOf(big.value), big.rest)
    else Unreadable
  }

  /** A tag, then the fields of its kind and nothing more. */
  function ReadPreimage(bs: bytes): (r: Option<Preimage>) {
    var domain := ReadDomain(bs);
    if domain.Unreadable? then None
    else
      var p := ReadFields(domain.value, domain.rest);
      if p.Parsed? && p.rest == [] then Some(p.value) else None
  }

  // ── Frames read back ──────────────────────────────────────────────────────────────────────────

  lemma TakeSame(x: bytes, rest: bytes)
    ensures Take(|x|, x + rest) == Parsed(x, rest)
  {
    assert (x + rest)[..|x|] == x && (x + rest)[|x|..] == rest;
  }

  lemma FrameRead(x: bytes, rest: bytes)
    requires Short(x)
    ensures ReadFrame(Frame(x) + rest) == Parsed(x, rest)
  {
    Assoc(Le(|x|, 4), x, rest);
    TakeSame(Le(|x|, 4), x + rest);
    Pow256Widths();
    LeRoundTrip(|x|, 4);
    TakeSame(x, rest);
  }

  lemma BigFrameRead(x: bytes, rest: bytes)
    requires Long(x)
    ensures ReadBigFrame(BigFrame(x) + rest) == Parsed(x, rest)
  {
    Assoc(Be(|x|, 8), x, rest);
    TakeSame(Be(|x|, 8), x + rest);
    Pow256Widths();
    BeRoundTrip(|x|, 8);
    TakeSame(x, rest);
  }

  lemma OptRead(o: Option<bytes>, rest: bytes)
    requires ShortOpt(o)
    ensures ReadOpt(Opt(o) + rest) == Parsed(o, rest)
  {
    if o.Some? {
      Assoc([1], Frame(o.value), rest);
      TakeSame([1], Frame(o.value) + rest);
      FrameRead(o.value, rest);
    } else {
      TakeSame([0], rest);
    }
  }

  lemma BigOptRead(o: Option<bytes>, rest: bytes)
    requires o.Some? ==> Long(o.value)
    ensures ReadBigOpt(BigOpt(o) + rest) == Parsed(o, rest)
  {
    if o.Some? {
      Assoc([1], BigFrame(o.value), rest);
      TakeSame([1], BigFrame(o.value) + rest);
      BigFrameRead(o.value, rest);
    } else {
      TakeSame([0], rest);
    }
  }

  lemma ConfidenceRead(bits: Option<nat>, rest: bytes)
    requires bits.Some? ==> bits.value < U64
    ensures ReadConfidence(ConfidenceBytes(bits) + rest) == Parsed(bits, rest)
  {
    if bits.Some? {
      Assoc([1], Be(bits.value, 8), rest);
      TakeSame([1], Be(bits.value, 8) + rest);
      TakeSame(Be(bits.value, 8), rest);
      Pow256Widths();
      BeRoundTrip(bits.value, 8);
    } else {
      TakeSame([0], rest);
    }
  }

  function Concat(parts: seq<bytes>): (r: bytes) {
    if parts == [] then [] else parts[0] + Concat(parts[1..])
  }

  function Each<T>(write: T -> bytes, xs: seq<T>): (r: seq<bytes>)
    ensures |r| == |xs| && forall i :: 0 <= i < |xs| ==> r[i] == write(xs[i])
  {
    seq(|xs|, i requires 0 <= i < |xs| => write(xs[i]))
  }

  lemma ConcatEach<T>(write: T -> bytes, xs: seq<T>)
    requires xs != []
    ensures Concat(Each(write, xs)) == write(xs[0]) + Concat(Each(write, xs[1..]))
  {
    assert Each(write, xs)[1..] == Each(write, xs[1..]);
  }

  /** Parts each read as the value at the same place, whatever follows. */
  ghost predicate AllRead<T(!new)>(read: bytes -> Parsed<T>, parts: seq<bytes>, xs: seq<T>) {
    |parts| == |xs| && forall i, r :: 0 <= i < |xs| ==> read(parts[i] + r) == Parsed(xs[i], r)
  }

  lemma {:induction false} ManyRead<T(!new)>(read: bytes -> Parsed<T>, parts: seq<bytes>, xs: seq<T>, rest: bytes)
    requires AllRead(read, parts, xs)
    ensures ReadMany(read, |xs|, Concat(parts) + rest) == Parsed(xs, rest)
  {
    if xs == [] {
      assert [] + rest == rest;
    } else {
      Assoc(parts[0], Concat(parts[1..]), rest);
      ManyRead(read, parts[1..], xs[1..], rest);
      assert xs == [xs[0]] + xs[1..];
    }
  }

  lemma {:induction false} FramesParts(xs: seq<bytes>)
    ensures Frames(xs) == Concat(Each(Frame, xs))
  {
    if xs != [] {
      FramesParts(xs[1..]);
      ConcatEach(Frame, xs);
    }
  }

  lemma FramesRead(xs: seq<bytes>, rest: bytes)
    requires AllShort(xs)
    ensures ReadMany(ReadFrame, |xs|, Frames(xs) + rest) == Parsed(xs, rest)
  {
    var parts := Each(Frame, xs);
    forall i, r | 0 <= i < |xs| ensures ReadFrame(parts[i] + r) == Parsed(xs[i], r) {
      FrameRead(xs[i], r);
    }
    FramesParts(xs);
    ManyRead(ReadFrame, parts, xs, rest);
  }

  lemma {:induction false} BigFramesParts(xs: seq<bytes>)
    ensures BigFrames(xs) == Concat(Each(BigFrame, xs))
  {
    if xs != [] {
      BigFramesParts(xs[1..]);
      ConcatEach(BigFrame, xs);
    }
  }

  lemma BigFramesRead(xs: seq<bytes>, rest: bytes)
    requires AllLong(xs)
    ensures ReadMany(ReadBigFrame, |xs|, BigFrames(xs) + rest) == Parsed(xs, rest)
  {
    var parts := Each(BigFrame, xs);
    forall i, r | 0 <= i < |xs| ensures ReadBigFrame(parts[i] + r) == Parsed(xs[i], r) {
      BigFrameRead(xs[i], r);
    }
    BigFramesParts(xs);
    ManyRead(ReadBigFrame, parts, xs, rest);
  }

  lemma {:induction false} OptsParts(os: seq<Option<bytes>>)
    ensures Opts(os) == Concat(Each(Opt, os))
  {
    if os != [] {
      OptsParts(os[1..]);
      ConcatEach(Opt, os);
    }
  }

  lemma OptsRead(os: seq<Option<bytes>>, rest: bytes)
    requires AllShortOpts(os)
    ensures ReadMany(ReadOpt, |os|, Opts(os) + rest) == Parsed(os, rest)
  {
    var parts := Each(Opt, os);
    forall i, r | 0 <= i < |os| ensures ReadOpt(parts[i] + r) == Parsed(os[i], r) {
      OptRead(os[i], r);
    }
    OptsParts(os);
    ManyRead(ReadOpt, parts, os, rest);
  }

  lemma LittleNumber(n: nat, width: nat)
    requires (width == 4 && n < U32) || (width == 8 && n < U64)
    ensures FromLe(Le(n, width)) == n && Short(Le(n, width))
  {
    Pow256Widths();
    LeRoundTrip(n, width);
  }

  lemma CountRead(n: nat, rest: bytes)
    requires n < U32
    ensures Take(4, Le(n, 4) + rest) == Parsed(Le(n, 4), rest) && FromLe(Le(n, 4)) == n
  {
    LittleNumber(n, 4);
    TakeSame(Le(n, 4), rest);
  }

  lemma BigCountRead(n: nat, rest: bytes)
    requires n < U64
    ensures Take(8, Be(n, 8) + rest) == Parsed(Be(n, 8), rest) && FromBe(Be(n, 8)) == n
  {
    Pow256Widths();
    BeRoundTrip(n, 8);
    TakeSame(Be(n, 8), rest);
  }

  // ── Kinds read back ───────────────────────────────────────────────────────────────────────────

  lemma CallV2Read(p: Preimage)
    requires p.CallV2? && Accepted(p)
    ensures ReadCallV2(Body(p)) == Parsed(p, [])
  {
    var xs := [p.ticket, p.inputDigest, p.toolName, p.agentId];
    FramesRead(xs, []);
    assert Frames(xs) + [] == Body(p);
  }

  lemma RequestRead(p: Preimage)
    requires p.Request? && Accepted(p)
    ensures ReadRequest(Body(p)) == Parsed(p, [])
  {
    var xs := [p.ticket, p.rpcFullName, p.resourceId, p.bodyDigest];
    FramesRead(xs, []);
    assert Frames(xs) + [] == Body(p);
  }

  lemma EnrollPopRead(p: Preimage)
    requires p.EnrollPop? && Accepted(p)
    ensures ReadEnrollPop(Body(p)) == Parsed(p, [])
  {
    var xs := [p.subjectAid, p.tenant, p.namespace, Le(p.issuedAtMs, 8), p.nonce];
    FramesRead(xs, []);
    LittleNumber(p.issuedAtMs, 8);
    assert Frames(xs) + [] == Body(p);
  }

  lemma ParticipantsRead(p: Preimage)
    requires p.Participants? && Accepted(p)
    ensures ReadParticipants(Body(p)) == Parsed(p, [])
  {
    CountRead(|p.ids|, Frames(p.ids));
    FramesRead(p.ids, []);
    assert Frames(p.ids) + [] == Frames(p.ids);
  }

  lemma ChainHeadShort(p: Preimage, ys: seq<bytes>)
    requires p.ChainHead? && Accepted(p)
    requires ys == [Le(p.attestedLen, 8), p.head, Le(p.attestedAt, 8), Le(p.digestSchema, 4), p.issuerAid]
                   + if p.signedTenant == None then [] else [p.signedTenant.value]
    ensures AllShort(ys)
  {
    assert Short([p.head, p.issuerAid][0]) && Short([p.head, p.issuerAid][1]);
  }

  lemma ChainHeadRead(p: Preimage)
    requires p.ChainHead? && Accepted(p)
    ensures ReadChainHead(p.signedTenant.Some?, Body(p)) == Parsed(p, [])
  {
    var xs := [Le(p.attestedLen, 8), p.head, Le(p.attestedAt, 8), Le(p.digestSchema, 4), p.issuerAid];
    var ys := xs + if p.signedTenant == None then [] else [p.signedTenant.value];
    LittleNumber(p.attestedLen, 8);
    LittleNumber(p.attestedAt, 8);
    LittleNumber(p.digestSchema, 4);
    ChainHeadShort(p, ys);
    FramesRead(ys, []);
    assert Frames(ys) + [] == Body(p);
  }

  lemma CommitmentRead(p: Preimage)
    requires p.Commitment? && Accepted(p)
    ensures ReadCommitment(Body(p)) == Parsed(p, [])
  {
    var c := p.commitment;
    var xs, ys := [c.id, c.action, c.authority], [c.authMethod, c.trustBasis, c.committer, c.explanationDigest];
    var all := xs + ys;
    assert all == [c.id, c.action, c.authority, c.authMethod, c.trustBasis, c.committer, c.explanationDigest];
    assert AllLong(xs) by { assert forall i :: 0 <= i < 3 ==> xs[i] == all[i]; }
    assert AllLong(ys) by { assert forall i :: 0 <= i < 4 ==> ys[i] == all[i + 3]; }
    BigFramesRead(xs, BigOpt(c.supersedes) + BigFrames(ys));
    BigOptRead(c.supersedes, BigFrames(ys));
    BigFramesRead(ys, []);
    assert BigFrames(ys) + [] == BigFrames(ys);
  }

  lemma BindingRead(b: Binding, rest: bytes)
    requires BindingAccepted(b)
    ensures ReadBinding(BindingBytes(b) + rest) == Parsed(b, rest)
  {
    var f, o := [b.ctxRef, b.fidelity, b.classification], [b.contentHash, b.receiptHash, b.keyStatus, b.resolvedStatus, b.receiptKeyStatus];
    var b5 := Opts(o) + rest;
    var b4 := Frames(b.derivedFrom) + b5;
    var b3 := Le(|b.derivedFrom|, 4) + b4;
    var b2 := Frame(Le(b.version, 4)) + b3;
    var b1 := Opt(b.lineage) + b2;
    BindingLayout(b, rest);
    assert ShortOpt([b.lineage][0]);
    FramesRead(f, b1);
    OptRead(b.lineage, b2);
    LittleNumber(b.version, 4);
    FrameRead(Le(b.version, 4), b3);
    CountRead(|b.derivedFrom|, b4);
    FramesRead(b.derivedFrom, b5);
    OptsRead(o, rest);
  }

  lemma BindingLayout(b: Binding, rest: bytes)
    ensures BindingBytes(b) + rest ==
            Frames([b.ctxRef, b.fidelity, b.classification])
            + (Opt(b.lineage)
            + (Frame(Le(b.version, 4))
            + (Le(|b.derivedFrom|, 4)
            + (Frames(b.derivedFrom)
            + (Opts([b.contentHash, b.receiptHash, b.keyStatus, b.resolvedStatus, b.receiptKeyStatus]) + rest)))))
  {
    var f := Frames([b.ctxRef, b.fidelity, b.classification]);
    var o := Opts([b.contentHash, b.receiptHash, b.keyStatus, b.resolvedStatus, b.receiptKeyStatus]);
    assert Opts([b.lineage]) == Opt(b.lineage) by {
      assert [b.lineage][1..] == [];
      assert Opt(b.lineage) + [] == Opt(b.lineage);
    }
    assert Frames([Le(b.version, 4)]) == Frame(Le(b.version, 4)) by {
      assert [Le(b.version, 4)][1..] == [];
      assert Frame(Le(b.version, 4)) + [] == Frame(Le(b.version, 4));
    }
    SixParts(f, Opt(b.lineage), Frame(Le(b.version, 4)), Le(|b.derivedFrom|, 4), Frames(b.derivedFrom), o, rest);
  }

  lemma SixParts(a: bytes, b: bytes, c: bytes, d: bytes, e: bytes, f: bytes, rest: bytes)
    ensures ((a + (b + c)) + (d + (e + f))) + rest == a + (b + (c + (d + (e + (f + rest)))))
  {
    Assoc(a + (b + c), d + (e + f), rest);
    Regroup(d, e, f, rest);
    Assoc(d, e + f, rest);
    Assoc(e, f, rest);
    Assoc(a, b + c, d + (e + (f + rest)));
    Assoc(b, c, d + (e + (f + rest)));
  }

  lemma {:induction false} BindingsBytesParts(bs: seq<Binding>)
    ensures BindingsBytes(bs) == Concat(Each(BindingBytes, bs))
  {
    if bs != [] {
      BindingsBytesParts(bs[1..]);
      ConcatEach(BindingBytes, bs);
    }
  }

  lemma BindingsRead(bs: seq<Binding>, rest: bytes)
    requires forall i :: 0 <= i < |bs| ==> BindingAccepted(bs[i])
    ensures ReadMany(ReadBinding, |bs|, BindingsBytes(bs) + rest) == Parsed(bs, rest)
  {
    var parts := Each(BindingBytes, bs);
    forall i, r | 0 <= i < |bs| ensures ReadBinding(parts[i] + r) == Parsed(bs[i], r) {
      BindingRead(bs[i], r);
    }
    BindingsBytesParts(bs);
    ManyRead(ReadBinding, parts, bs, rest);
  }

  lemma ContextRead(p: Preimage)
    requires p.Context? && Accepted(p)
    ensures ReadContext(Body(p)) == Parsed(p, [])
  {
    CountRead(|p.bindings|, BindingsBytes(p.bindings));
    BindingsRead(p.bindings, []);
    assert BindingsBytes(p.bindings) + [] == BindingsBytes(p.bindings);
  }

  lemma EntryRead(e: Entry, rest: bytes)
    requires EntryAccepted(e)
    ensures ReadEntry(EntryBytes(e) + rest) == Parsed(e, rest)
  {
    var f := [e.kind, e.participant, e.proposalId, e.value, e.reason];
    Assoc(BigFrames(f), ConfidenceBytes(e.confidence) + BigOpt(e.rationaleRef), rest);
    Assoc(ConfidenceBytes(e.confidence), BigOpt(e.rationaleRef), rest);
    BigFramesRead(f, ConfidenceBytes(e.confidence) + (BigOpt(e.rationaleRef) + rest));
    ConfidenceRead(e.confidence, BigOpt(e.rationaleRef) + rest);
    BigOptRead(e.rationaleRef, rest);
  }

  lemma {:induction false} EntriesBytesParts(es: seq<Entry>)
    ensures EntriesBytes(es) == Concat(Each(EntryBytes, es))
  {
    if es != [] {
      EntriesBytesParts(es[1..]);
      ConcatEach(EntryBytes, es);
    }
  }

  lemma EntriesRead(es: seq<Entry>, rest: bytes)
    requires forall i :: 0 <= i < |es| ==> EntryAccepted(es[i])
    ensures ReadMany(ReadEntry, |es|, EntriesBytes(es) + rest) == Parsed(es, rest)
  {
    var parts := Each(EntryBytes, es);
    forall i, r | 0 <= i < |es| ensures ReadEntry(parts[i] + r) == Parsed(es[i], r) {
      EntryRead(es[i], r);
    }
    EntriesBytesParts(es);
    ManyRead(ReadEntry, parts, es, rest);
  }

  lemma ExplanationRead(p: Preimage)
    requires p.Explanation? && Accepted(p)
    ensures ReadExplanation(Body(p)) == Parsed(p, [])
  {
    BigCountRead(|p.entries|, EntriesBytes(p.entries));
    EntriesRead(p.entries, []);
    assert EntriesBytes(p.entries) + [] == EntriesBytes(p.entries);
  }

  lemma RecordLayout(r: RecordFields)
    requires RecordRefusal(r) == None
    ensures RecordBytes(r) ==
            Frames([r.decisionId, r.tenant, r.namespace, r.ciphertextDigest, Le(r.sealedAt, 8), r.outcome])
            + (Opts([r.mode, r.policyVersion, r.supersedes])
            + (Frames([r.contextDigest.value, r.participationDigest.value])
            + (Opt(r.policyRulesDigest)
            + Frames([r.classification.value, r.participantsDigest.value, r.trustBasis.value, r.authMethod.value, Le(r.schemaVersion, 4)]))))
  {
    var a := Frames([r.decisionId, r.tenant, r.namespace, r.ciphertextDigest, Le(r.sealedAt, 8), r.outcome]);
    var b := Opts([r.mode, r.policyVersion, r.supersedes]);
    var c := Frames([r.contextDigest.value, r.participationDigest.value]);
    var e := Frames([r.classification.value, r.participantsDigest.value, r.trustBasis.value, r.authMethod.value, Le(r.schemaVersion, 4)]);
    assert Opts([r.policyRulesDigest]) == Opt(r.policyRulesDigest) by {
      assert [r.policyRulesDigest][1..] == [];
      assert Opt(r.policyRulesDigest) + [] == Opt(r.policyRulesDigest);
    }
    FiveParts(a, b, c, Opt(r.policyRulesDigest), e);
  }

  lemma FiveParts(a: bytes, b: bytes, c: bytes, d: bytes, e: bytes)
    ensures a + b + c + d + e == a + (b + (c + (d + e)))
  {
    Assoc(a + b + c, d, e);
    Assoc(a + b, c, d + e);
    Assoc(a, b, c + (d + e));
  }

  lemma RecordRead(p: Preimage)
    requires p.Record? && Accepted(p)
    ensures ReadRecord(Body(p)) == Parsed(p, [])
  {
    var r := p.record;
    var f := [r.decisionId, r.tenant, r.namespace, r.ciphertextDigest, Le(r.sealedAt, 8), r.outcome];
    var o := [r.mode, r.policyVersion, r.supersedes];
    var d := [r.contextDigest.value, r.participationDigest.value];
    var g := [r.classification.value, r.participantsDigest.value, r.trustBasis.value, r.authMethod.value, Le(r.schemaVersion, 4)];
    RecordLayout(r);
    RecordPartsShort(r);
    LittleNumber(r.sealedAt, 8);
    LittleNumber(r.schemaVersion, 4);
    var b3 := Opt(r.policyRulesDigest) + Frames(g);
    var b2 := Frames(d) + b3;
    var b1 := Opts(o) + b2;
    FramesRead(f, b1);
    OptsRead(o, b2);
    FramesRead(d, b3);
    assert ShortOpt([r.policyRulesDigest][0]);
    OptRead(r.policyRulesDigest, Frames(g));
    FramesRead(g, []);
    assert Frames(g) + [] == Frames(g);
  }

  // ── The call with its features ────────────────────────────────────────────────────────────────

  lemma PairRead(x: Pair, rest: bytes)
    requires Short(x.0) && Short(x.1)
    ensures ReadPair(Frames([x.0, x.1]) + rest) == Parsed(x, rest)
  {
    FramesRead([x.0, x.1], rest);
  }

  function PairBytes(x: Pair): (r: bytes) {
    Frames([x.0, x.1])
  }

  lemma {:induction false} PairParts(xs: seq<Pair>)
    ensures Frames(Flat(xs)) == Concat(Each(PairBytes, xs))
  {
    if xs != [] {
      PairParts(xs[1..]);
      FramesAppend([xs[0].0, xs[0].1], Flat(xs[1..]));
      ConcatEach(PairBytes, xs);
    }
  }

  lemma PairsRead(xs: seq<Pair>, rest: bytes)
    requires forall i :: 0 <= i < |xs| ==> Short(xs[i].0) && Short(xs[i].1)
    ensures ReadMany(ReadPair, |xs|, Frames(Flat(xs)) + rest) == Parsed(xs, rest)
  {
    var parts := Each(PairBytes, xs);
    forall i, r | 0 <= i < |xs| ensures ReadPair(parts[i] + r) == Parsed(xs[i], r) {
      PairRead(xs[i], r);
    }
    PairParts(xs);
    ManyRead(ReadPair, parts, xs, rest);
  }

  lemma {:induction false} FlatShort(xs: seq<Pair>)
    requires AllShort(Flat(xs))
    ensures forall i :: 0 <= i < |xs| ==> Short(xs[i].0) && Short(xs[i].1)
  {
    if xs != [] {
      var all := Flat(xs);
      assert all[0] == xs[0].0 && all[1] == xs[0].1;
      assert forall i :: 0 <= i < |Flat(xs[1..])| ==> Flat(xs[1..])[i] == all[i + 2];
      FlatShort(xs[1..]);
    }
  }

  /** The call as it is read: the features in the order they were signed in. */
  function InOrder(f: CallFields): (r: CallFields) {
    f.(features := Sort(f.features, PairLe))
  }

  lemma CallLayout(f: CallFields, a: seq<bytes>, b: seq<bytes>)
    requires a == [f.ticket, f.inputDigest, f.toolName, f.agentId, f.subject, Le(|f.subjects|, 4)]
    requires b == [f.clientRequestId, f.sessionId, Le(|f.features|, 4)]
    ensures Frames(CallParts(f)) == Frames(a) + (Frames(f.subjects) + (Frames(b) + Frames(Flat(Sort(f.features, PairLe)))))
  {
    var d := Flat(Sort(f.features, PairLe));
    FramesAppend(a + f.subjects + b, d);
    FramesAppend(a + f.subjects, b);
    FramesAppend(a, f.subjects);
    Assoc(Frames(a) + Frames(f.subjects), Frames(b), Frames(d));
    Assoc(Frames(a), Frames(f.subjects), Frames(b) + Frames(d));
  }

  lemma AllShortParts(xs: seq<bytes>, ys: seq<bytes>)
    requires AllShort(xs + ys)
    ensures AllShort(xs) && AllShort(ys)
  {
    assert forall i :: 0 <= i < |xs| ==> xs[i] == (xs + ys)[i];
    assert forall i :: 0 <= i < |ys| ==> ys[i] == (xs + ys)[|xs| + i];
  }

  lemma CallPartsShort(f: CallFields, a: seq<bytes>, b: seq<bytes>)
    requires a == [f.ticket, f.inputDigest, f.toolName, f.agentId, f.subject, Le(|f.subjects|, 4)]
    requires b == [f.clientRequestId, f.sessionId, Le(|f.features|, 4)]
    requires AllShort(CallParts(f))
    ensures AllShort(a) && AllShort(f.subjects) && AllShort(b) && AllShort(Flat(Sort(f.features, PairLe)))
  {
    AllShortParts(a + f.subjects + b, Flat(Sort(f.features, PairLe)));
    AllShortParts(a + f.subjects, b);
    AllShortParts(a, f.subjects);
  }

  lemma CallV3Read(p: Preimage)
    requires p.CallV3? && Accepted(p)
    ensures ReadCallV3(Body(p)) == Parsed(CallV3(InOrder(p.call)), [])
  {
    var f := p.call;
    var a, b := [f.ticket, f.inputDigest, f.toolName, f.agentId, f.subject, Le(|f.subjects|, 4)],
                [f.clientRequestId, f.sessionId, Le(|f.features|, 4)];
    var sorted := Sort(f.features, PairLe);
    var pairs := Frames(Flat(sorted));
    CallLayout(f, a, b);
    CallPartsShort(f, a, b);
    FlatShort(sorted);
    assert |sorted| == |multiset(sorted)| == |multiset(f.features)| == |f.features|;
    LittleNumber(|f.subjects|, 4);
    LittleNumber(|f.features|, 4);
    FramesRead(a, Frames(f.subjects) + (Frames(b) + pairs));
    FramesRead(f.subjects, Frames(b) + pairs);
    FramesRead(b, pairs);
    PairsRead(sorted, []);
    assert pairs + [] == pairs;
  }

  // ── The main result ───────────────────────────────────────────────────────────────────────────

  /** What is read from the bytes of a preimage. */
  function AsRead(p: Preimage): (r: Preimage) {
    if p.CallV3? then CallV3(InOrder(p.call)) else p
  }

  lemma CallDomains()
    ensures DomainOf(Ascii("seam-authorize-call-v2")) == 0 && DomainOf(Ascii("seam-authorize-call-v3")) == 1
    ensures DomainOf(Ascii("seam-request-call-v1")) == 2 && DomainOf(Ascii("seam-enroll-pop-v1")) == 3
  {
    assert Ascii("seam-authorize-call-v2")[21] == 50 && Ascii("seam-authorize-call-v3")[21] == 51;
  }

  lemma AuditDomains()
    ensures DomainOf(Ascii("seam.audit.participants.v4")) == 4 && DomainOf(Ascii("seam.audit.record-digest.v4")) == 5
    ensures DomainOf(Ascii("seam.audit.context-provenance.v4")) == 8
  {
  }

  lemma ChainHeadDomains()
    ensures DomainOf(Ascii("seam.audit.chain-head-attestation.v1")) == 6
    ensures DomainOf(Ascii("seam.audit.chain-head-attestation.v2")) == 7
  {
    assert Ascii("seam.audit.chain-head-attestation.v1")[35] == 49 && Ascii("seam.audit.chain-head-attestation.v2")[35] == 50;
  }

  lemma DigestDomains()
    ensures DomainOf(Ascii("seam-explanation-digest:v1")) == 9
  {
    assert Ascii("seam-explanation-digest:v1")[4] == 45 && Ascii("seam.audit.participants.v4")[4] == 46;
  }

  lemma CommitmentDomain()
    ensures DomainOf(Ascii("seam-commitment-digest:v3")) == 10 && DomainOf([]) == 11
  {
  }

  lemma DomainOfTag(p: Preimage)
    ensures DomainOf(Tag(p)) == Domain(p) && DomainOf([]) == 11
  {
    CallDomains();
    AuditDomains();
    ChainHeadDomains();
    DigestDomains();
    CommitmentDomain();
  }

  lemma CallFieldsRead(p: Preimage)
    requires Accepted(p) && Domain(p) < 4
    ensures ReadFields(Domain(p), Body(p)) == Parsed(AsRead(p), [])
  {
    match p
    case CallV2(_, _, _, _) => CallV2Read(p);
    case CallV3(_) => CallV3Read(p);
    case Request(_, _, _, _) => RequestRead(p);
    case EnrollPop(_, _, _, _, _) => EnrollPopRead(p);
  }

  lemma AuditFieldsRead(p: Preimage)
    requires Accepted(p) && Domain(p) >= 4
    ensures ReadFields(Domain(p), Body(p)) == Parsed(AsRead(p), [])
  {
    match p
    case Participants(_) => ParticipantsRead(p);
    case Record(_) => RecordRead(p);
    case ChainHead(_, _, _, _, _, _) => ChainHeadRead(p);
    case Context(_) => ContextRead(p);
    case Explanation(_) => ExplanationRead(p);
    case Commitment(_) => CommitmentRead(p);
  }

  lemma {:induction false} BeZeros(width: nat)
    ensures forall i :: 0 <= i < width ==> Be(0, width)[i] == 0
  {
    if width > 0 {
      BeZeros(width - 1);
    }
  }

  /** A short big-endian frame starts with a zero length, read little-endian. */
  lemma BigFrameLooksEmpty(x: bytes, rest: bytes)
    requires |x| < 256
    ensures ReadFrame(BigFrame(x) + rest).Parsed? && ReadFrame(BigFrame(x) + rest).value == []
  {
    var bs := BigFrame(x) + rest;
    BeZeros(7);
    assert Be(|x|, 8) == Be(0, 7) + [|x|];
    assert bs[0] == 0 && bs[1] == 0 && bs[2] == 0 && bs[3] == 0;
    assert bs[..4] == [0, 0, 0, 0];
    assert FromLe([0, 0, 0, 0]) == 0 by {
      assert [0, 0, 0, 0][1..] == [0, 0, 0] && [0, 0, 0][1..] == [0, 0] && [0, 0][1..] == [0] && [0][1..] == [];
    }
  }

  lemma DomainRead(p: Preimage, tag: bytes, body: bytes)
    requires tag == Tag(p)
    ensures ReadDomain(if BigEndian(p) then BigFrame(tag) + body else Frame(tag) + body) == Parsed(Domain(p), body)
  {
    TagLength(p);
    DomainOfTag(p);
    if BigEndian(p) {
      BigFrameLooksEmpty(tag, body);
      BigFrameRead(tag, body);
    } else {
      FrameRead(tag, body);
    }
  }

  /** Every preimage is read back from its bytes with each field in its place; a call's features come in the
      order of their keys and then their values. */
  lemma PreimageReadsBack(p: Preimage)
    requires Accepted(p)
    ensures Build(p).Some? && ReadPreimage(Build(p).value) == Some(AsRead(p))
  {
    DomainRead(p, Tag(p), Body(p));
    if Domain(p) < 4 {
      CallFieldsRead(p);
    } else {
      AuditFieldsRead(p);
    }
  }

  /** Unique decoding of everything that is signed or hashed: whatever the two kinds of preimage, their
      bytes coincide exactly when they are one kind with one field tuple, features as a multiset. */
  lemma PreimageDetermines(p: Preimage, q: Preimage)
    requires Accepted(p) && Accepted(q)
    ensures Build(p) == Build(q) <==> SameFields(p, q)
  {
    PreimageReadsBack(p);
    PreimageReadsBack(q);
    if p.CallV3? && q.CallV3? {
      FeaturesAsMultiset(p.call.features, q.call.features);
      if SameFields(p, q) {
        SameMembers(p.call.features, q.call.features);
      }
    }
  }

  /** One pair comes before another by its key, or by its value where the keys are equal. */
  ghost predicate Before(x: Pair, y: Pair) {
    Earlier(x.0, y.0) || (x.0 == y.0 && Earlier(x.1, y.1))
  }

  /** The features of a call are signed in the byte order of their keys and then of their values, and they are
      the features given. */
  lemma FeaturesInOrder(f: CallFields, i: nat, j: nat)
    requires i < j < |InOrder(f).features|
    ensures InOrder(f).features[i] == InOrder(f).features[j] || Before(InOrder(f).features[i], InOrder(f).features[j])
    ensures multiset(InOrder(f).features) == multiset(f.features)
  {
    var x, y := InOrder(f).features[i], InOrder(f).features[j];
    PairLeTotal();
    SortSorted(f.features, PairLe);
    assert PairLe(x, y);
    LexLeMeans(x.0, y.0);
    LexLeMeans(x.1, y.1);
  }

  // ── What is refused ───────────────────────────────────────────────────────────────────────────

  predicate Below(xs: seq<bytes>, bound: nat) {
    forall i :: 0 <= i < |xs| ==> |xs[i]| < bound
  }

  /** Every field is shorter than its length prefix can say, and every number and count fits its width. */
  predicate Fits(p: Preimage) {
    var small, large := 0x1_0000_0000, 0x1_0000_0000_0000_0000;
    match p
    case CallV2(t, d, n, a) => Below([t, d, n, a], small)
    case CallV3(f) =>
      && Below([f.ticket, f.inputDigest, f.toolName, f.agentId, f.subject, f.clientRequestId, f.sessionId], small)
      && Below(f.subjects, small) && |f.subjects| < small && |f.features| < small
      && forall i :: 0 <= i < |f.features| ==> |f.features[i].0| < small && |f.features[i].1| < small
    case Request(t, n, i, d) => Below([t, n, i, d], small)
    case EnrollPop(a, t, n, at, nonce) => Below([a, t, n, nonce], small) && at < large
    case Participants(ids) => Below(ids, small) && |ids| < small
    case ChainHead(n, h, at, sch, i, t) =>
      Below([h, i], small) && n < large && at < large && sch < small && (t.Some? ==> |t.value| < small)
    case Commitment(c) =>
      && Below([c.id, c.action, c.authority, c.authMethod, c.trustBasis, c.committer, c.explanationDigest], large)
      && (c.supersedes.Some? ==> |c.supersedes.value| < large)
    case _ => true
  }

  lemma {:induction false} FlatShortIff(xs: seq<Pair>)
    ensures AllShort(Flat(xs)) <==> PairsShort(xs)
  {
    if xs != [] {
      FlatShortIff(xs[1..]);
      AllShortJoin([xs[0].0, xs[0].1], Flat(xs[1..]));
      assert AllShort([xs[0].0, xs[0].1]) <==> Short(xs[0].0) && Short(xs[0].1) by {
        assert [xs[0].0, xs[0].1][0] == xs[0].0 && [xs[0].0, xs[0].1][1] == xs[0].1;
      }
      assert forall i :: 1 <= i < |xs| ==> xs[i] == xs[1..][i - 1];
    }
  }

  lemma AllShortJoin(xs: seq<bytes>, ys: seq<bytes>)
    ensures AllShort(xs + ys) <==> AllShort(xs) && AllShort(ys)
  {
    if AllShort(xs + ys) {
      AllShortParts(xs, ys);
    }
  }

  predicate PairsShort(xs: seq<Pair>) {
    forall i :: 0 <= i < |xs| ==> Short(xs[i].0) && Short(xs[i].1)
  }

  lemma PairsShortAlike(xs: seq<Pair>, ys: seq<Pair>)
    requires multiset(xs) == multiset(ys) && PairsShort(xs)
    ensures PairsShort(ys)
  {
    forall i | 0 <= i < |ys| ensures Short(ys[i].0) && Short(ys[i].1) {
      assert ys[i] in multiset(xs);
      var j :| 0 <= j < |xs| && xs[j] == ys[i];
    }
  }

  lemma SortedShort(xs: seq<Pair>)
    ensures PairsShort(xs) <==> PairsShort(Sort(xs, PairLe))
  {
    if PairsShort(xs) {
      PairsShortAlike(xs, Sort(xs, PairLe));
    }
    if PairsShort(Sort(xs, PairLe)) {
      PairsShortAlike(Sort(xs, PairLe), xs);
    }
  }

  lemma CallFits(f: CallFields)
    ensures AllShort(CallParts(f)) <==>
            && AllShort([f.ticket, f.inputDigest, f.toolName, f.agentId, f.subject]) && AllShort(f.subjects)
            && AllShort([f.clientRequestId, f.sessionId]) && PairsShort(f.features)
  {
    var a, a' := [f.ticket, f.inputDigest, f.toolName, f.agentId, f.subject, Le(|f.subjects|, 4)],
                 [f.ticket, f.inputDigest, f.toolName, f.agentId, f.subject];
    var b, b' := [f.clientRequestId, f.sessionId, Le(|f.features|, 4)], [f.clientRequestId, f.sessionId];
    var d := Flat(Sort(f.features, PairLe));
    assert a == a' + [Le(|f.subjects|, 4)] && b == b' + [Le(|f.features|, 4)];
    AllShortJoin(a', [Le(|f.subjects|, 4)]);
    AllShortJoin(b', [Le(|f.features|, 4)]);
    AllShortJoin(a + f.subjects + b, d);
    AllShortJoin(a + f.subjects, b);
    AllShortJoin(a, f.subjects);
    FlatShortIff(Sort(f.features, PairLe));
    SortedShort(f.features);
  }

  /** Apart from records, contexts and explanations, a preimage is refused only for what does not fit. */
  lemma BuiltIffFits(p: Preimage)
    requires !p.Record? && !p.Context? && !p.Explanation?
    ensures Build(p).Some? <==> Fits(p)
  {
    match p
    case CallV3(f) => CallFits(f); CallBelow(f);
    case EnrollPop(a, t, n, at, nonce) => EnrollBelow(p);
    case _ =>
  }

  lemma CallBelow(f: CallFields)
    ensures Below([f.ticket, f.inputDigest, f.toolName, f.agentId, f.subject, f.clientRequestId, f.sessionId], 0x1_0000_0000)
       <==> AllShort([f.ticket, f.inputDigest, f.toolName, f.agentId, f.subject]) && AllShort([f.clientRequestId, f.sessionId])
  {
    var a, b := [f.ticket, f.inputDigest, f.toolName, f.agentId, f.subject], [f.clientRequestId, f.sessionId];
    assert [f.ticket, f.inputDigest, f.toolName, f.agentId, f.subject, f.clientRequestId, f.sessionId] == a + b;
    AllShortJoin(a, b);
  }

  lemma EnrollBelow(p: Preimage)
    requires p.EnrollPop?
    ensures AllShort([p.subjectAid, p.tenant, p.namespace, Le(p.issuedAtMs, 8), p.nonce])
       <==> Below([p.subjectAid, p.tenant, p.namespace, p.nonce], 0x1_0000_0000)
  {
    var a := [p.subjectAid, p.tenant, p.namespace];
    assert [p.subjectAid, p.tenant, p.namespace, Le(p.issuedAtMs, 8), p.nonce] == a + ([Le(p.issuedAtMs, 8)] + [p.nonce]);
    assert [p.subjectAid, p.tenant, p.namespace, p.nonce] == a + [p.nonce];
    AllShortJoin(a, [Le(p.issuedAtMs, 8)] + [p.nonce]);
    AllShortJoin([Le(p.issuedAtMs, 8)], [p.nonce]);
    AllShortJoin(a, [p.nonce]);
  }

  predicate Absent(o: Option<bytes>) {
    o == None || o == Some([])
  }

  /** Every reason to refuse a record, in the order they are looked for. */
  function Reasons(r: RecordFields): (cs: seq<(bool, Refusal)>) {
    [(r.schemaVersion != 4, UnsupportedVersion(r.schemaVersion)),
     (Absent(r.contextDigest), Strip(11)), (r.contextDigest.Some? && |r.contextDigest.value| != 32, Malformed(11)),
     (Absent(r.participationDigest), Strip(12)), (r.participationDigest.Some? && |r.participationDigest.value| != 32, Malformed(12)),
     (r.policyRulesDigest.Some? && |r.policyRulesDigest.value| != 32, Malformed(13)),
     (Absent(r.participantsDigest), Strip(15)), (r.participantsDigest.Some? && |r.participantsDigest.value| != 32, Malformed(15)),
     (Absent(r.classification), Strip(14)), (Absent(r.trustBasis), Strip(16)), (Absent(r.authMethod), Strip(17)),
     (r.sealedAt >= 0x1_0000_0000_0000_0000, OutOfRange)]
  }

  /** A record is refused exactly for the first reason that holds, and hashed when none does. */
  lemma RecordRefusedInOrder(r: RecordFields)
    ensures RecordRefusal(r) == None <==> forall i :: 0 <= i < |Reasons(r)| ==> !Reasons(r)[i].0
    ensures RecordRefusal(r).Some? ==>
            exists i :: 0 <= i < |Reasons(r)| && Reasons(r)[i] == (true, RecordRefusal(r).value)
                        && forall j :: 0 <= j < i ==> !Reasons(r)[j].0
  {
    var cs := Reasons(r);
    var i := if cs[0].0 then 0 else if cs[1].0 then 1 else if cs[2].0 then 2 else if cs[3].0 then 3 else if cs[4].0 then 4
             else if cs[5].0 then 5 else if cs[6].0 then 6 else if cs[7].0 then 7 else if cs[8].0 then 8 else if cs[9].0 then 9
             else if cs[10].0 then 10 else 11;
    assert forall j :: 0 <= j < i ==> !cs[j].0;
    assert cs[i].0 ==> RecordRefusal(r) == Some(cs[i].1);
  }

  /** Explanations of these four kinds, with confidences from 0 to 1, are hashed, and no others. */
  lemma ExplanationRefusedIff(es: seq<Entry>)
    requires |es| < 0x1_0000_0000_0000_0000 && forall i :: 0 <= i < |es| ==> EntryInMemory(es[i])
    ensures Build(Explanation(es)) == None <==>
            exists i :: 0 <= i < |es| &&
              (|| es[i].kind !in {Ascii("vote"), Ascii("evaluation"), Ascii("objection"), Ascii("ballot")}
               || (es[i].confidence.Some? && es[i].confidence.value > 0x3FF0_0000_0000_0000))
  {
    assert forall i :: 0 <= i < |es| ==>
      (KnownKind(es[i].kind) <==> es[i].kind in {Ascii("vote"), Ascii("evaluation"), Ascii("objection"), Ascii("ballot")});
  }

  /** Of bindings whose fields fit their prefixes, those with an unpaired receipt key status or one outside the two
      words are refused, and no others. */
  lemma ContextRefusedIff(bs: seq<Binding>)
    requires |bs| < 0x1_0000_0000
    requires forall i :: 0 <= i < |bs| ==>
               && AllShort([bs[i].ctxRef, bs[i].fidelity, bs[i].classification] + bs[i].derivedFrom)
               && AllShortOpts([bs[i].lineage, bs[i].contentHash, bs[i].receiptHash, bs[i].keyStatus, bs[i].resolvedStatus, bs[i].receiptKeyStatus])
               && bs[i].version < 0x1_0000_0000 && |bs[i].derivedFrom| < 0x1_0000_0000
    ensures Build(Context(bs)) == None <==>
            exists i :: 0 <= i < |bs| &&
              (|| bs[i].receiptKeyStatus.Some? != bs[i].receiptHash.Some?
               || (bs[i].receiptKeyStatus.Some? && bs[i].receiptKeyStatus.value !in {Ascii("Current"), Ascii("Historical")}))
  {
    forall i | 0 <= i < |bs|
      ensures BindingAccepted(bs[i]) <==>
              && bs[i].receiptKeyStatus.Some? == bs[i].receiptHash.Some?
              && (bs[i].receiptKeyStatus.Some? ==> bs[i].receiptKeyStatus.value in {Ascii("Current"), Ascii("Historical")})
    {
      BindingFits(bs[i]);
    }
  }

  lemma BindingFits(b: Binding)
    requires AllShort([b.ctxRef, b.fidelity, b.classification] + b.derivedFrom)
    requires AllShortOpts([b.lineage, b.contentHash, b.receiptHash, b.keyStatus, b.resolvedStatus, b.receiptKeyStatus])
    ensures AllShort([b.ctxRef, b.fidelity, b.classification]) && AllShort(b.derivedFrom) && AllShortOpts([b.lineage])
    ensures AllShortOpts([b.contentHash, b.receiptHash, b.keyStatus, b.resolvedStatus, b.receiptKeyStatus])
  {
    var all, opts := [b.ctxRef, b.fidelity, b.classification] + b.derivedFrom,
                     [b.lineage, b.contentHash, b.receiptHash, b.keyStatus, b.resolvedStatus, b.receiptKeyStatus];
    assert all[0] == b.ctxRef && all[1] == b.fidelity && all[2] == b.classification;
    assert forall i :: 0 <= i < |b.derivedFrom| ==> b.derivedFrom[i] == all[i + 3];
    assert ShortOpt(opts[0]) && ShortOpt(opts[1]) && ShortOpt(opts[2]) && ShortOpt(opts[3]) && ShortOpt(opts[4]) && ShortOpt(opts[5]);
  }
}
