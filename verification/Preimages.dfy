/** Every byte string the SDK signs or hashes, and the proof that each one says exactly what it was
    built from. Text fields are their UTF-8 bytes; SHA-256 and Ed25519 are applied on top and are not
    part of the model. */
module Preimages {
  import opened Bytes
  import opened Sorting

  /** The bytes of an ASCII constant. */
  function Ascii(s: string): (r: bytes)
    ensures |r| == |s| && forall i :: 0 <= i < |s| && s[i] as int < 128 ==> r[i] == s[i] as int
  {
    seq(|s|, i requires 0 <= i < |s| => s[i] as int % 128)
  }

  // ── Lists of frames ───────────────────────────────────────────────────────────────────────────

  function Frames(xs: seq<bytes>): (r: bytes) {
    if xs == [] then [] else Frame(xs[0]) + Frames(xs[1..])
  }

  function BigFrames(xs: seq<bytes>): (r: bytes) {
    if xs == [] then [] else BigFrame(xs[0]) + BigFrames(xs[1..])
  }

  /** `0x00` when absent, `0x01 || frame(x)` when present. */
  function Opt(o: Option<bytes>): (r: bytes) {
    match o case None => [0] case Some(x) => [1] + Frame(x)
  }

  function Opts(os: seq<Option<bytes>>): (r: bytes) {
    if os == [] then [] else Opt(os[0]) + Opts(os[1..])
  }

  function BigOpt(o: Option<bytes>): (r: bytes) {
    match o case None => [0] case Some(x) => [1] + BigFrame(x)
  }

  /** `0x00` when absent, `0x01` and the eight big-endian bytes of an IEEE-754 double when present. */
  function ConfidenceBytes(bits: Option<nat>): (r: bytes) {
    match bits case None => [0] case Some(n) => [1] + Be(n, 8)
  }

  predicate ShortOpt(o: Option<bytes>) {
    o.Some? ==> Short(o.value)
  }

  predicate AllShortOpts(os: seq<Option<bytes>>) {
    forall i :: 0 <= i < |os| ==> ShortOpt(os[i])
  }

  predicate AllLong(xs: seq<bytes>) {
    forall i :: 0 <= i < |xs| ==> Long(xs[i])
  }

  // ── The field tuples ──────────────────────────────────────────────────────────────────────────

  type Pair = (bytes, bytes)

  datatype CallFields = CallFields(
    ticket: bytes, inputDigest: bytes, toolName: bytes, agentId: bytes, subject: bytes,
    subjects: seq<bytes>, clientRequestId: bytes, sessionId: bytes, features: seq<Pair>)

  datatype RecordFields = RecordFields(
    decisionId: bytes, tenant: bytes, namespace: bytes, ciphertextDigest: bytes, sealedAt: nat,
    outcome: bytes, mode: Option<bytes>, policyVersion: Option<bytes>, supersedes: Option<bytes>,
    contextDigest: Option<bytes>, participationDigest: Option<bytes>, policyRulesDigest: Option<bytes>,
    classification: Option<bytes>, participantsDigest: Option<bytes>, trustBasis: Option<bytes>,
    authMethod: Option<bytes>, schemaVersion: nat)

  datatype Binding = Binding(
    ctxRef: bytes, fidelity: bytes, classification: bytes, lineage: Option<bytes>, version: nat,
    derivedFrom: seq<bytes>, contentHash: Option<bytes>, receiptHash: Option<bytes>,
    keyStatus: Option<bytes>, resolvedStatus: Option<bytes>, receiptKeyStatus: Option<bytes>)

  /** `confidence` is the IEEE-754 bit pattern of the double. */
  datatype Entry = Entry(
    kind: bytes, participant: bytes, proposalId: bytes, value: bytes, reason: bytes,
    confidence: Option<nat>, rationaleRef: Option<bytes>)

  datatype CommitmentFields = CommitmentFields(
    id: bytes, action: bytes, authority: bytes, supersedes: Option<bytes>, authMethod: bytes,
    trustBasis: bytes, committer: bytes, explanationDigest: bytes)

  datatype Preimage =
    | CallV2(ticket: bytes, inputDigest: bytes, toolName: bytes, agentId: bytes)
    | CallV3(call: CallFields)
    | Request(ticket: bytes, rpcFullName: bytes, resourceId: bytes, bodyDigest: bytes)
    | EnrollPop(subjectAid: bytes, tenant: bytes, namespace: bytes, issuedAtMs: nat, nonce: bytes)
    | Participants(ids: seq<bytes>)
    | Record(record: RecordFields)
    | ChainHead(attestedLen: nat, head: bytes, attestedAt: nat, digestSchema: nat, issuerAid: bytes, signedTenant: Option<bytes>)
    | Context(bindings: seq<Binding>)
    | Explanation(entries: seq<Entry>)
    | Commitment(commitment: CommitmentFields)

  // ── What each builder refuses ─────────────────────────────────────────────────────────────────

  datatype Refusal = UnsupportedVersion(version: nat) | Strip(tag: nat) | Malformed(tag: nat) | OutOfRange

  const U32 := 0x1_0000_0000
  const U64 := 0x1_0000_0000_0000_0000

  /** A 32-byte sub-digest slot: absence is a strip when mandatory, a wrong length is malformed. */
  function SubDigestRefusal(tag: nat, value: Option<bytes>, optional: bool): (r: Option<Refusal>) {
    if value == None || (!optional && value == Some([])) then
      if optional then None else Some(Strip(tag))
    else if |value.value| != 32 then Some(Malformed(tag))
    else None
  }

  function MandatoryTextRefusal(tag: nat, value: Option<bytes>): (r: Option<Refusal>) {
    if value == None || value == Some([]) then Some(Strip(tag)) else None
  }

  function First(a: Option<Refusal>, b: Option<Refusal>): (r: Option<Refusal>) {
    if a.Some? then a else b
  }

  /** The first refusal `record_digest_v4` raises, in its order: the version gate, the sub-digests,
      the mandatory texts, the 64-bit slot. */
  function RecordRefusal(r: RecordFields): (refusal: Option<Refusal>) {
    if r.schemaVersion != 4 then Some(UnsupportedVersion(r.schemaVersion))
    else
      First(SubDigestRefusal(11, r.contextDigest, false),
      First(SubDigestRefusal(12, r.participationDigest, false),
      First(SubDigestRefusal(13, r.policyRulesDigest, true),
      First(SubDigestRefusal(15, r.participantsDigest, false),
      First(MandatoryTextRefusal(14, r.classification),
      First(MandatoryTextRefusal(16, r.trustBasis),
      First(MandatoryTextRefusal(17, r.authMethod),
            if r.sealedAt < U64 then None else Some(OutOfRange))))))))
  }

  const CURRENT := Ascii("Current")
  const HISTORICAL := Ascii("Historical")

  /** `receipt_key_status` is present exactly when `receipt_hash` is, and is one of two words. */
  predicate BindingAccepted(b: Binding) {
    && AllShort([b.ctxRef, b.fidelity, b.classification])
    && AllShortOpts([b.lineage])
    && AllShortOpts([b.contentHash, b.receiptHash, b.keyStatus, b.resolvedStatus, b.receiptKeyStatus])
    && b.version < U32
    && |b.derivedFrom| < U32 && AllShort(b.derivedFrom)
    && (b.receiptKeyStatus == None <==> b.receiptHash == None)
    && (b.receiptKeyStatus.Some? ==> b.receiptKeyStatus.value == CURRENT || b.receiptKeyStatus.value == HISTORICAL)
  }

  const KINDS: seq<bytes> := [Ascii("vote"), Ascii("evaluation"), Ascii("objection"), Ascii("ballot")]

  /** The bit pattern of 1.0. The patterns up to it are the doubles in [0, 1] other than -0.0. */
  const ONE_BITS: nat := 0x3FF0_0000_0000_0000

  predicate EntryInMemory(e: Entry) {
    && AllLong([e.kind, e.participant, e.proposalId, e.value, e.reason])
    && (e.rationaleRef.Some? ==> Long(e.rationaleRef.value))
  }

  predicate EntryFits(e: Entry) {
    EntryInMemory(e) && (e.confidence.Some? ==> e.confidence.value <= ONE_BITS)
  }

  predicate KnownKind(kind: bytes) {
    kind in KINDS
  }

  predicate EntryAccepted(e: Entry) {
    KnownKind(e.kind) && EntryFits(e)
  }

  /** The inputs the builder turns into bytes; on every other input it raises. */
  predicate Accepted(p: Preimage) {
    match p
    case CallV2(t, d, n, a) => AllShort([t, d, n, a])
    case CallV3(f) => AllShort(CallParts(f)) && |f.subjects| < U32 && |f.features| < U32
    case Request(t, n, i, d) => AllShort([t, n, i, d])
    case EnrollPop(a, t, n, at, nonce) => AllShort([a, t, n, Le(at, 8), nonce]) && at < U64
    case Participants(ids) => |ids| < U32 && AllShort(ids)
    case Record(r) =>
      && RecordRefusal(r) == None
      && AllShort([r.decisionId, r.tenant, r.namespace, r.ciphertextDigest, r.outcome])
      && AllShortOpts([r.mode, r.policyVersion, r.supersedes])
      && AllShortOpts([r.classification, r.trustBasis, r.authMethod])
    case ChainHead(n, h, at, sch, i, t) =>
      n < U64 && at < U64 && sch < U32 && AllShort([h, i]) && ShortOpt(t)
    case Context(bs) => |bs| < U32 && forall i :: 0 <= i < |bs| ==> BindingAccepted(bs[i])
    case Explanation(es) => |es| < U64 && forall i :: 0 <= i < |es| ==> EntryAccepted(es[i])
    case Commitment(c) =>
      && AllLong([c.id, c.action, c.authority, c.authMethod, c.trustBasis, c.committer, c.explanationDigest])
      && (c.supersedes.Some? ==> Long(c.supersedes.value))
  }

  // ── The bytes ─────────────────────────────────────────────────────────────────────────────────

  /** Which domain a preimage belongs to; a chain-head attestation with a tenant has its own. */
  function Domain(p: Preimage): (d: nat)
    ensures d < 11
  {
    match p
    case CallV2(_, _, _, _) => 0
    case CallV3(_) => 1
    case Request(_, _, _, _) => 2
    case EnrollPop(_, _, _, _, _) => 3
    case Participants(_) => 4
    case Record(_) => 5
    case ChainHead(_, _, _, _, _, t) => if t == None then 6 else 7
    case Context(_) => 8
    case Explanation(_) => 9
    case Commitment(_) => 10
  }

  function TagText(domain: nat): (s: string)
    requires domain < 11
  {
    match domain
    case 0 => "seam-authorize-call-v2"
    case 1 => "seam-authorize-call-v3"
    case 2 => "seam-request-call-v1"
    case 3 => "seam-enroll-pop-v1"
    case 4 => "seam.audit.participants.v4"
    case 5 => "seam.audit.record-digest.v4"
    case 6 => "seam.audit.chain-head-attestation.v1"
    case 7 => "seam.audit.chain-head-attestation.v2"
    case 8 => "seam.audit.context-provenance.v4"
    case 9 => "seam-explanation-digest:v1"
    case _ => "seam-commitment-digest:v3"
  }

  function Tag(p: Preimage): (t: bytes) {
    Ascii(TagText(Domain(p)))
  }

  predicate PairLe(x: Pair, y: Pair) {
    if x.0 == y.0 then LexLe(x.1, y.1) else LexLe(x.0, y.0)
  }

  function Flat(pairs: seq<Pair>): (r: seq<bytes>)
    ensures |r| == 2 * |pairs|
  {
    if pairs == [] then [] else [pairs[0].0, pairs[0].1] + Flat(pairs[1..])
  }

  /** Subjects in the order sent; features sorted by key bytes, then value bytes. */
  function CallParts(f: CallFields): (r: seq<bytes>) {
    [f.ticket, f.inputDigest, f.toolName, f.agentId, f.subject, Le(|f.subjects|, 4)]
    + f.subjects
    + [f.clientRequestId, f.sessionId, Le(|f.features|, 4)]
    + Flat(Sort(f.features, PairLe))
  }

  function BindingHead(texts: seq<bytes>, lineage: seq<Option<bytes>>, version: seq<bytes>): (r: bytes) {
    Frames(texts) + (Opts(lineage) + Frames(version))
  }

  function BindingTail(derivedFrom: seq<bytes>, statuses: seq<Option<bytes>>): (r: bytes) {
    Le(|derivedFrom|, 4) + (Frames(derivedFrom) + Opts(statuses))
  }

  function BindingBytes(b: Binding): (r: bytes) {
    BindingHead([b.ctxRef, b.fidelity, b.classification], [b.lineage], [Le(b.version, 4)])
    + BindingTail(b.derivedFrom, [b.contentHash, b.receiptHash, b.keyStatus, b.resolvedStatus, b.receiptKeyStatus])
  }

  function BindingsBytes(bs: seq<Binding>): (r: bytes) {
    if bs == [] then [] else BindingBytes(bs[0]) + BindingsBytes(bs[1..])
  }

  function EntryBytes(e: Entry): (r: bytes) {
    BigFrames([e.kind, e.participant, e.proposalId, e.value, e.reason])
    + (ConfidenceBytes(e.confidence) + BigOpt(e.rationaleRef))
  }

  function EntriesBytes(es: seq<Entry>): (r: bytes) {
    if es == [] then [] else EntryBytes(es[0]) + EntriesBytes(es[1..])
  }

  function RecordBytes(r: RecordFields): (out: bytes)
    requires RecordRefusal(r) == None
  {
    Frames([r.decisionId, r.tenant, r.namespace, r.ciphertextDigest, Le(r.sealedAt, 8), r.outcome])
    + Opts([r.mode, r.policyVersion, r.supersedes])
    + Frames([r.contextDigest.value, r.participationDigest.value])
    + Opts([r.policyRulesDigest])
    + Frames([r.classification.value, r.participantsDigest.value, r.trustBasis.value,
              r.authMethod.value, Le(r.schemaVersion, 4)])
  }

  function Body(p: Preimage): (r: bytes)
    requires Accepted(p)
  {
    match p
    case CallV2(t, d, n, a) => Frames([t, d, n, a])
    case CallV3(f) => Frames(CallParts(f))
    case Request(t, n, i, d) => Frames([t, n, i, d])
    case EnrollPop(a, t, n, at, nonce) => Frames([a, t, n, Le(at, 8), nonce])
    case Participants(ids) => Le(|ids|, 4) + Frames(ids)
    case Record(r) => RecordBytes(r)
    case ChainHead(n, h, at, sch, i, t) =>
      Frames([Le(n, 8), h, Le(at, 8), Le(sch, 4), i] + (if t == None then [] else [t.value]))
    case Context(bs) => Le(|bs|, 4) + BindingsBytes(bs)
    case Explanation(es) => Be(|es|, 8) + EntriesBytes(es)
    case Commitment(c) =>
      BigFrames([c.id, c.action, c.authority])
      + (BigOpt(c.supersedes)
      + BigFrames([c.authMethod, c.trustBasis, c.committer, c.explanationDigest]))
  }

  predicate BigEndian(p: Preimage) {
    p.Explanation? || p.Commitment?
  }

  /** What is signed or hashed, or None where the builder refuses. */
  function Build(p: Preimage): (r: Option<bytes>) {
    if !Accepted(p) then None
    else if BigEndian(p) then Some(BigFrame(Tag(p)) + Body(p))
    else Some(Frame(Tag(p)) + Body(p))
  }

  /** Equal tuples, a feature list counting as a multiset. */
  ghost predicate SameFields(p: Preimage, q: Preimage) {
    if p.CallV3? && q.CallV3? then
      p.call.(features := []) == q.call.(features := [])
      && multiset(p.call.features) == multiset(q.call.features)
    else p == q
  }

  // ── Features, and the parts of a record ───────────────────────────────────────────────────────

  lemma TagLength(p: Preimage)
    ensures 0 < |Tag(p)| < 256
  {
  }

  lemma PairLeTotal()
    ensures TotalPreorder(PairLe)
    ensures forall x, y :: PairLe(x, y) && PairLe(y, x) ==> x == y
  {
    forall x: Pair, y: Pair
      ensures PairLe(x, y) || PairLe(y, x)
      ensures PairLe(x, y) && PairLe(y, x) ==> x == y
    {
      LexTotal(x.0, y.0);
      LexTotal(x.1, y.1);
    }
    forall x: Pair, y: Pair, z: Pair | PairLe(x, y) && PairLe(y, z)
      ensures PairLe(x, z)
    {
      PairLeTransitive(x, y, z);
    }
  }

  lemma PairLeTransitive(x: Pair, y: Pair, z: Pair)
    requires PairLe(x, y) && PairLe(y, z)
    ensures PairLe(x, z)
  {
    if x.0 == y.0 == z.0 {
      LexTransitive(x.1, y.1, z.1);
    } else if x.0 != y.0 && y.0 != z.0 {
      LexTransitive(x.0, y.0, z.0);
      LexTotal(x.0, y.0);
    }
  }

  /** Two feature lists sort alike exactly when they hold the same pairs as often. */
  lemma FeaturesAsMultiset(xs: seq<Pair>, ys: seq<Pair>)
    ensures Sort(xs, PairLe) == Sort(ys, PairLe) <==> multiset(xs) == multiset(ys)
  {
    PairLeTotal();
    SortSorted(xs, PairLe);
    SortSorted(ys, PairLe);
    if multiset(xs) == multiset(ys) {
      SortedUnique(Sort(xs, PairLe), Sort(ys, PairLe), PairLe);
    }
  }

  lemma RecordPartsShort(r: RecordFields)
    requires Accepted(Record(r))
    ensures AllShort([r.decisionId, r.tenant, r.namespace, r.ciphertextDigest, Le(r.sealedAt, 8), r.outcome])
    ensures AllShort([r.contextDigest.value, r.participationDigest.value])
    ensures AllShortOpts([r.policyRulesDigest])
    ensures AllShort([r.classification.value, r.participantsDigest.value, r.trustBasis.value, r.authMethod.value, Le(r.schemaVersion, 4)])
  {
    var a := [r.decisionId, r.tenant, r.namespace, r.ciphertextDigest, r.outcome];
    assert Short(a[0]) && Short(a[1]) && Short(a[2]) && Short(a[3]) && Short(a[4]);
    var m := [r.classification, r.trustBasis, r.authMethod];
    assert ShortOpt(m[0]) && ShortOpt(m[1]) && ShortOpt(m[2]);
  }

  // ── The Go builders, which grow a byte slice by appending ─────────────────────────────────────

  lemma FramesAppend(xs: seq<bytes>, ys: seq<bytes>)
    ensures Frames(xs + ys) == Frames(xs) + Frames(ys)
  {
    if xs == [] {
      assert xs + ys == ys;
    } else {
      assert (xs + ys)[0] == xs[0] && (xs + ys)[1..] == xs[1..] + ys;
      FramesAppend(xs[1..], ys);
      Assoc(Frame(xs[0]), Frames(xs[1..]), Frames(ys));
    }
  }

  method AppendFrames(out: bytes, ghost done: seq<bytes>, xs: seq<bytes>) returns (r: bytes)
    requires out == Frames(done)
    ensures r == Frames(done + xs)
  {
    r := out;
    assert done + xs[..0] == done;
    for i := 0 to |xs|
      invariant r == Frames(done + xs[..i])
    {
      FramesAppend(done + xs[..i], [xs[i]]);
      assert done + xs[..i] + [xs[i]] == done + xs[..i + 1];
      assert Frames([xs[i]]) == Frame(xs[i]) + Frames([]) == Frame(xs[i]);
      Assoc(r, Le(|xs[i]|, 4), xs[i]);
      r := r + Le(|xs[i]|, 4);
      r := r + xs[i];
    }
    assert xs[..|xs|] == xs;
  }

  method AppendPairs(out: bytes, ghost done: seq<bytes>, pairs: seq<Pair>) returns (r: bytes)
    requires out == Frames(done)
    ensures r == Frames(done + Flat(pairs))
  {
    r := out;
    assert done + Flat(pairs[..0]) == done;
    for i := 0 to |pairs|
      invariant r == Frames(done + Flat(pairs[..i]))
    {
      var kv := [pairs[i].0, pairs[i].1];
      r := AppendFrames(r, done + Flat(pairs[..i]), kv);
      FlatAppend(pairs[..i], pairs[i]);
      assert pairs[..i] + [pairs[i]] == pairs[..i + 1];
      assert done + Flat(pairs[..i]) + kv == done + Flat(pairs[..i + 1]);
    }
    assert pairs[..|pairs|] == pairs;
  }

  lemma {:induction false} FlatAppend(xs: seq<Pair>, x: Pair)
    ensures Flat(xs + [x]) == Flat(xs) + [x.0, x.1]
  {
    if xs == [] {
      assert xs + [x] == [x];
      assert Flat([x]) == [x.0, x.1] + Flat([]);
    } else {
      assert (xs + [x])[1..] == xs[1..] + [x];
      FlatAppend(xs[1..], x);
    }
  }

  lemma {:induction false} WritesJoin(tag: bytes, head: seq<bytes>, subjects: seq<bytes>, middle: seq<bytes>, tail: seq<bytes>)
    ensures Frames([] + [tag] + head + subjects + middle + tail) == Frame(tag) + Frames(head + subjects + middle + tail)
  {
    var all := [] + [tag] + head + subjects + middle + tail;
    assert all[0] == tag && all[1..] == head + subjects + middle + tail;
  }

  /** Go's builder: frames appended field by field, the counts framed too, the features sorted in a
      copy. It produces the very bytes the Python builder joins, for every field tuple. */
  method CallSigV3Payload(f: CallFields) returns (out: bytes)
    ensures out == Frame(Tag(CallV3(f))) + Frames(CallParts(f))
  {
    var tag := Tag(CallV3(f));
    var head := [f.ticket, f.inputDigest, f.toolName, f.agentId, f.subject, Le(|f.subjects|, 4)];
    var middle := [f.clientRequestId, f.sessionId, Le(|f.features|, 4)];
    out := AppendFrames([], [], [tag]);
    out := AppendFrames(out, [] + [tag], head);
    out := AppendFrames(out, [] + [tag] + head, f.subjects);
    out := AppendFrames(out, [] + [tag] + head + f.subjects, middle);
    var features := Sort(f.features, PairLe);
    out := AppendPairs(out, [] + [tag] + head + f.subjects + middle, features);
    WritesJoin(tag, head, f.subjects, middle, Flat(features));
  }

  /** Go's enrolment payload, frame after frame, is the payload the Python builder joins. */
  method EnrollPopPayload(aid: bytes, tenant: bytes, namespace: bytes, issuedAtMs: nat, nonce: bytes) returns (out: bytes)
    requires Accepted(EnrollPop(aid, tenant, namespace, issuedAtMs, nonce))
    ensures Build(EnrollPop(aid, tenant, namespace, issuedAtMs, nonce)) == Some(out)
  {
    var tag := Tag(EnrollPop(aid, tenant, namespace, issuedAtMs, nonce));
    var fields := [aid, tenant, namespace, Le(issuedAtMs, 8), nonce];
    out := AppendFrames([], [], [tag]);
    assert [] + [tag] == [tag];
    out := AppendFrames(out, [tag], fields);
    assert ([tag] + fields)[1..] == fields;
  }

  lemma {:induction false} BigFramesAppend(xs: seq<bytes>, x: bytes)
    ensures BigFrames(xs + [x]) == BigFrames(xs) + BigFrame(x)
  {
    if xs == [] {
      assert [] + [x] == [x] && [x][1..] == [];
    } else {
      assert (xs + [x])[1..] == xs[1..] + [x];
      BigFramesAppend(xs[1..], x);
      Assoc(BigFrame(xs[0]), BigFrames(xs[1..]), BigFrame(x));
    }
  }

  method AppendBigFrames(out: bytes, xs: seq<bytes>) returns (r: bytes)
    ensures r == out + BigFrames(xs)
  {
    r := out;
    assert out + [] == out;
    for i := 0 to |xs|
      invariant r == out + BigFrames(xs[..i])
    {
      BigFramesAppend(xs[..i], xs[i]);
      assert xs[..i] + [xs[i]] == xs[..i + 1];
      Assoc(out, BigFrames(xs[..i]), BigFrame(xs[i]));
      Assoc(r, Be(|xs[i]|, 8), xs[i]);
      r := r + Be(|xs[i]|, 8);
      r := r + xs[i];
    }
    assert xs[..|xs|] == xs;
  }

  method AppendBigOpt(out: bytes, o: Option<bytes>) returns (r: bytes)
    ensures r == out + BigOpt(o)
  {
    if o.None? {
      return out + [0];
    }
    r := AppendBigFrames(out + [1], [o.value]);
    BigFramesAppend([], o.value);
    assert [] + [o.value] == [o.value];
    Assoc(out, [1], BigFrame(o.value));
  }

  lemma CommitmentJoin(tag: bytes, first: seq<bytes>, middle: bytes, last: bytes)
    ensures [] + BigFrames([tag] + first) + middle + last == BigFrame(tag) + (BigFrames(first) + (middle + last))
  {
    assert ([tag] + first)[1..] == first;
    Assoc(BigFrames([tag] + first), middle, last);
    Assoc(BigFrame(tag), BigFrames(first), middle + last);
  }

  /** Go's commitment builder: two loops with the optional predecessor between them. */
  method CommitmentPreimage(c: CommitmentFields) returns (out: bytes)
    requires Accepted(Commitment(c))
    ensures Build(Commitment(c)) == Some(out)
  {
    var tag, first := Tag(Commitment(c)), [c.id, c.action, c.authority];
    var last := [c.authMethod, c.trustBasis, c.committer, c.explanationDigest];
    out := AppendBigFrames([], [tag] + first);
    out := AppendBigOpt(out, c.supersedes);
    out := AppendBigFrames(out, last);
    CommitmentJoin(tag, first, BigOpt(c.supersedes), BigFrames(last));
  }

  lemma {:induction false} EntriesAppend(es: seq<Entry>, e: Entry)
    ensures EntriesBytes(es + [e]) == EntriesBytes(es) + EntryBytes(e)
  {
    if es == [] {
      assert es + [e] == [e];
      assert EntriesBytes([e]) == EntryBytes(e) + EntriesBytes([]);
    } else {
      assert (es + [e])[0] == es[0] && (es + [e])[1..] == es[1..] + [e];
      EntriesAppend(es[1..], e);
      Assoc(EntryBytes(es[0]), EntriesBytes(es[1..]), EntryBytes(e));
    }
  }

  /** An unknown kind, or a confidence that is not a double in [0, 1] (or is -0.0). */
  predicate Refused(e: Entry) {
    !KnownKind(e.kind) || (e.confidence.Some? && e.confidence.value > ONE_BITS)
  }

  method AnyRefused(entries: seq<Entry>) returns (refused: bool)
    ensures refused <==> exists i :: 0 <= i < |entries| && Refused(entries[i])
  {
    for i := 0 to |entries|
      invariant forall j :: 0 <= j < i ==> !Refused(entries[j])
    {
      if Refused(entries[i]) {
        return true;
      }
    }
    return false;
  }

  method AppendEntries(entries: seq<Entry>) returns (out: bytes)
    ensures out == EntriesBytes(entries)
  {
    out := [];
    for i := 0 to |entries|
      invariant out == EntriesBytes(entries[..i])
    {
      EntriesAppend(entries[..i], entries[i]);
      assert entries[..i] + [entries[i]] == entries[..i + 1];
      out := out + EntryBytes(entries[i]);
    }
    assert entries[..|entries|] == entries;
  }

  /** The explanation builder: one refused entry and there are no bytes at all. */
  method ExplanationPreimage(entries: seq<Entry>) returns (r: Option<bytes>)
    requires |entries| < U64
    requires forall i :: 0 <= i < |entries| ==> EntryInMemory(entries[i])
    ensures r == Build(Explanation(entries))
  {
    var refused := AnyRefused(entries);
    if refused {
      return None;
    }
    var rows := AppendEntries(entries);
    r := Some(BigFrame(Tag(Explanation(entries))) + (Be(|entries|, 8) + rows));
  }

  lemma {:induction false} BindingsAppend(bs: seq<Binding>, b: Binding)
    ensures BindingsBytes(bs + [b]) == BindingsBytes(bs) + BindingBytes(b)
  {
    if bs == [] {
      assert bs + [b] == [b];
      assert BindingsBytes([b]) == BindingBytes(b) + BindingsBytes([]);
    } else {
      assert (bs + [b])[0] == bs[0] && (bs + [b])[1..] == bs[1..] + [b];
      BindingsAppend(bs[1..], b);
      Assoc(BindingBytes(bs[0]), BindingsBytes(bs[1..]), BindingBytes(b));
    }
  }

  lemma BindingsStep(bs: seq<Binding>, i: nat)
    requires i < |bs|
    ensures BindingsBytes(bs[..i + 1]) == BindingsBytes(bs[..i]) + BindingBytes(bs[i])
  {
    BindingsAppend(bs[..i], bs[i]);
    assert bs[..i] + [bs[i]] == bs[..i + 1];
  }

  method AppendBindings(bindings: seq<Binding>) returns (rows: bytes)
    ensures rows == BindingsBytes(bindings)
  {
    rows := [];
    for i := 0 to |bindings|
      invariant rows == BindingsBytes(bindings[..i])
    {
      BindingsStep(bindings, i);
      rows := rows + BindingBytes(bindings[i]);
    }
    assert bindings[..|bindings|] == bindings;
  }

  /** Python's context builder: every binding is checked before any byte is written. */
  method ContextPreimage(bindings: seq<Binding>) returns (r: Option<bytes>)
    requires |bindings| < U32
    ensures r == Build(Context(bindings))
  {
    for i := 0 to |bindings|
      invariant forall j :: 0 <= j < i ==> BindingAccepted(bindings[j])
    {
      if !BindingAccepted(bindings[i]) {
        return None;
      }
    }
    var rows := AppendBindings(bindings);
    r := Some(Frame(Tag(Context(bindings))) + (Le(|bindings|, 4) + rows));
  }
}
