/** What a typed error reads off its trailing metadata: the Seam refusal, its retry delay, and whether the same
    call may simply be made again. */
module RpcErrors {
  import opened Bytes
  import opened Protobuf
  import opened Utf

  datatype MetaValue = TextValue(s: Text) | BytesValue(bs: bytes)

  /** gRPC status codes; the rest are mapped to classes that are never retryable. */
  datatype Code = Unavailable | FailedPrecondition | OtherCode

  datatype ErrorInfo = ErrorInfo(reason: Text, domain: Text, metadata: map<Text, Text>)

  datatype Delay = Raised | NoDelay | Delay(seconds: int, nanos: int)

  const STATUS_DETAILS_KEY: Text := Chars("grpc-status-details-bin")
  const ERROR_INFO_TYPE: Text := Chars("type.googleapis.com/google.rpc.ErrorInfo")
  const RETRY_INFO_TYPE: Text := Chars("type.googleapis.com/google.rpc.RetryInfo")
  const SEAM_ERROR_DOMAIN: Text := Chars("seam.zer07labs.com")
  const PROTOCOL_REASON: Text := Chars("PROTOCOL")
  const SESSION_UNAVAILABLE_REASON: Text := Chars("SESSION_UNAVAILABLE")
  const WRONG_CELL_REASON: Text := Chars("WRONG_CELL")
  const TENANT_MOVING_REASON: Text := Chars("TENANT_MOVING")
  const MACP_CODE: Text := Chars("macp_code")

  // ── Loops over fields ─────────────────────────────────────────────────────────────────────────

  /** A loop that overwrites its state field by field and may raise. */
  function Fold<S>(step: (S, Field) -> Option<S>, s: S, fields: seq<Field>): (r: Option<S>) {
    if fields == [] then Some(s)
    else if step(s, fields[0]).None? then None
    else Fold(step, step(s, fields[0]).value, fields[1..])
  }

  /** The loop over a whole message; a malformed message raises. */
  function Run<S>(step: (S, Field) -> Option<S>, s: S, buf: bytes): (r: Option<S>) {
    if Fields(buf).1 then Fold(step, s, Fields(buf).0) else None
  }

  predicate IsBlob(f: Field, number: nat) {
    f.number == number && f.wire == 2 && f.value.Blob?
  }

  predicate IsNumber(f: Field, number: nat) {
    f.number == number && f.wire == 0 && f.value.Number?
  }

  function AnyStep(s: (Text, bytes), f: Field): (r: Option<(Text, bytes)>) {
    if IsBlob(f, 1) then
      var url := Utf8Decode(f.value.bs);
      if url.None? then None else Some((url.value, s.1))
    else if IsBlob(f, 2) then Some((s.0, f.value.bs))
    else Some(s)
  }

  /** `google.protobuf.Any`: its type and its value, the last of each. */
  function AnyOf(buf: bytes): (r: Option<(Text, bytes)>) {
    Run(AnyStep, ([], []), buf)
  }

  function DetailStep(s: seq<(Text, bytes)>, f: Field): (r: Option<seq<(Text, bytes)>>) {
    if IsBlob(f, 3) then
      var any := AnyOf(f.value.bs);
      if any.None? then None else Some(s + [any.value])
    else Some(s)
  }

  /** The details of a status; a malformed one has none. */
  function StatusDetails(raw: bytes): (r: seq<(Text, bytes)>) {
    var details := Run(DetailStep, [], raw);
    if details.None? then [] else details.value
  }

  function EntryStep(s: (Text, Text), f: Field): (r: Option<(Text, Text)>) {
    if IsBlob(f, 1) || IsBlob(f, 2) then
      var text := Utf8Decode(f.value.bs);
      if text.None? then None else if f.number == 1 then Some((text.value, s.1)) else Some((s.0, text.value))
    else Some(s)
  }

  function EntryOf(buf: bytes): (r: Option<(Text, Text)>) {
    Run(EntryStep, ([], []), buf)
  }

  function InfoStep(s: ErrorInfo, f: Field): (r: Option<ErrorInfo>) {
    if IsBlob(f, 1) || IsBlob(f, 2) then
      var text := Utf8Decode(f.value.bs);
      if text.None? then None else if f.number == 1 then Some(s.(reason := text.value)) else Some(s.(domain := text.value))
    else if IsBlob(f, 3) then
      var entry := EntryOf(f.value.bs);
      if entry.None? then None else Some(s.(metadata := s.metadata[entry.value.0 := entry.value.1]))
    else Some(s)
  }

  function ErrorInfoOf(buf: bytes): (r: Option<ErrorInfo>) {
    Run(InfoStep, ErrorInfo([], [], map[]), buf)
  }

  const TWO_63: nat := 0x8000_0000_0000_0000
  const TWO_64: nat := 0x1_0000_0000_0000_0000

  function Signed64(n: nat): (r: int) {
    if n >= TWO_63 then n - TWO_64 else n
  }

  function DurationStep(s: (int, int), f: Field): (r: Option<(int, int)>) {
    if IsNumber(f, 1) then Some((Signed64(f.value.n), s.1))
    else if IsNumber(f, 2) then Some((s.0, Signed64(f.value.n)))
    else Some(s)
  }

  /** The first duration decides and nothing after it is read; without one, a malformed end raises. */
  function FirstDelay(fields: seq<Field>, ok: bool): (r: Delay) {
    if fields == [] then (if ok then NoDelay else Raised)
    else if IsBlob(fields[0], 1) then
      var d := Run(DurationStep, (0, 0), fields[0].value.bs);
      if d.None? then Raised else Delay(d.value.0, d.value.1)
    else FirstDelay(fields[1..], ok)
  }

  function RetryDelay(buf: bytes): (r: Delay) {
    FirstDelay(Fields(buf).0, Fields(buf).1)
  }

  // ── The typed error ───────────────────────────────────────────────────────────────────────────

  /** The last value under the status-details key; only ASCII letters have a case that can make a key match. */
  function StatusValue(trailing: seq<(Text, MetaValue)>): (r: Option<MetaValue>) {
    if trailing == [] then None
    else
      var last := trailing[|trailing| - 1];
      if Lower(last.0) == STATUS_DETAILS_KEY then Some(last.1) else StatusValue(trailing[..|trailing| - 1])
  }

  function Details(trailing: seq<(Text, MetaValue)>): (r: seq<(Text, bytes)>) {
    var raw := StatusValue(trailing);
    if raw.Some? && raw.value.BytesValue? then StatusDetails(raw.value.bs) else []
  }

  /** The first Seam-domain error detail; an unreadable one before it hides it. */
  function SeamInfo(details: seq<(Text, bytes)>): (r: Option<ErrorInfo>) {
    if details == [] then None
    else if details[0].0 != ERROR_INFO_TYPE then SeamInfo(details[1..])
    else
      var info := ErrorInfoOf(details[0].1);
      if info.None? then None
      else if info.value.domain == SEAM_ERROR_DOMAIN then info
      else SeamInfo(details[1..])
  }

  function Reason(trailing: seq<(Text, MetaValue)>): (r: Option<Text>) {
    var info := SeamInfo(Details(trailing));
    if info.None? then None else Some(info.value.reason)
  }

  function MacpCode(trailing: seq<(Text, MetaValue)>): (r: Option<Text>) {
    var info := SeamInfo(Details(trailing));
    if info.None? || info.value.reason != PROTOCOL_REASON || MACP_CODE !in info.value.metadata then None
    else Some(info.value.metadata[MACP_CODE])
  }

  function Seconds(seconds: int, nanos: int): (r: real) {
    seconds as real + nanos as real / 1_000_000_000.0
  }

  function FirstRetryInfo(details: seq<(Text, bytes)>): (r: Option<real>) {
    if details == [] then None
    else if details[0].0 != RETRY_INFO_TYPE then FirstRetryInfo(details[1..])
    else
      var d := RetryDelay(details[0].1);
      if d.Delay? then Some(Seconds(d.seconds, d.nanos)) else None
  }

  function RetryAfter(trailing: seq<(Text, MetaValue)>): (r: Option<real>) {
    FirstRetryInfo(Details(trailing))
  }

  predicate IsSessionUnavailable(code: Code, trailing: seq<(Text, MetaValue)>) {
    code.Unavailable? && Reason(trailing) == Some(SESSION_UNAVAILABLE_REASON)
  }

  predicate IsWrongCell(code: Code, trailing: seq<(Text, MetaValue)>) {
    code.FailedPrecondition? && Reason(trailing) == Some(WRONG_CELL_REASON)
  }

  predicate IsTenantMoving(code: Code, trailing: seq<(Text, MetaValue)>) {
    code.FailedPrecondition? && Reason(trailing) == Some(TENANT_MOVING_REASON)
  }

  predicate IsRetryable(code: Code, trailing: seq<(Text, MetaValue)>) {
    IsSessionUnavailable(code, trailing) || IsTenantMoving(code, trailing)
  }

  // ── The loops ─────────────────────────────────────────────────────────────────────────────────

  method ReadAny(buf: bytes) returns (r: Option<(Text, bytes)>)
    ensures r == AnyOf(buf)
  {
    var fields, ok := ReadFields(buf);
    var url: Text, value: bytes := [], [];
    for i := 0 to |fields|
      invariant Fold(AnyStep, (url, value), fields[i..]) == Fold(AnyStep, ([], []), fields)
    {
      var f := fields[i];
      assert fields[i..][1..] == fields[i + 1..];
      if f.number == 1 && f.wire == 2 && f.value.Blob? {
        var text := Utf8Decode(f.value.bs);
        if text.None? {
          return None;
        }
        url := text.value;
      } else if f.number == 2 && f.wire == 2 && f.value.Blob? {
        value := f.value.bs;
      }
    }
    r := if ok then Some((url, value)) else None;
  }

  method ReadStatusDetails(trailing: seq<(Text, MetaValue)>) returns (out: seq<(Text, bytes)>)
    ensures out == Details(trailing)
  {
    var raw := None;
    for i := 0 to |trailing|
      invariant raw == StatusValue(trailing[..i])
    {
      assert trailing[..i + 1] == trailing[..i] + [trailing[i]];
      if Lower(trailing[i].0) == STATUS_DETAILS_KEY {
        raw := Some(trailing[i].1);
      }
    }
    assert trailing[..|trailing|] == trailing;
    if raw.None? || !raw.value.BytesValue? {
      return [];
    }
    out := ReadDetails(raw.value.bs);
  }

  method ReadDetails(raw: bytes) returns (out: seq<(Text, bytes)>)
    ensures out == StatusDetails(raw)
  {
    var fields, ok := ReadFields(raw);
    out := [];
    for i := 0 to |fields|
      invariant Fold(DetailStep, out, fields[i..]) == Fold(DetailStep, [], fields)
    {
      assert fields[i..][1..] == fields[i + 1..];
      if fields[i].number == 3 && fields[i].wire == 2 && fields[i].value.Blob? {
        var any := ReadAny(fields[i].value.bs);
        if any.None? {
          return [];
        }
        out := out + [any.value];
      }
    }
    if !ok {
      out := [];
    }
  }

  method ReadEntry(buf: bytes) returns (r: Option<(Text, Text)>)
    ensures r == EntryOf(buf)
  {
    var fields, ok := ReadFields(buf);
    var key: Text, value: Text := [], [];
    for i := 0 to |fields|
      invariant Fold(EntryStep, (key, value), fields[i..]) == Fold(EntryStep, ([], []), fields)
    {
      var f := fields[i];
      assert fields[i..][1..] == fields[i + 1..];
      if IsBlob(f, 1) || IsBlob(f, 2) {
        var text := Utf8Decode(f.value.bs);
        if text.None? {
          return None;
        }
        if f.number == 1 {
          key := text.value;
        } else {
          value := text.value;
        }
      }
    }
    r := if ok then Some((key, value)) else None;
  }

  method DecodeErrorInfo(buf: bytes) returns (r: Option<ErrorInfo>)
    ensures r == ErrorInfoOf(buf)
  {
    var fields, ok := ReadFields(buf);
    var info := ErrorInfo([], [], map[]);
    for i := 0 to |fields|
      invariant Fold(InfoStep, info, fields[i..]) == Fold(InfoStep, ErrorInfo([], [], map[]), fields)
    {
      var f := fields[i];
      assert fields[i..][1..] == fields[i + 1..];
      if IsBlob(f, 1) || IsBlob(f, 2) {
        var text := Utf8Decode(f.value.bs);
        if text.None? {
          return None;
        }
        info := if f.number == 1 then info.(reason := text.value) else info.(domain := text.value);
      } else if IsBlob(f, 3) {
        var entry := ReadEntry(f.value.bs);
        if entry.None? {
          return None;
        }
        info := info.(metadata := info.metadata[entry.value.0 := entry.value.1]);
      }
    }
    r := if ok then Some(info) else None;
  }

  method DecodeRetryDelay(buf: bytes) returns (r: Delay)
    ensures r == RetryDelay(buf)
  {
    var fields, ok := ReadFields(buf);
    for i := 0 to |fields|
      invariant FirstDelay(fields[i..], ok) == FirstDelay(fields, ok)
    {
      assert fields[i..][1..] == fields[i + 1..];
      if IsBlob(fields[i], 1) {
        var d := ReadDuration(fields[i].value.bs);
        return if d.None? then Raised else Delay(d.value.0, d.value.1);
      }
    }
    r := if ok then NoDelay else Raised;
  }

  method ReadDuration(buf: bytes) returns (r: Option<(int, int)>)
    ensures r == Run(DurationStep, (0, 0), buf)
  {
    var fields, ok := ReadFields(buf);
    var seconds, nanos := 0, 0;
    for i := 0 to |fields|
      invariant Fold(DurationStep, (seconds, nanos), fields[i..]) == Fold(DurationStep, (0, 0), fields)
    {
      assert fields[i..][1..] == fields[i + 1..];
      if IsNumber(fields[i], 1) {
        seconds := Signed64(fields[i].value.n);
      } else if IsNumber(fields[i], 2) {
        nanos := Signed64(fields[i].value.n);
      }
    }
    r := if ok then Some((seconds, nanos)) else None;
  }

  // ── What a server's messages are read as ──────────────────────────────────────────────────────

  lemma {:induction false} FoldAppend<S>(step: (S, Field) -> Option<S>, s: S, a: seq<Field>, b: seq<Field>)
    ensures Fold(step, s, a + b) == var t := Fold(step, s, a); if t.None? then None else Fold(step, t.value, b)
  {
    if a == [] {
      assert [] + b == b;
    } else {
      assert (a + b)[1..] == a[1..] + b;
      if step(s, a[0]).Some? {
        FoldAppend(step, step(s, a[0]).value, a[1..], b);
      }
    }
  }

  lemma FoldOne<S>(step: (S, Field) -> Option<S>, s: S, f: Field)
    ensures Fold(step, s, [f]) == step(s, f)
  {
    assert [f][1..] == [];
  }

  /** A fold whose state after each field is known. */
  lemma {:induction false} FoldStates<S>(step: (S, Field) -> Option<S>, ws: seq<WireField>, states: seq<S>)
    requires |states| == |ws| + 1
    requires forall i :: 0 <= i < |ws| ==> step(states[i], AsRead(ws[i])) == Some(states[i + 1])
    ensures Fold(step, states[0], AllAsRead(ws)) == Some(states[|ws|])
  {
    if ws != [] {
      FoldStates(step, ws[1..], states[1..]);
    }
  }

  lemma RunEncoded<S>(step: (S, Field) -> Option<S>, s: S, ws: seq<WireField>)
    requires AllEncodable(ws)
    ensures Run(step, s, Encode(ws)) == Fold(step, s, AllAsRead(ws))
  {
    FieldsRoundTrip(ws);
  }

  lemma {:induction false} AsReadAppend(a: seq<WireField>, b: seq<WireField>)
    ensures AllAsRead(a + b) == AllAsRead(a) + AllAsRead(b)
  {
    if a == [] {
      assert [] + b == b;
    } else {
      assert (a + b)[1..] == a[1..] + b;
      AsReadAppend(a[1..], b);
    }
  }

  /** A field as proto3 writes it: not at all when empty. */
  function BlobField(number: nat, bs: bytes): (r: seq<WireField>) {
    if bs == [] then [] else [BytesField(number, bs)]
  }

  predicate Sized(bs: bytes) {
    |bs| < LIMIT
  }

  lemma BlobFieldRead(number: nat, bs: bytes)
    ensures AllAsRead(BlobField(number, bs)) == if bs == [] then [] else [Field(number, 2, Blob(bs))]
  {
    assert [BytesField(number, bs)][1..] == [];
  }

  /** Two such fields, folded over. */
  lemma FoldTwo<S>(step: (S, Field) -> Option<S>, s: S, a: bytes, b: bytes)
    requires a == [] ==> step(s, Field(1, 2, Blob(a))) == Some(s)
    requires step(s, Field(1, 2, Blob(a))).Some?
    requires b == [] ==> step(step(s, Field(1, 2, Blob(a))).value, Field(2, 2, Blob(b))) == step(s, Field(1, 2, Blob(a)))
    ensures Fold(step, s, AllAsRead(BlobField(1, a) + BlobField(2, b)))
         == step(step(s, Field(1, 2, Blob(a))).value, Field(2, 2, Blob(b)))
  {
    AsReadAppend(BlobField(1, a), BlobField(2, b));
    BlobFieldRead(1, a);
    BlobFieldRead(2, b);
    FoldAppend(step, s, AllAsRead(BlobField(1, a)), AllAsRead(BlobField(2, b)));
    FoldOne(step, s, Field(1, 2, Blob(a)));
    FoldOne(step, step(s, Field(1, 2, Blob(a))).value, Field(2, 2, Blob(b)));
  }

  lemma DecodesTo(s: Text)
    requires AllScalar(s)
    ensures Utf8Decode(Utf8(s)) == Some(s) && (Utf8(s) == [] <==> s == [])
  {
    Utf8RoundTrip(s);
  }

  function AnyFields(url: Text, value: bytes): (r: seq<WireField>)
    requires AllScalar(url)
  {
    BlobField(1, Utf8(url)) + BlobField(2, value)
  }

  lemma AnyFold(url: Text, value: bytes)
    requires AllScalar(url)
    ensures Fold(AnyStep, ([], []), AllAsRead(AnyFields(url, value))) == Some((url, value))
  {
    DecodesTo(url);
    FoldTwo(AnyStep, ([], []), Utf8(url), value);
  }

  lemma AnyRoundTrip(url: Text, value: bytes)
    requires AllScalar(url) && Sized(Utf8(url)) && Sized(value)
    ensures AnyOf(Encode(AnyFields(url, value))) == Some((url, value))
  {
    AnyFold(url, value);
    RunEncoded(AnyStep, ([], []), AnyFields(url, value));
  }

  function EntryFields(entry: (Text, Text)): (r: seq<WireField>)
    requires AllScalar(entry.0) && AllScalar(entry.1)
  {
    BlobField(1, Utf8(entry.0)) + BlobField(2, Utf8(entry.1))
  }

  predicate EntryOk(entry: (Text, Text)) {
    && AllScalar(entry.0) && AllScalar(entry.1) && Sized(Utf8(entry.0)) && Sized(Utf8(entry.1))
    && Sized(Encode(EntryFields(entry)))
  }

  lemma EntryFold(entry: (Text, Text))
    requires AllScalar(entry.0) && AllScalar(entry.1)
    ensures Fold(EntryStep, ([], []), AllAsRead(EntryFields(entry))) == Some(entry)
  {
    DecodesTo(entry.0);
    DecodesTo(entry.1);
    FoldTwo(EntryStep, ([], []), Utf8(entry.0), Utf8(entry.1));
  }

  lemma EntryRoundTrip(entry: (Text, Text))
    requires EntryOk(entry)
    ensures EntryOf(Encode(EntryFields(entry))) == Some(entry)
  {
    EntryFold(entry);
    RunEncoded(EntryStep, ([], []), EntryFields(entry));
  }

  /** A status message: its details, among fields the reader passes over. */
  datatype StatusPart = Detail(url: Text, value: bytes) | Unrelated(w: WireField)

  predicate PartOk(p: StatusPart) {
    match p
    case Detail(url, value) =>
      AllScalar(url) && Sized(Utf8(url)) && Sized(value) && Sized(Encode(AnyFields(url, value)))
    case Unrelated(w) => Encodable(w) && !(w.BytesField? && w.number == 3)
  }

  predicate AllPartsOk(parts: seq<StatusPart>) {
    forall i :: 0 <= i < |parts| ==> PartOk(parts[i])
  }

  function PartField(p: StatusPart): (r: WireField)
    requires PartOk(p)
  {
    match p
    case Detail(url, value) => BytesField(3, Encode(AnyFields(url, value)))
    case Unrelated(w) => w
  }

  function PartFields(parts: seq<StatusPart>): (r: seq<WireField>)
    requires AllPartsOk(parts)
    ensures |r| == |parts| && AllEncodable(r)
    ensures forall i :: 0 <= i < |parts| ==> r[i] == PartField(parts[i])
  {
    seq(|parts|, i requires 0 <= i < |parts| => PartField(parts[i]))
  }

  function DetailsIn(parts: seq<StatusPart>): (r: seq<(Text, bytes)>) {
    if parts == [] then []
    else if parts[0].Detail? then [(parts[0].url, parts[0].value)] + DetailsIn(parts[1..])
    else DetailsIn(parts[1..])
  }

  lemma PartStep(p: StatusPart, out: seq<(Text, bytes)>)
    requires PartOk(p)
    ensures DetailStep(out, AsRead(PartField(p))) == Some(Listed(out, p))
  {
    if p.Detail? {
      AnyRoundTrip(p.url, p.value);
    }
  }

  /** The list after each part. */
  ghost function DetailStates(parts: seq<StatusPart>, out: seq<(Text, bytes)>): (r: seq<seq<(Text, bytes)>>)
    ensures |r| == |parts| + 1 && r[0] == out && r[|parts|] == out + DetailsIn(parts)
    ensures forall i :: 0 <= i < |parts| ==> r[i + 1] == Listed(r[i], parts[i])
    decreases parts
  {
    if parts == [] then
      assert out + [] == out;
      [out]
    else
      assert Listed(out, parts[0]) + DetailsIn(parts[1..]) == out + DetailsIn(parts);
      [out] + DetailStates(parts[1..], Listed(out, parts[0]))
  }

  function Listed(out: seq<(Text, bytes)>, p: StatusPart): (r: seq<(Text, bytes)>) {
    if p.Detail? then out + [(p.url, p.value)] else out
  }

  lemma PartsFold(parts: seq<StatusPart>)
    requires AllPartsOk(parts)
    ensures Fold(DetailStep, [], AllAsRead(PartFields(parts))) == Some(DetailsIn(parts))
  {
    var states := DetailStates(parts, []);
    forall i | 0 <= i < |parts| ensures DetailStep(states[i], AsRead(PartFields(parts)[i])) == Some(states[i + 1]) {
      PartStep(parts[i], states[i]);
    }
    FoldStates(DetailStep, PartFields(parts), states);
    assert [] + DetailsIn(parts) == DetailsIn(parts);
  }

  /** Every status a server encodes is read back as its details, in order, whatever stands between them. */
  lemma StatusRoundTrip(parts: seq<StatusPart>)
    requires AllPartsOk(parts)
    ensures StatusDetails(Encode(PartFields(parts))) == DetailsIn(parts)
  {
    RunEncoded(DetailStep, [], PartFields(parts));
    PartsFold(parts);
  }

  predicate AllEntriesOk(entries: seq<(Text, Text)>) {
    forall i :: 0 <= i < |entries| ==> EntryOk(entries[i])
  }

  function EntriesFields(entries: seq<(Text, Text)>): (r: seq<WireField>)
    requires AllEntriesOk(entries)
    ensures |r| == |entries| && AllEncodable(r)
    ensures forall i :: 0 <= i < |entries| ==> r[i] == BytesField(3, Encode(EntryFields(entries[i])))
  {
    seq(|entries|, i requires 0 <= i < |entries| => BytesField(3, Encode(EntryFields(entries[i]))))
  }

  /** Later entries replace earlier ones. */
  function Updated(m: map<Text, Text>, entries: seq<(Text, Text)>): (r: map<Text, Text>)
    decreases entries
  {
    if entries == [] then m else Updated(m[entries[0].0 := entries[0].1], entries[1..])
  }

  function WithEntry(info: ErrorInfo, e: (Text, Text)): (r: ErrorInfo) {
    info.(metadata := info.metadata[e.0 := e.1])
  }

  ghost function InfoStates(info: ErrorInfo, entries: seq<(Text, Text)>): (r: seq<ErrorInfo>)
    ensures |r| == |entries| + 1 && r[0] == info
    ensures r[|entries|] == info.(metadata := Updated(info.metadata, entries))
    ensures forall i :: 0 <= i < |entries| ==> r[i + 1] == WithEntry(r[i], entries[i])
    decreases entries
  {
    if entries == [] then [info] else [info] + InfoStates(WithEntry(info, entries[0]), entries[1..])
  }

  lemma EntryStepOf(info: ErrorInfo, e: (Text, Text))
    requires EntryOk(e)
    ensures InfoStep(info, AsRead(BytesField(3, Encode(EntryFields(e))))) == Some(WithEntry(info, e))
  {
    EntryRoundTrip(e);
  }

  lemma EntriesFold(info: ErrorInfo, entries: seq<(Text, Text)>)
    requires AllEntriesOk(entries)
    ensures Fold(InfoStep, info, AllAsRead(EntriesFields(entries)))
         == Some(info.(metadata := Updated(info.metadata, entries)))
  {
    var states := InfoStates(info, entries);
    forall i | 0 <= i < |entries| ensures InfoStep(states[i], AsRead(EntriesFields(entries)[i])) == Some(states[i + 1]) {
      EntryStepOf(states[i], entries[i]);
    }
    FoldStates(InfoStep, EntriesFields(entries), states);
  }

  predicate InfoOk(reason: Text, domain: Text, entries: seq<(Text, Text)>) {
    && AllScalar(reason) && AllScalar(domain) && Sized(Utf8(reason)) && Sized(Utf8(domain))
    && AllEntriesOk(entries)
  }

  function InfoFields(reason: Text, domain: Text, entries: seq<(Text, Text)>): (r: seq<WireField>)
    requires InfoOk(reason, domain, entries)
  {
    BlobField(1, Utf8(reason)) + BlobField(2, Utf8(domain)) + EntriesFields(entries)
  }

  lemma InfoStrings(reason: Text, domain: Text)
    requires AllScalar(reason) && AllScalar(domain)
    ensures Fold(InfoStep, ErrorInfo([], [], map[]), AllAsRead(BlobField(1, Utf8(reason)) + BlobField(2, Utf8(domain))))
         == Some(ErrorInfo(reason, domain, map[]))
  {
    DecodesTo(reason);
    DecodesTo(domain);
    FoldTwo(InfoStep, ErrorInfo([], [], map[]), Utf8(reason), Utf8(domain));
  }

  lemma InfoFold(reason: Text, domain: Text, entries: seq<(Text, Text)>)
    requires InfoOk(reason, domain, entries)
    ensures Fold(InfoStep, ErrorInfo([], [], map[]), AllAsRead(InfoFields(reason, domain, entries)))
         == Some(ErrorInfo(reason, domain, Updated(map[], entries)))
  {
    var strings, ms := BlobField(1, Utf8(reason)) + BlobField(2, Utf8(domain)), EntriesFields(entries);
    AsReadAppend(strings, ms);
    FoldAppend(InfoStep, ErrorInfo([], [], map[]), AllAsRead(strings), AllAsRead(ms));
    InfoStrings(reason, domain);
    EntriesFold(ErrorInfo(reason, domain, map[]), entries);
  }

  /** An `ErrorInfo` is read back: its reason, its domain and its metadata, the last of each key. */
  lemma ErrorInfoRoundTrip(reason: Text, domain: Text, entries: seq<(Text, Text)>)
    requires InfoOk(reason, domain, entries)
    ensures ErrorInfoOf(Encode(InfoFields(reason, domain, entries)))
         == Some(ErrorInfo(reason, domain, Updated(map[], entries)))
  {
    InfoFold(reason, domain, entries);
    RunEncoded(InfoStep, ErrorInfo([], [], map[]), InfoFields(reason, domain, entries));
  }

  /** Two's complement of a 64-bit integer, as protobuf writes it. */
  function Unsigned64(n: int): (r: nat)
    requires -0x8000_0000_0000_0000 <= n < 0x8000_0000_0000_0000
    ensures r < TWO_64 && Signed64(r) == n
  {
    if n < 0 then n + TWO_64 else n
  }

  function NumberField(number: nat, n: int): (r: seq<WireField>)
    requires -0x8000_0000_0000_0000 <= n < 0x8000_0000_0000_0000
  {
    if n == 0 then [] else [VarintField(number, Unsigned64(n))]
  }

  predicate Int64(n: int) {
    -0x8000_0000_0000_0000 <= n < 0x8000_0000_0000_0000
  }

  function DurationFields(seconds: int, nanos: int): (r: seq<WireField>)
    requires Int64(seconds) && Int64(nanos)
  {
    NumberField(1, seconds) + NumberField(2, nanos)
  }

  lemma NumberFold(number: nat, n: int, s: (int, int))
    requires Int64(n) && (number == 1 || number == 2) && (if number == 1 then s.0 == 0 else s.1 == 0)
    ensures Fold(DurationStep, s, AllAsRead(NumberField(number, n))) == Some(if number == 1 then (n, s.1) else (s.0, n))
  {
    if n != 0 {
      assert [VarintField(number, Unsigned64(n))][1..] == [];
      FoldOne(DurationStep, s, Field(number, 0, Number(Unsigned64(n))));
    }
  }

  /** A duration is read back, negative ones included. */
  lemma DurationRoundTrip(seconds: int, nanos: int)
    requires Int64(seconds) && Int64(nanos)
    ensures Run(DurationStep, (0, 0), Encode(DurationFields(seconds, nanos))) == Some((seconds, nanos))
  {
    RunEncoded(DurationStep, (0, 0), DurationFields(seconds, nanos));
    AsReadAppend(NumberField(1, seconds), NumberField(2, nanos));
    FoldAppend(DurationStep, (0, 0), AllAsRead(NumberField(1, seconds)), AllAsRead(NumberField(2, nanos)));
    NumberFold(1, seconds, (0, 0));
    NumberFold(2, nanos, (seconds, 0));
  }

  lemma {:induction false} FirstDelayAfter(before: seq<Field>, f: Field, after: seq<Field>, ok: bool)
    requires (forall b :: b in before ==> !IsBlob(b, 1)) && IsBlob(f, 1)
    ensures FirstDelay(before + [f] + after, ok) == FirstDelay([f], true)
  {
    if before == [] {
      assert [] + [f] + after == [f] + after;
    } else {
      assert (before + [f] + after)[0] == before[0] && (before + [f] + after)[1..] == before[1..] + [f] + after;
      FirstDelayAfter(before[1..], f, after, ok);
    }
  }

  /** A `RetryInfo` is read back from its first delay, whatever fields stand around it. */
  lemma RetryInfoRoundTrip(before: seq<WireField>, seconds: int, nanos: int, after: seq<WireField>)
    requires Int64(seconds) && Int64(nanos) && Sized(Encode(DurationFields(seconds, nanos)))
    requires AllEncodable(before) && AllEncodable(after)
    requires forall b :: b in AllAsRead(before) ==> !IsBlob(b, 1)
    ensures RetryDelay(Encode(before + [BytesField(1, Encode(DurationFields(seconds, nanos)))] + after))
         == Delay(seconds, nanos)
  {
    var w := BytesField(1, Encode(DurationFields(seconds, nanos)));
    FieldsRoundTrip(before + [w] + after);
    AsReadAppend(before + [w], after);
    AsReadAppend(before, [w]);
    assert AllAsRead([w]) == [AsRead(w)] by { assert [w][1..] == []; }
    FirstDelayAfter(AllAsRead(before), AsRead(w), AllAsRead(after), true);
    DurationRoundTrip(seconds, nanos);
  }

  // ── End to end ────────────────────────────────────────────────────────────────────────────────

  /** Trailing metadata whose last status-details entry is the given value. */
  ghost predicate CarriesValue(trailing: seq<(Text, MetaValue)>, value: MetaValue) {
    exists i :: 0 <= i < |trailing| && Lower(trailing[i].0) == Chars("grpc-status-details-bin") && trailing[i].1 == value
      && forall j :: i < j < |trailing| ==> Lower(trailing[j].0) != Chars("grpc-status-details-bin")
  }

  ghost predicate Carries(trailing: seq<(Text, MetaValue)>, raw: bytes) {
    CarriesValue(trailing, BytesValue(raw))
  }

  /** The last status-details entry is the one read, and without any there is none. */
  lemma {:induction false} CarriedStatus(trailing: seq<(Text, MetaValue)>, value: MetaValue)
    ensures CarriesValue(trailing, value) ==> StatusValue(trailing) == Some(value)
    ensures (forall i :: 0 <= i < |trailing| ==> Lower(trailing[i].0) != Chars("grpc-status-details-bin")) ==> StatusValue(trailing) == None
    decreases |trailing|
  {
    if trailing != [] && Lower(trailing[|trailing| - 1].0) != STATUS_DETAILS_KEY {
      var n := |trailing| - 1;
      var init := trailing[..n];
      CarriedStatus(init, value);
      if CarriesValue(trailing, value) {
        var i :| 0 <= i < |trailing| && Lower(trailing[i].0) == Chars("grpc-status-details-bin") && trailing[i].1 == value
          && forall j :: i < j < |trailing| ==> Lower(trailing[j].0) != Chars("grpc-status-details-bin");
        assert init[i] == trailing[i];
      }
    }
  }

  /** Without a status, or with a status sent as text, there are no details. */
  lemma NoDetails(trailing: seq<(Text, MetaValue)>, text: Text)
    requires CarriesValue(trailing, TextValue(text)) ||
             forall i :: 0 <= i < |trailing| ==> Lower(trailing[i].0) != Chars("grpc-status-details-bin")
    ensures Details(trailing) == [] && Reason(trailing) == None && RetryAfter(trailing) == None
  {
    CarriedStatus(trailing, TextValue(text));
  }

  /** A detail that is no error info, or a readable one from another domain. */
  predicate Foreign(d: (Text, bytes)) {
    || d.0 != Chars("type.googleapis.com/google.rpc.ErrorInfo")
    || (ErrorInfoOf(d.1).Some? && ErrorInfoOf(d.1).value.domain != Chars("seam.zer07labs.com"))
  }

  /** The first detail that is not foreign decides: a Seam error info is the answer, an unreadable one hides any
      after it. */
  lemma {:induction false} SeamInfoAfter(before: seq<(Text, bytes)>, value: bytes, after: seq<(Text, bytes)>)
    requires (forall d :: d in before ==> Foreign(d)) && !Foreign((ERROR_INFO_TYPE, value))
    ensures SeamInfo(before + [(ERROR_INFO_TYPE, value)] + after) == ErrorInfoOf(value)
  {
    var details := before + [(ERROR_INFO_TYPE, value)] + after;
    if before == [] {
      assert details[0] == (ERROR_INFO_TYPE, value);
    } else {
      assert details[0] == before[0] && details[1..] == before[1..] + [(ERROR_INFO_TYPE, value)] + after;
      assert Foreign(before[0]);
      SeamInfoAfter(before[1..], value, after);
    }
  }

  lemma {:induction false} NoSeamInfo(details: seq<(Text, bytes)>)
    requires forall i :: 0 <= i < |details| ==> Foreign(details[i])
    ensures SeamInfo(details) == None
  {
    if details != [] {
      NoSeamInfo(details[1..]);
    }
  }

  lemma InfoCarried(trailing: seq<(Text, MetaValue)>, raw: bytes, before: seq<(Text, bytes)>, value: bytes,
                    after: seq<(Text, bytes)>, info: ErrorInfo)
    requires Carries(trailing, raw) && StatusDetails(raw) == before + [(ERROR_INFO_TYPE, value)] + after
    requires forall d :: d in before ==> Foreign(d)
    requires ErrorInfoOf(value) == Some(info) && info.domain == SEAM_ERROR_DOMAIN
    ensures SeamInfo(Details(trailing)) == Some(info)
  {
    CarriedStatus(trailing, BytesValue(raw));
    SeamInfoAfter(before, value, after);
  }

  lemma ReasonsClassified(code: Code, trailing: seq<(Text, MetaValue)>, info: ErrorInfo)
    requires SeamInfo(Details(trailing)) == Some(info)
    ensures Reason(trailing) == Some(info.reason)
    ensures IsRetryable(code, trailing) <==> RetryableReason(code, info.reason)
    ensures IsWrongCell(code, trailing) <==> code.FailedPrecondition? && info.reason == Chars("WRONG_CELL")
    ensures !(IsRetryable(code, trailing) && IsWrongCell(code, trailing))
    ensures MacpCode(trailing)
         == if info.reason == PROTOCOL_REASON && MACP_CODE in info.metadata then Some(info.metadata[MACP_CODE]) else None
  {
    assert |WRONG_CELL_REASON| == 10 && |TENANT_MOVING_REASON| == 13;
  }

  /** The two refusals whose remedy is the same call again. */
  predicate RetryableReason(code: Code, reason: Text) {
    match code
    case Unavailable => reason == Chars("SESSION_UNAVAILABLE")
    case FailedPrecondition => reason == Chars("TENANT_MOVING")
    case OtherCode => false
  }

  /** A refusal sent with reason `reason` is classified by that reason and the status code alone: it may simply be
      made again exactly for an unavailable session or a moving tenant, and it is a wrong cell exactly when it says
      so; a protocol refusal carries the code the server sent. */
  lemma RefusalClassified(
    code: Code, trailing: seq<(Text, MetaValue)>, parts: seq<StatusPart>, before: seq<(Text, bytes)>,
    after: seq<(Text, bytes)>, reason: Text, entries: seq<(Text, Text)>)
    requires AllPartsOk(parts) && Carries(trailing, Encode(PartFields(parts)))
    requires InfoOk(reason, SEAM_ERROR_DOMAIN, entries) && forall d :: d in before ==> Foreign(d)
    requires DetailsIn(parts)
          == before + [(Chars("type.googleapis.com/google.rpc.ErrorInfo"), Encode(InfoFields(reason, Chars("seam.zer07labs.com"), entries)))] + after
    ensures Reason(trailing) == Some(reason)
    ensures IsRetryable(code, trailing) <==> RetryableReason(code, reason)
    ensures IsWrongCell(code, trailing) <==> code.FailedPrecondition? && reason == Chars("WRONG_CELL")
    ensures !(IsRetryable(code, trailing) && IsWrongCell(code, trailing))
    ensures MacpCode(trailing)
         == if reason == Chars("PROTOCOL") && Chars("macp_code") in Updated(map[], entries)
            then Some(Updated(map[], entries)[Chars("macp_code")]) else None
  {
    var info := ErrorInfo(reason, SEAM_ERROR_DOMAIN, Updated(map[], entries));
    StatusRoundTrip(parts);
    ErrorInfoRoundTrip(reason, SEAM_ERROR_DOMAIN, entries);
    InfoCarried(trailing, Encode(PartFields(parts)), before,
                Encode(InfoFields(reason, SEAM_ERROR_DOMAIN, entries)), after, info);
    ReasonsClassified(code, trailing, info);
  }

  /** The first retry info decides, whether it says a delay or not. */
  lemma {:induction false} FirstRetryInfoAfter(before: seq<(Text, bytes)>, value: bytes, after: seq<(Text, bytes)>)
    requires forall d :: d in before ==> d.0 != RETRY_INFO_TYPE
    ensures FirstRetryInfo(before + [(RETRY_INFO_TYPE, value)] + after)
         == var d := RetryDelay(value); if d.Delay? then Some(Seconds(d.seconds, d.nanos)) else None
  {
    var details := before + [(RETRY_INFO_TYPE, value)] + after;
    if before == [] {
      assert details[0] == (RETRY_INFO_TYPE, value);
    } else {
      assert details[0] == before[0] && details[1..] == before[1..] + [(RETRY_INFO_TYPE, value)] + after;
      FirstRetryInfoAfter(before[1..], value, after);
    }
  }

  lemma RetryAfterOf(trailing: seq<(Text, MetaValue)>, raw: bytes, before: seq<(Text, bytes)>, value: bytes,
                     after: seq<(Text, bytes)>)
    requires Carries(trailing, raw) && StatusDetails(raw) == before + [(RETRY_INFO_TYPE, value)] + after
    requires forall d :: d in before ==> d.0 != RETRY_INFO_TYPE
    ensures RetryAfter(trailing)
         == var d := RetryDelay(value); if d.Delay? then Some(Seconds(d.seconds, d.nanos)) else None
  {
    CarriedStatus(trailing, BytesValue(raw));
    FirstRetryInfoAfter(before, value, after);
  }

  function RetryInfoBytes(seconds: int, nanos: int): (r: bytes)
    requires Int64(seconds) && Int64(nanos)
  {
    Encode([BytesField(1, Encode(DurationFields(seconds, nanos)))])
  }

  lemma RetryInfoBytesRead(seconds: int, nanos: int)
    requires Int64(seconds) && Int64(nanos) && Sized(Encode(DurationFields(seconds, nanos)))
    ensures RetryDelay(RetryInfoBytes(seconds, nanos)) == Delay(seconds, nanos)
  {
    var field := BytesField(1, Encode(DurationFields(seconds, nanos)));
    RetryInfoRoundTrip([], seconds, nanos, []);
    assert [] + [field] + [] == [field];
  }

  /** The delay the server asked for is the delay the caller is told. */
  lemma RetryAfterReadBack(
    trailing: seq<(Text, MetaValue)>, parts: seq<StatusPart>, before: seq<(Text, bytes)>, after: seq<(Text, bytes)>,
    seconds: int, nanos: int)
    requires AllPartsOk(parts) && Carries(trailing, Encode(PartFields(parts)))
    requires Int64(seconds) && Int64(nanos) && Sized(Encode(DurationFields(seconds, nanos)))
    requires forall d :: d in before ==> d.0 != RETRY_INFO_TYPE
    requires DetailsIn(parts) == before + [(Chars("type.googleapis.com/google.rpc.RetryInfo"), RetryInfoBytes(seconds, nanos))] + after
    ensures RetryAfter(trailing).Some? && 1_000_000_000.0 * RetryAfter(trailing).value == 1_000_000_000.0 * seconds as real + nanos as real
  {
    StatusRoundTrip(parts);
    RetryInfoBytesRead(seconds, nanos);
    RetryAfterOf(trailing, Encode(PartFields(parts)), before, RetryInfoBytes(seconds, nanos), after);
  }

  // ── Malformed statuses ────────────────────────────────────────────────────────────────────────

  predicate Occurs(p: Field -> bool, fields: seq<Field>) {
    exists i :: 0 <= i < |fields| && p(fields[i])
  }

  lemma OccursFirstOrLater(p: Field -> bool, fields: seq<Field>)
    requires fields != []
    ensures Occurs(p, fields) <==> p(fields[0]) || Occurs(p, fields[1..])
  {
    if p(fields[0]) {
      assert Occurs(p, fields);
    } else {
      assert forall i :: 0 < i < |fields| ==> fields[i] == fields[1..][i - 1];
    }
  }

  /** A loop whose step raises on certain fields, whatever its state, raises exactly when one of them comes. */
  lemma {:induction false} FoldRaises<S(!new)>(step: (S, Field) -> Option<S>, s: S, fields: seq<Field>, bad: Field -> bool)
    requires forall t: S, f: Field :: step(t, f).None? <==> bad(f)
    ensures Fold(step, s, fields).None? <==> Occurs(bad, fields)
    decreases |fields|
  {
    if fields != [] {
      OccursFirstOrLater(bad, fields);
      if !bad(fields[0]) {
        FoldRaises(step, step(s, fields[0]).value, fields[1..], bad);
      }
    }
  }

  /** A type URL that is not UTF-8. */
  predicate BadUrl(f: Field) {
    IsBlob(f, 1) && Utf8Decode(f.value.bs).None?
  }

  predicate BadAny(buf: bytes) {
    !Fields(buf).1 || Occurs(BadUrl, Fields(buf).0)
  }

  predicate BadDetail(f: Field) {
    IsBlob(f, 3) && BadAny(f.value.bs)
  }

  /** The status, one of its details, or the type URL of one is not well formed. */
  predicate Malformed(raw: bytes) {
    !Fields(raw).1 || Occurs(BadDetail, Fields(raw).0)
  }

  predicate IsDetail(f: Field) {
    IsBlob(f, 3)
  }

  lemma AnyRaises(buf: bytes)
    ensures AnyOf(buf).None? <==> BadAny(buf)
  {
    FoldRaises(AnyStep, ([], []), Fields(buf).0, BadUrl);
  }

  lemma StatusRaises(raw: bytes)
    ensures Run(DetailStep, [], raw).None? <==> Malformed(raw)
  {
    forall f: Field | IsBlob(f, 3) ensures AnyOf(f.value.bs).None? <==> BadAny(f.value.bs) {
      AnyRaises(f.value.bs);
    }
    FoldRaises(DetailStep, [], Fields(raw).0, BadDetail);
  }

  /** A key, value, reason or domain that is not UTF-8. */
  predicate BadText(f: Field) {
    (IsBlob(f, 1) || IsBlob(f, 2)) && Utf8Decode(f.value.bs).None?
  }

  predicate BadEntry(f: Field) {
    IsBlob(f, 3) && (!Fields(f.value.bs).1 || Occurs(BadText, Fields(f.value.bs).0))
  }

  predicate BadInfoField(f: Field) {
    BadText(f) || BadEntry(f)
  }

  lemma EntryRaises(buf: bytes)
    ensures EntryOf(buf).None? <==> !Fields(buf).1 || Occurs(BadText, Fields(buf).0)
  {
    FoldRaises(EntryStep, ([], []), Fields(buf).0, BadText);
  }

  /** An error info is unreadable exactly when it, a metadata entry or a text of either is malformed. */
  lemma InfoRaises(buf: bytes)
    ensures ErrorInfoOf(buf).None? <==> !Fields(buf).1 || Occurs(BadInfoField, Fields(buf).0)
  {
    forall f: Field | IsBlob(f, 3) ensures EntryOf(f.value.bs).None? <==> BadEntry(f) {
      EntryRaises(f.value.bs);
    }
    FoldRaises(InfoStep, ErrorInfo([], [], map[]), Fields(buf).0, BadInfoField);
  }

  /** Without a duration there is no delay, and a malformed retry info is unreadable unless a duration comes first. */
  lemma {:induction false} NoDuration(fields: seq<Field>, ok: bool)
    requires forall f :: f in fields ==> !IsBlob(f, 1)
    ensures FirstDelay(fields, ok) == if ok then NoDelay else Raised
  {
    if fields != [] {
      NoDuration(fields[1..], ok);
    }
  }

  // ── Repeated fields: the last one wins ────────────────────────────────────────────────────────

  /** The last bytes under a field number. */
  function LastBlob(fields: seq<Field>, number: nat): (r: Option<bytes>) {
    if fields == [] then None
    else
      var later := LastBlob(fields[1..], number);
      if later.Some? then later else if IsBlob(fields[0], number) then Some(fields[0].value.bs) else None
  }

  /** The last integer under a field number. */
  function LastNumber(fields: seq<Field>, number: nat): (r: Option<nat>) {
    if fields == [] then None
    else
      var later := LastNumber(fields[1..], number);
      if later.Some? then later else if IsNumber(fields[0], number) then Some(fields[0].value.n) else None
  }

  function TextOr(bs: Option<bytes>, before: Text): (r: Text) {
    if bs.None? then before else if Utf8Decode(bs.value).Some? then Utf8Decode(bs.value).value else []
  }

  lemma {:induction false} AnyIsLast(s: (Text, bytes), fields: seq<Field>)
    requires Fold(AnyStep, s, fields).Some?
    ensures Fold(AnyStep, s, fields).value
         == (TextOr(LastBlob(fields, 1), s.0), if LastBlob(fields, 2).Some? then LastBlob(fields, 2).value else s.1)
    decreases |fields|
  {
    if fields != [] {
      AnyIsLast(AnyStep(s, fields[0]).value, fields[1..]);
    }
  }

  lemma {:induction false} EntryIsLast(s: (Text, Text), fields: seq<Field>)
    requires Fold(EntryStep, s, fields).Some?
    ensures Fold(EntryStep, s, fields).value == (TextOr(LastBlob(fields, 1), s.0), TextOr(LastBlob(fields, 2), s.1))
    decreases |fields|
  {
    if fields != [] {
      EntryIsLast(EntryStep(s, fields[0]).value, fields[1..]);
    }
  }

  /** A reason and a domain are the last ones sent. */
  lemma {:induction false} InfoIsLast(s: ErrorInfo, fields: seq<Field>)
    requires Fold(InfoStep, s, fields).Some?
    ensures Fold(InfoStep, s, fields).value.reason == TextOr(LastBlob(fields, 1), s.reason)
    ensures Fold(InfoStep, s, fields).value.domain == TextOr(LastBlob(fields, 2), s.domain)
    decreases |fields|
  {
    if fields != [] {
      InfoIsLast(InfoStep(s, fields[0]).value, fields[1..]);
    }
  }

  lemma {:induction false} DurationIsLast(s: (int, int), fields: seq<Field>)
    ensures var r := Fold(DurationStep, s, fields);
            && r.Some?
            && r.value.0 == (if LastNumber(fields, 1).Some? then Signed64(LastNumber(fields, 1).value) else s.0)
            && r.value.1 == (if LastNumber(fields, 2).Some? then Signed64(LastNumber(fields, 2).value) else s.1)
    decreases |fields|
  {
    if fields != [] {
      DurationIsLast(DurationStep(s, fields[0]).value, fields[1..]);
    }
  }

  lemma {:induction false} DetailsCounted(s: seq<(Text, bytes)>, fields: seq<Field>)
    requires Fold(DetailStep, s, fields).Some?
    ensures |Fold(DetailStep, s, fields).value| >= |s|
    ensures |Fold(DetailStep, s, fields).value| > |s| <==> Occurs(IsDetail, fields)
    decreases |fields|
  {
    if fields != [] {
      OccursFirstOrLater(IsDetail, fields);
      DetailsCounted(DetailStep(s, fields[0]).value, fields[1..]);
    }
  }

  /** The details are empty exactly when the status has none or anything of it is malformed: one bad detail takes
      all of them along. Then there is no reason and no delay, so reading metadata never replaces the error it is
      about. */
  lemma MalformedStatusIsEmpty(trailing: seq<(Text, MetaValue)>, raw: bytes)
    requires Carries(trailing, raw)
    ensures Details(trailing) == [] <==> Malformed(raw) || !Occurs(IsDetail, Fields(raw).0)
    ensures Details(trailing) == [] ==> Reason(trailing) == None && RetryAfter(trailing) == None
  {
    CarriedStatus(trailing, BytesValue(raw));
    StatusRaises(raw);
    if !Malformed(raw) {
      DetailsCounted([], Fields(raw).0);
    }
  }
}
