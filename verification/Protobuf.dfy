/** The hand-written protobuf reader: varints, fields, and what every encoding decodes to. */
module Protobuf {
  import opened Bytes

  /** A varint stops after ten bytes: the shift may not pass 63. */
  const MAX_VARINT: nat := 10

  datatype Value = Number(n: nat) | Blob(bs: bytes) | Skipped

  datatype Field = Field(number: nat, wire: nat, value: Value)

  /** Ten bytes of seven bits. */
  const LIMIT: nat := 0x40_0000_0000_0000_0000

  function Pow128(k: nat): (r: nat)
    ensures r > 0
  {
    if k == 0 then 1 else 128 * Pow128(k - 1)
  }

  // ── Varints ───────────────────────────────────────────────────────────────────────────────────

  /** The number at the front and its width, seven bits a byte, lowest first; none when the buffer ends inside it
      or it is longer than `room` bytes. */
  function Varint(bs: bytes, room: nat): (r: Option<(nat, nat)>)
    ensures r.Some? ==> 1 <= r.value.1 <= |bs|
    decreases |bs|
  {
    if bs == [] || room == 0 then None
    else if bs[0] < 128 then Some((bs[0], 1))
    else
      var rest := Varint(bs[1..], room - 1);
      if rest.None? then None else Some((bs[0] - 128 + 128 * rest.value.0, 1 + rest.value.1))
  }

  function EncodeVarint(n: nat): (r: bytes)
    ensures r != []
  {
    if n < 128 then [n] else [128 + n % 128] + EncodeVarint(n / 128)
  }

  /** Decoding an encoded number gives the number, up to seventy bits. */
  lemma {:induction false} VarintRoundTrip(n: nat, room: nat, rest: bytes)
    requires room > 0 && n < Pow128(room)
    ensures Varint(EncodeVarint(n) + rest, room) == Some((n, |EncodeVarint(n)|))
    decreases room
  {
    var bs := EncodeVarint(n) + rest;
    if n >= 128 {
      assert n / 128 < Pow128(room - 1) by { QuotientBound(n, Pow128(room - 1)); }
      VarintRoundTrip(n / 128, room - 1, rest);
      assert bs[0] == 128 + n % 128 && bs[1..] == EncodeVarint(n / 128) + rest;
    }
  }

  /** Seven bits a byte, lowest first. */
  function SevenBits(bs: bytes): (n: nat) {
    if bs == [] then 0 else bs[0] % 128 + 128 * SevenBits(bs[1..])
  }

  /** What a varint is, the longer spellings of a number included: bytes of 128 and more up to one below, `room` of
      them at most. Without such an end there is none. */
  lemma {:induction false} VarintExact(bs: bytes, room: nat, width: nat)
    requires width <= |bs| && (forall i :: 0 <= i < width ==> bs[i] >= 128)
    ensures width < |bs| && bs[width] < 128 ==>
            Varint(bs, room) == if width < room then Some((SevenBits(bs[..width + 1]), width + 1)) else None
    ensures width == |bs| ==> Varint(bs, room) == None
    decreases |bs|
  {
    if bs != [] && room > 0 {
      if width > 0 {
        VarintExact(bs[1..], room - 1, width - 1);
        if width < |bs| {
          assert bs[..width + 1][1..] == bs[1..][..width];
        }
      } else {
        assert bs[..1] == [bs[0]] && [bs[0]][1..] == [];
      }
    }
  }

  lemma TenBytes()
    ensures Pow128(MAX_VARINT) == LIMIT
  {
    assert Pow128(4) == 0x1000_0000;
    assert Pow128(8) == 0x100_0000_0000_0000;
  }

  lemma WholeVarint(n: nat, rest: bytes)
    requires n < LIMIT
    ensures Varint(EncodeVarint(n) + rest, MAX_VARINT) == Some((n, |EncodeVarint(n)|))
  {
    TenBytes();
    VarintRoundTrip(n, MAX_VARINT, rest);
  }

  lemma QuotientBound(n: nat, bound: nat)
    requires n < 128 * bound
    ensures n / 128 < bound
  {
  }

  /** `n` shifted left by `k` groups of seven bits. */
  function Shl(n: nat, k: nat): (r: nat) {
    if k == 0 then n else 128 * Shl(n, k - 1)
  }

  /** The reader's loop, from the byte at `at` with `k` bytes already in `out`. */
  function VarintFrom(buf: bytes, at: nat, k: nat, out: nat): (r: Option<(nat, nat)>)
    requires at <= |buf|
    decreases |buf| - at
  {
    if at >= |buf| || k >= MAX_VARINT then None
    else if buf[at] < 128 then Some((out + Shl(buf[at], k), at + 1))
    else VarintFrom(buf, at + 1, k + 1, out + Shl(buf[at] - 128, k))
  }

  lemma {:induction false} ShlParts(low: nat, high: nat, k: nat)
    ensures Shl(low + 128 * high, k) == Shl(low, k) + Shl(high, k + 1)
  {
    if k > 0 {
      ShlParts(low, high, k - 1);
    }
  }

  lemma {:induction false} VarintFromSpec(buf: bytes, at: nat, k: nat, out: nat)
    requires at <= |buf| && k <= MAX_VARINT
    ensures var v := Varint(buf[at..], MAX_VARINT - k);
            VarintFrom(buf, at, k, out) == if v.None? then None else Some((out + Shl(v.value.0, k), at + v.value.1))
    decreases |buf| - at
  {
    if at < |buf| && k < MAX_VARINT && buf[at] >= 128 {
      assert buf[at..][1..] == buf[at + 1..];
      VarintFromSpec(buf, at + 1, k + 1, out + Shl(buf[at] - 128, k));
      var rest := Varint(buf[at + 1..], MAX_VARINT - (k + 1));
      if rest.Some? {
        ShlParts(buf[at] - 128, rest.value.0, k);
      }
    }
  }

  /** Reads a varint at `i`, or raises. Adding the next seven bits is or-ing them in: they lie above `out`. */
  method ReadVarint(buf: bytes, i: nat) returns (r: Option<(nat, nat)>)
    requires i <= |buf|
    ensures r == var v := Varint(buf[i..], MAX_VARINT); if v.None? then None else Some((v.value.0, i + v.value.1))
    ensures r.Some? ==> i < r.value.1 <= |buf|
  {
    var at: nat, k: nat, out: nat := i, 0, 0;
    VarintFromSpec(buf, i, 0, 0);
    while true
      invariant i <= at <= |buf| && k <= MAX_VARINT
      invariant VarintFrom(buf, at, k, out) == VarintFrom(buf, i, 0, 0)
      decreases MAX_VARINT - k
    {
      if at >= |buf| || k >= MAX_VARINT {
        return None;
      }
      var b := buf[at];
      at := at + 1;
      if b < 128 {
        return Some((out + Shl(b, k), at));
      }
      out, k := out + Shl(b - 128, k), k + 1;
    }
  }

  // ── Fields ────────────────────────────────────────────────────────────────────────────────────

  /** A field's payload after its key: the value and its width. Fixed-width payloads are skipped over. */
  function Payload(wire: nat, bs: bytes): (r: Option<(Value, nat)>)
    ensures r.Some? ==> r.value.1 <= |bs|
  {
    if wire == 0 then
      var v := Varint(bs, MAX_VARINT);
      if v.None? then None else Some((Number(v.value.0), v.value.1))
    else if wire == 2 then
      var n := Varint(bs, MAX_VARINT);
      if n.None? || n.value.1 + n.value.0 > |bs| then None
      else Some((Blob(bs[n.value.1..n.value.1 + n.value.0]), n.value.1 + n.value.0))
    else if wire == 1 then (if |bs| < 8 then None else Some((Skipped, 8)))
    else if wire == 5 then (if |bs| < 4 then None else Some((Skipped, 4)))
    else None
  }

  /** What a payload is read from: a varint, a length and that many bytes, eight bytes or four; there is no other
      wire type, and too few bytes are none. */
  lemma PayloadExact(wire: nat, bs: bytes)
    ensures wire == 0 ==> (Payload(wire, bs).Some? <==> Varint(bs, 10).Some?)
    ensures wire == 2 ==>
            (Payload(wire, bs).Some? <==> Varint(bs, 10).Some? && Varint(bs, 10).value.0 <= |bs| - Varint(bs, 10).value.1)
    ensures wire == 1 ==> Payload(wire, bs) == if |bs| >= 8 then Some((Skipped, 8)) else None
    ensures wire == 5 ==> Payload(wire, bs) == if |bs| >= 4 then Some((Skipped, 4)) else None
    ensures wire !in {0, 1, 2, 5} ==> Payload(wire, bs) == None
  {
  }

  function FieldHead(bs: bytes): (r: Option<(Field, nat)>)
    ensures r.Some? ==> 1 <= r.value.1 <= |bs|
  {
    var key := Varint(bs, MAX_VARINT);
    if key.None? then None
    else
      var payload := Payload(key.value.0 % 8, bs[key.value.1..]);
      if payload.None? then None
      else Some((Field(key.value.0 / 8, key.value.0 % 8, payload.value.0), key.value.1 + payload.value.1))
  }

  ghost predicate Advances<T>(head: bytes -> Option<(T, nat)>) {
    forall bs :: head(bs).Some? ==> 1 <= head(bs).value.1 <= |bs|
  }

  /** The items at the front, one after the other, and whether the end was a clean one. */
  function Scan<T>(head: bytes -> Option<(T, nat)>, bs: bytes): (r: (seq<T>, bool))
    requires Advances(head)
    decreases |bs|
  {
    if bs == [] then ([], true)
    else if head(bs).None? then ([], false)
    else
      var (item, width) := head(bs).value;
      var rest := Scan(head, bs[width..]);
      ([item] + rest.0, rest.1)
  }

  lemma FieldsAdvance()
    ensures Advances(FieldHead)
  {
  }

  /** The fields yielded before the end, and whether the end was a clean one or the reader raised. */
  function Fields(buf: bytes): (r: (seq<Field>, bool)) {
    Scan(FieldHead, buf)
  }

  /** The indices a run of the reader stopped at, from 0, and the item it yielded at each. */
  ghost predicate Trace<T>(head: bytes -> Option<(T, nat)>, buf: bytes, stops: seq<nat>, items: seq<T>) {
    && |stops| == |items| + 1 && stops[0] == 0
    && (forall k :: 0 <= k < |stops| ==> stops[k] <= |buf|)
    && forall k :: 0 <= k < |items| ==> stops[k] < stops[k + 1] && head(buf[stops[k]..]) == Some((items[k], stops[k + 1] - stops[k]))
  }

  lemma TraceNext<T>(head: bytes -> Option<(T, nat)>, buf: bytes, stops: seq<nat>, items: seq<T>, item: T, next: nat)
    requires Trace(head, buf, stops, items) && stops[|items|] < next <= |buf|
    requires head(buf[stops[|items|]..]) == Some((item, next - stops[|items|]))
    ensures Trace(head, buf, stops + [next], items + [item])
  {
  }

  /** Where a run ends decides what it yielded in all. */
  lemma {:induction false} TraceEnd<T>(head: bytes -> Option<(T, nat)>, buf: bytes, stops: seq<nat>, items: seq<T>, k: nat)
    requires Advances(head) && Trace(head, buf, stops, items) && k <= |items|
    requires stops[|items|] == |buf| || head(buf[stops[|items|]..]).None?
    ensures Scan(head, buf[stops[k]..]) == (items[k..], stops[|items|] == |buf|)
    decreases |items| - k
  {
    if k == |items| {
      assert items[k..] == [];
      assert stops[k] == |buf| ==> buf[stops[k]..] == [];
    } else {
      TraceEnd(head, buf, stops, items, k + 1);
      assert buf[stops[k]..][stops[k + 1] - stops[k]..] == buf[stops[k + 1]..];
      assert items[k..] == [items[k]] + items[k + 1..];
    }
  }

  method ReadPayload(buf: bytes, i: nat, wire: nat) returns (r: Option<(Value, nat)>)
    requires i <= |buf|
    ensures r == var p := Payload(wire, buf[i..]); if p.None? then None else Some((p.value.0, i + p.value.1))
  {
    if wire == 0 {
      var v := ReadVarint(buf, i);
      return if v.None? then None else Some((Number(v.value.0), v.value.1));
    } else if wire == 2 {
      var n := ReadVarint(buf, i);
      if n.None? || n.value.1 + n.value.0 > |buf| {
        return None;
      }
      assert buf[i..][n.value.1 - i..n.value.1 - i + n.value.0] == buf[n.value.1..n.value.1 + n.value.0];
      return Some((Blob(buf[n.value.1..n.value.1 + n.value.0]), n.value.1 + n.value.0));
    } else if wire == 1 || wire == 5 {
      var next := if wire == 1 then i + 8 else i + 4;
      return if next > |buf| then None else Some((Skipped, next));
    }
    r := None;
  }

  method ReadField(buf: bytes, i: nat) returns (r: Option<(Field, nat)>)
    requires i < |buf|
    ensures r.None? ==> FieldHead(buf[i..]).None?
    ensures r.Some? ==> i < r.value.1 <= |buf| && FieldHead(buf[i..]) == Some((r.value.0, r.value.1 - i))
  {
    var key := ReadVarint(buf, i);
    if key.None? {
      return None;
    }
    var payload := ReadPayload(buf, key.value.1, key.value.0 % 8);
    assert buf[i..][key.value.1 - i..] == buf[key.value.1..];
    if payload.None? {
      return None;
    }
    r := Some((Field(key.value.0 / 8, key.value.0 % 8, payload.value.0), payload.value.1));
  }

  /** Runs the reader to its end: every turn moves the index on and never past the buffer. */
  method ReadFields(buf: bytes) returns (fields: seq<Field>, ok: bool)
    ensures fields == Fields(buf).0 && ok == Fields(buf).1
  {
    var i: nat := 0;
    fields := [];
    ghost var stops: seq<nat> := [0];
    while i < |buf|
      invariant Trace(FieldHead, buf, stops, fields) && i == stops[|fields|]
      decreases |buf| - i
    {
      var f := ReadField(buf, i);
      if f.None? {
        TraceFields(buf, stops, fields);
        return fields, false;
      }
      TraceNext(FieldHead, buf, stops, fields, f.value.0, f.value.1);
      fields, i, stops := fields + [f.value.0], f.value.1, stops + [f.value.1];
    }
    TraceFields(buf, stops, fields);
    ok := true;
  }

  lemma TraceFields(buf: bytes, stops: seq<nat>, fields: seq<Field>)
    requires Trace(FieldHead, buf, stops, fields)
    requires stops[|fields|] == |buf| || FieldHead(buf[stops[|fields|]..]).None?
    ensures fields == Fields(buf).0 && (stops[|fields|] == |buf|) == Fields(buf).1
  {
    FieldsAdvance();
    TraceEnd(FieldHead, buf, stops, fields, 0);
    assert buf[0..] == buf && fields[0..] == fields;
  }

  // ── Encoding ──────────────────────────────────────────────────────────────────────────────────

  datatype WireField = VarintField(number: nat, n: nat) | BytesField(number: nat, bs: bytes)
                     | Fixed64Field(number: nat, raw: bytes) | Fixed32Field(number: nat, raw: bytes)

  predicate Encodable(w: WireField) {
    && w.number * 8 + 7 < LIMIT
    && (w.VarintField? ==> w.n < LIMIT)
    && (w.BytesField? ==> |w.bs| < LIMIT)
    && (w.Fixed64Field? ==> |w.raw| == 8)
    && (w.Fixed32Field? ==> |w.raw| == 4)
  }

  predicate AllEncodable(ws: seq<WireField>) {
    forall i :: 0 <= i < |ws| ==> Encodable(ws[i])
  }

  function WireOf(w: WireField): (r: nat)
    ensures r < 8
  {
    match w
    case VarintField(_, _) => 0
    case BytesField(_, _) => 2
    case Fixed64Field(_, _) => 1
    case Fixed32Field(_, _) => 5
  }

  function EncodePayload(w: WireField): (r: bytes) {
    match w
    case VarintField(_, n) => EncodeVarint(n)
    case BytesField(_, bs) => EncodeVarint(|bs|) + bs
    case Fixed64Field(_, raw) => raw
    case Fixed32Field(_, raw) => raw
  }

  function EncodeField(w: WireField): (r: bytes) {
    EncodeVarint(w.number * 8 + WireOf(w)) + EncodePayload(w)
  }

  function Encode(ws: seq<WireField>): (r: bytes) {
    if ws == [] then [] else EncodeField(ws[0]) + Encode(ws[1..])
  }

  /** What the reader makes of a field. */
  function AsRead(w: WireField): (r: Field) {
    match w
    case VarintField(number, n) => Field(number, 0, Number(n))
    case BytesField(number, bs) => Field(number, 2, Blob(bs))
    case Fixed64Field(number, _) => Field(number, 1, Skipped)
    case Fixed32Field(number, _) => Field(number, 5, Skipped)
  }

  function AllAsRead(ws: seq<WireField>): (r: seq<Field>)
    ensures |r| == |ws|
  {
    if ws == [] then [] else [AsRead(ws[0])] + AllAsRead(ws[1..])
  }

  lemma PayloadRoundTrip(w: WireField, rest: bytes)
    requires Encodable(w)
    ensures Payload(WireOf(w), EncodePayload(w) + rest) == Some((AsRead(w).value, |EncodePayload(w)|))
  {
    match w
    case VarintField(_, n) => WholeVarint(n, rest);
    case BytesField(_, bs) =>
      var length := EncodeVarint(|bs|);
      assert EncodePayload(w) + rest == length + (bs + rest);
      WholeVarint(|bs|, bs + rest);
      assert (length + (bs + rest))[|length|..|length| + |bs|] == bs;
    case Fixed64Field(_, _) =>
    case Fixed32Field(_, _) =>
  }

  lemma KeyParts(number: nat, wire: nat)
    requires wire < 8
    ensures (number * 8 + wire) / 8 == number && (number * 8 + wire) % 8 == wire
  {
  }

  lemma AfterHead(head: bytes, rest: bytes)
    ensures (head + rest)[|head|..] == rest
  {
  }

  lemma FieldHeadOf(bs: bytes, width: nat, key: nat, value: Value, size: nat)
    requires Varint(bs, MAX_VARINT) == Some((key, width)) && Payload(key % 8, bs[width..]) == Some((value, size))
    ensures FieldHead(bs) == Some((Field(key / 8, key % 8, value), width + size))
  {
  }

  lemma TaggedRoundTrip(number: nat, wire: nat, payload: bytes, value: Value, rest: bytes)
    requires wire < 8 && number * 8 + 7 < LIMIT && Payload(wire, payload + rest) == Some((value, |payload|))
    ensures FieldHead((EncodeVarint(number * 8 + wire) + payload) + rest)
         == Some((Field(number, wire, value), |EncodeVarint(number * 8 + wire) + payload|))
  {
    var key := number * 8 + wire;
    var head := EncodeVarint(key);
    KeyParts(number, wire);
    WholeVarint(key, payload + rest);
    AfterHead(head, payload + rest);
    FieldHeadOf(head + (payload + rest), |head|, key, value, |payload|);
    assert (head + payload) + rest == head + (payload + rest);
  }

  lemma FieldRoundTrip(w: WireField, rest: bytes)
    requires Encodable(w)
    ensures FieldHead(EncodeField(w) + rest) == Some((AsRead(w), |EncodeField(w)|))
  {
    PayloadRoundTrip(w, rest);
    TaggedRoundTrip(w.number, WireOf(w), EncodePayload(w), AsRead(w).value, rest);
  }

  lemma ScanNext<T>(head: bytes -> Option<(T, nat)>, first: bytes, rest: bytes, item: T)
    requires Advances(head) && head(first + rest) == Some((item, |first|)) && first != []
    ensures Scan(head, first + rest) == ([item] + Scan(head, rest).0, Scan(head, rest).1)
  {
    AfterHead(first, rest);
  }

  /** Reading an encoded message gives its fields in order, fixed-width values skipped, and ends cleanly. */
  lemma {:induction false} FieldsRoundTrip(ws: seq<WireField>)
    requires AllEncodable(ws)
    ensures Fields(Encode(ws)) == (AllAsRead(ws), true)
  {
    if ws != [] {
      FieldRoundTrip(ws[0], Encode(ws[1..]));
      ScanNext(FieldHead, EncodeField(ws[0]), Encode(ws[1..]), AsRead(ws[0]));
      FieldsRoundTrip(ws[1..]);
    }
  }
}
