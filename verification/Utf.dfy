/** UTF-8 as Python's strict codec reads and writes it, and UTF-16 code-unit order. Text is a sequence of
    code points; a lone surrogate is a code point no codec accepts. */
module Utf {
  import opened Bytes
  import opened Sorting

  type Text = seq<nat>

  predicate Scalar(c: nat) {
    c < 0xD800 || 0xE000 <= c < 0x110000
  }

  predicate AllScalar(s: Text) {
    forall i :: 0 <= i < |s| ==> Scalar(s[i])
  }

  /** The code points of a literal. */
  function Chars(s: string): (r: Text)
    ensures |r| == |s|
  {
    seq(|s|, i requires 0 <= i < |s| => s[i] as nat)
  }

  /** The first place of `c`, or the end. */
  function Find(s: Text, c: nat): (i: nat)
    ensures i <= |s| && (i < |s| ==> s[i] == c) && forall j :: 0 <= j < i ==> s[j] != c
  {
    if s == [] || s[0] == c then 0 else 1 + Find(s[1..], c)
  }

  /** ASCII lower case. */
  function Lower(s: Text): (r: Text)
    ensures |r| == |s| && forall i :: 0 <= i < |s| ==> r[i] == LowerChar(s[i])
  {
    seq(|s|, i requires 0 <= i < |s| => LowerChar(s[i]))
  }

  function LowerChar(c: nat): (r: nat) {
    if 65 <= c < 91 then c + 32 else c
  }

  // ── UTF-8 ─────────────────────────────────────────────────────────────────────────────────────

  function Utf8Char(c: nat): (r: bytes)
    requires Scalar(c)
    ensures 1 <= |r| <= 4
  {
    if c < 0x80 then [c]
    else if c < 0x800 then [0xC0 + c / 64, 0x80 + c % 64]
    else if c < 0x10000 then [0xE0 + c / 64 / 64, 0x80 + c / 64 % 64, 0x80 + c % 64]
    else [0xF0 + c / 64 / 64 / 64, 0x80 + c / 64 / 64 % 64, 0x80 + c / 64 % 64, 0x80 + c % 64]
  }

  /** The four forms of RFC 3629: a lead byte that says how many follow, and six bits in each that does. */
  lemma Utf8Bytes(c: nat)
    requires Scalar(c)
    ensures var r := Utf8Char(c);
            && (c < 0x80 ==> r == [c])
            && (0x80 <= c < 0x800 ==> |r| == 2 && 0xC2 <= r[0] < 0xE0)
            && (0x800 <= c < 0x10000 ==> |r| == 3 && 0xE0 <= r[0] < 0xF0)
            && (0x10000 <= c ==> |r| == 4 && 0xF0 <= r[0] < 0xF5)
            && (forall i :: 1 <= i < |r| ==> 0x80 <= r[i] < 0xC0)
  {
  }

  function Utf8(s: Text): (r: bytes)
    requires AllScalar(s)
  {
    if s == [] then [] else Utf8Char(s[0]) + Utf8(s[1..])
  }

  predicate Continuation(b: byte) {
    0x80 <= b < 0xC0
  }

  /** One more six-bit group at the low end. */
  function Join(high: nat, low: nat): (n: nat)
    ensures low < 64 ==> n / 64 == high && n % 64 == low
  {
    high * 64 + low
  }

  /** The first code point and its width; overlong forms, surrogates and values past U+10FFFF are refused. */
  function Utf8Head(bs: bytes): (r: Option<(nat, nat)>)
    ensures r.Some? ==> Scalar(r.value.0) && 1 <= r.value.1 <= |bs|
  {
    if bs == [] then None
    else if bs[0] < 0x80 then Some((bs[0], 1))
    else if 0xC2 <= bs[0] < 0xE0 && |bs| >= 2 && Continuation(bs[1]) then
      Some((Join(bs[0] - 0xC0, bs[1] - 0x80), 2))
    else if 0xE0 <= bs[0] < 0xF0 && |bs| >= 3 && Continuation(bs[1]) && Continuation(bs[2]) then
      var c := Join(Join(bs[0] - 0xE0, bs[1] - 0x80), bs[2] - 0x80);
      if c >= 0x800 && Scalar(c) then Some((c, 3)) else None
    else if 0xF0 <= bs[0] < 0xF5 && |bs| >= 4 && Continuation(bs[1]) && Continuation(bs[2]) && Continuation(bs[3]) then
      var c := Join(Join(Join(bs[0] - 0xF0, bs[1] - 0x80), bs[2] - 0x80), bs[3] - 0x80);
      if c >= 0x10000 && Scalar(c) then Some((c, 4)) else None
    else None
  }

  function Utf8Decode(bs: bytes): (r: Option<Text>)
    ensures r.Some? ==> AllScalar(r.value)
    decreases |bs|
  {
    if bs == [] then Some([])
    else
      var head := Utf8Head(bs);
      if head.None? then None
      else
        var rest := Utf8Decode(bs[head.value.1..]);
        if rest.None? then None else Some([head.value.0] + rest.value)
  }

  lemma Utf8HeadOfChar(c: nat, rest: bytes)
    requires Scalar(c)
    ensures Utf8Head(Utf8Char(c) + rest) == Some((c, |Utf8Char(c)|))
  {
    var bs := Utf8Char(c) + rest;
    assert bs[..|Utf8Char(c)|] == Utf8Char(c);
  }

  /** Decoding an encoding gives the text back. */
  lemma {:induction false} Utf8RoundTrip(s: Text)
    requires AllScalar(s)
    ensures Utf8Decode(Utf8(s)) == Some(s)
  {
    if s != [] {
      assert s == [s[0]] + s[1..];
      Utf8HeadOfChar(s[0], Utf8(s[1..]));
      assert Utf8(s)[|Utf8Char(s[0])|..] == Utf8(s[1..]);
      Utf8RoundTrip(s[1..]);
    }
  }

  lemma Utf8CharOfHead(bs: bytes)
    requires Utf8Head(bs).Some?
    ensures Utf8Char(Utf8Head(bs).value.0) == bs[..Utf8Head(bs).value.1]
  {
    var n := Utf8Head(bs).value.1;
    assert n == 4 ==> bs[..4] == [bs[0], bs[1], bs[2], bs[3]];
  }

  /** What decodes is the encoding of what it decodes to: each text has one byte form. */
  lemma {:induction false} Utf8DecodeExact(bs: bytes)
    requires Utf8Decode(bs).Some?
    ensures Utf8(Utf8Decode(bs).value) == bs
    decreases |bs|
  {
    if bs != [] {
      var (c, n) := Utf8Head(bs).value;
      Utf8CharOfHead(bs);
      assert bs == bs[..n] + bs[n..];
      Utf8DecodeExact(bs[n..]);
      var s := Utf8Decode(bs).value;
      assert s[0] == c && s[1..] == Utf8Decode(bs[n..]).value;
    }
  }

  // ── UTF-16 ────────────────────────────────────────────────────────────────────────────────────

  function Utf16Char(c: nat): (r: seq<nat>)
    requires Scalar(c)
    ensures 1 <= |r| <= 2 && forall i :: 0 <= i < |r| ==> r[i] < 0x10000
  {
    if c < 0x10000 then [c] else [0xD800 + (c - 0x10000) / 1024, 0xDC00 + (c - 0x10000) % 1024]
  }

  /** A code point of the basic plane is its own unit; any other is a high and a low surrogate of ten bits each. */
  lemma Utf16Units(c: nat)
    requires Scalar(c)
    ensures c < 0x10000 ==> Utf16Char(c) == [c]
    ensures c >= 0x10000 ==>
            && |Utf16Char(c)| == 2 && 0xD800 <= Utf16Char(c)[0] < 0xDC00 <= Utf16Char(c)[1] < 0xE000
            && (Utf16Char(c)[0] - 0xD800) * 1024 + (Utf16Char(c)[1] - 0xDC00) + 0x10000 == c
  {
  }

  function Utf16(s: Text): (r: seq<nat>)
    requires AllScalar(s)
    ensures forall i :: 0 <= i < |r| ==> r[i] < 0x10000
  {
    if s == [] then [] else Utf16Char(s[0]) + Utf16(s[1..])
  }

  function BigEndianUnits(us: seq<nat>): (r: seq<nat>)
    ensures |r| == 2 * |us|
  {
    if us == [] then [] else [us[0] / 256, us[0] % 256] + BigEndianUnits(us[1..])
  }

  /** Comparing the UTF-16BE bytes is comparing the code units. */
  lemma {:induction false} ByteOrderIsUnitOrder(us: seq<nat>, vs: seq<nat>)
    ensures LexLe(BigEndianUnits(us), BigEndianUnits(vs)) <==> LexLe(us, vs)
  {
    if us != [] && vs != [] {
      var a, b := BigEndianUnits(us), BigEndianUnits(vs);
      assert a[0] == us[0] / 256 && a[1..][0] == us[0] % 256 && a[1..][1..] == BigEndianUnits(us[1..]);
      assert b[0] == vs[0] / 256 && b[1..][0] == vs[0] % 256 && b[1..][1..] == BigEndianUnits(vs[1..]);
      ByteOrderIsUnitOrder(us[1..], vs[1..]);
      assert us[0] == vs[0] <==> us[0] / 256 == vs[0] / 256 && us[0] % 256 == vs[0] % 256;
    }
  }

  lemma SameUnits(c: nat, d: nat, rest: seq<nat>, other: seq<nat>)
    requires Scalar(c) && Scalar(d) && Utf16Char(c) + rest == Utf16Char(d) + other
    ensures c == d && rest == other
  {
    var a, b, u, v := Utf16Char(c), Utf16Char(d), Utf16Char(c) + rest, Utf16Char(d) + other;
    assert u[0] == a[0] && v[0] == b[0] && (|a| == 2 ==> u[1] == a[1]) && (|b| == 2 ==> v[1] == b[1]);
    assert u[|a|..] == rest && v[|b|..] == other;
  }

  /** Different texts have different UTF-16 forms. */
  lemma {:induction false} Utf16Injective(s: Text, t: Text)
    requires AllScalar(s) && AllScalar(t) && Utf16(s) == Utf16(t)
    ensures s == t
  {
    if s != [] && t != [] {
      SameUnits(s[0], t[0], Utf16(s[1..]), Utf16(t[1..]));
      Utf16Injective(s[1..], t[1..]);
      assert s == [s[0]] + s[1..] && t == [t[0]] + t[1..];
    }
  }
}
