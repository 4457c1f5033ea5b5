/** RFC 8785 canonical JSON as the SDK writes it: minimal string escapes, members in UTF-16 code-unit order,
    double-valued numbers, UTF-8. */
module Jcs {
  import opened Bytes
  import opened JsonNumbers
  import opened Sorting
  import opened Utf

  const QUOTE: nat := 0x22
  const BACKSLASH: nat := 0x5C
  const COMMA: nat := 44
  const COLON: nat := 58

  /** A Python value handed to the canonicalizer. An `int` carries the double `float()` makes of it, none when
      that overflows; a `dict` is its items in insertion order; `Other` is any type JSON has no form for. */
  datatype Json = Null | Bool(b: bool) | Str(s: Text) | Int(n: int, float: Option<Float>) | Real(v: Float)
                | Arr(items: seq<Json>) | Obj(members: seq<(Text, Json)>) | Other

  // ── Strings ───────────────────────────────────────────────────────────────────────────────────

  function HexDigit(n: nat): (c: nat)
    requires n < 16
  {
    if n < 10 then 48 + n else 87 + n
  }

  /** The two-character escapes; the letter after the backslash. */
  function ShortEscape(c: nat): (r: Option<nat>) {
    match c
    case 0x08 => Some(98)
    case 0x09 => Some(116)
    case 0x0A => Some(110)
    case 0x0C => Some(102)
    case 0x0D => Some(114)
    case 0x22 => Some(QUOTE)
    case 0x5C => Some(BACKSLASH)
    case _ => None
  }

  function EscapeChar(c: nat): (r: Text)
    ensures r != []
  {
    var short := ShortEscape(c);
    if short.Some? then [BACKSLASH, short.value]
    else if c < 0x20 then [BACKSLASH, 117, 48, 48, HexDigit(c / 16), HexDigit(c % 16)]
    else [c]
  }

  function Escaped(s: Text): (r: Text) {
    if s == [] then [] else EscapeChar(s[0]) + Escaped(s[1..])
  }

  function StringText(s: Text): (r: Text) {
    [QUOTE] + (Escaped(s) + [QUOTE])
  }

  lemma {:induction false} EscapedAppend(s: Text, c: nat)
    ensures Escaped(s + [c]) == Escaped(s) + EscapeChar(c)
  {
    if s == [] {
      assert Escaped([c]) == EscapeChar(c) + Escaped([]);
      assert [] + [c] == [c];
    } else {
      assert (s + [c])[1..] == s[1..] + [c];
      EscapedAppend(s[1..], c);
    }
  }

  // ── Values ────────────────────────────────────────────────────────────────────────────────────

  function Joined(parts: seq<Text>): (r: Text) {
    if parts == [] then [] else parts[0] + Joined(parts[1..])
  }

  function CommaJoined(parts: seq<Text>): (r: Text) {
    if parts == [] then []
    else if |parts| == 1 then parts[0]
    else parts[0] + ([COMMA] + CommaJoined(parts[1..]))
  }

  /** What a key is sorted by: its UTF-16BE bytes. */
  function KeyBytes(k: Text): (r: seq<nat>) {
    if AllScalar(k) then BigEndianUnits(Utf16(k)) else []
  }

  predicate KeyLe<T>(a: (Text, T), b: (Text, T)) {
    LexLe(KeyBytes(a.0), KeyBytes(b.0))
  }

  function MemberText(m: (Text, Text)): (r: Text) {
    StringText(m.0) + ([COLON] + m.1)
  }

  function MemberTexts(ms: seq<(Text, Text)>): (r: seq<Text>)
    ensures |r| == |ms| && forall i :: 0 <= i < |ms| ==> r[i] == MemberText(ms[i])
  {
    seq(|ms|, i requires 0 <= i < |ms| => MemberText(ms[i]))
  }

  /** What the writer accepts. A lone surrogate in a value is only found later, by the UTF-8 encoding; in a key
      the UTF-16 sort key finds it first. */
  predicate Writable(v: Json) {
    match v
    case Int(n, float) => (float.Some? ==> FloatOk(float.value)) && JcsInt(n, float).Some?
    case Real(x) => FloatOk(x) && NumberText(x).Some?
    case Arr(items) => forall i :: 0 <= i < |items| ==> Writable(items[i])
    case Obj(ms) => forall i :: 0 <= i < |ms| ==> AllScalar(ms[i].0) && Writable(ms[i].1)
    case Other => false
    case _ => true
  }

  /** A Python dictionary holds a key once. */
  predicate DictsOk(v: Json) {
    match v
    case Arr(items) => forall i :: 0 <= i < |items| ==> DictsOk(items[i])
    case Obj(ms) => DistinctKeys(ms) && forall i :: 0 <= i < |ms| ==> DictsOk(ms[i].1)
    case _ => true
  }

  predicate DistinctKeys<T>(ms: seq<(Text, T)>) {
    forall i, j :: 0 <= i < j < |ms| ==> ms[i].0 != ms[j].0
  }

  function TextOf(v: Json): (r: Text) {
    match v
    case Null => Chars("null")
    case Bool(b) => if b then Chars("true") else Chars("false")
    case Str(s) => StringText(s)
    case Int(n, _) => IntText(n)
    case Real(x) => if FloatOk(x) && NumberText(x).Some? then NumberText(x).value else []
    case Arr(items) => [91] + (CommaJoined(seq(|items|, i requires 0 <= i < |items| => TextOf(items[i]))) + [93])
    case Obj(ms) =>
      var texts := seq(|ms|, i requires 0 <= i < |ms| => (ms[i].0, TextOf(ms[i].1)));
      [123] + (CommaJoined(MemberTexts(Sort(texts, KeyLe))) + [125])
    case Other => []
  }

  function Canonicalize(v: Json): (r: Option<bytes>) {
    if Writable(v) && AllScalar(TextOf(v)) then Some(Utf8(TextOf(v))) else None
  }

  // ── Sorting members ───────────────────────────────────────────────────────────────────────────

  function Keyed<T>(ms: seq<(Text, Json)>, f: Json -> T): (r: seq<(Text, T)>)
    ensures |r| == |ms| && forall i :: 0 <= i < |ms| ==> r[i] == (ms[i].0, f(ms[i].1))
  {
    seq(|ms|, i requires 0 <= i < |ms| => (ms[i].0, f(ms[i].1)))
  }

  lemma KeyLeTotal<T(!new)>()
    ensures TotalPreorder(KeyLe<T>)
  {
    forall a: (Text, T), b: (Text, T) ensures KeyLe(a, b) || KeyLe(b, a) {
      LexTotal(KeyBytes(a.0), KeyBytes(b.0));
    }
    forall a: (Text, T), b: (Text, T), c: (Text, T) | KeyLe(a, b) && KeyLe(b, c) ensures KeyLe(a, c) {
      LexTransitive(KeyBytes(a.0), KeyBytes(b.0), KeyBytes(c.0));
    }
  }

  lemma {:induction false} BigEndianInjective(us: seq<nat>, vs: seq<nat>)
    requires BigEndianUnits(us) == BigEndianUnits(vs)
    ensures us == vs
  {
    LexTotal(us, vs);
    ByteOrderIsUnitOrder(us, vs);
    ByteOrderIsUnitOrder(vs, us);
    LexTotal(BigEndianUnits(us), BigEndianUnits(vs));
  }

  /** Equal sort keys are equal keys, so the order among distinct keys is strict. */
  lemma KeyLeAntisymmetric(k: Text, l: Text)
    requires AllScalar(k) && AllScalar(l) && LexLe(KeyBytes(k), KeyBytes(l)) && LexLe(KeyBytes(l), KeyBytes(k))
    ensures k == l
  {
    LexTotal(KeyBytes(k), KeyBytes(l));
    BigEndianInjective(Utf16(k), Utf16(l));
    Utf16Injective(k, l);
  }

  lemma KeyedCons<T>(m: (Text, Json), ms: seq<(Text, Json)>, f: Json -> T)
    ensures Keyed([m] + ms, f) == [(m.0, f(m.1))] + Keyed(ms, f)
  {
  }

  lemma {:induction false} InsertKeyed<T>(m: (Text, Json), ms: seq<(Text, Json)>, f: Json -> T)
    ensures Insert((m.0, f(m.1)), Keyed(ms, f), KeyLe) == Keyed(Insert(m, ms, KeyLe), f)
  {
    if ms == [] {
      KeyedCons(m, [], f);
      assert [m] + [] == [m];
    } else {
      var head, tail := ms[0], ms[1..];
      assert ms == [head] + tail;
      KeyedCons(head, tail, f);
      assert Keyed(ms, f)[1..] == Keyed(tail, f);
      if KeyLe(m, head) {
        KeyedCons(m, ms, f);
      } else {
        InsertKeyed(m, tail, f);
        KeyedCons(head, Insert(m, tail, KeyLe), f);
      }
    }
  }

  /** Sorting looks at keys only: it commutes with any change of the values. */
  lemma {:induction false} SortKeyed<T>(ms: seq<(Text, Json)>, f: Json -> T)
    ensures Sort(Keyed(ms, f), KeyLe) == Keyed(Sort(ms, KeyLe), f)
  {
    if ms != [] {
      SortKeyed(ms[1..], f);
      assert ms == [ms[0]] + ms[1..];
      KeyedCons(ms[0], ms[1..], f);
      assert Keyed(ms, f)[1..] == Keyed(ms[1..], f);
      InsertKeyed(ms[0], Sort(ms[1..], KeyLe), f);
    }
  }

  lemma ObjText(ms: seq<(Text, Json)>)
    ensures TextOf(Obj(ms)) == [123] + (CommaJoined(MemberTexts(Keyed(Sort(ms, KeyLe), TextOf))) + [125])
  {
    var texts := seq(|ms|, i requires 0 <= i < |ms| => (ms[i].0, TextOf(ms[i].1)));
    assert texts == Keyed(ms, TextOf) by {
      forall i | 0 <= i < |ms| ensures texts[i] == Keyed(ms, TextOf)[i] {
      }
    }
    SortKeyed(ms, TextOf);
  }

  lemma KeyOrder(a: Text, b: Text)
    requires AllScalar(a) && AllScalar(b) && LexLe(KeyBytes(a), KeyBytes(b))
    ensures Utf16(a) == Utf16(b) || Earlier(Utf16(a), Utf16(b))
  {
    ByteOrderIsUnitOrder(Utf16(a), Utf16(b));
    LexLeMeans(Utf16(a), Utf16(b));
  }

  lemma SortedKeys(ms: seq<(Text, Json)>, i: nat, j: nat)
    requires forall k :: 0 <= k < |ms| ==> AllScalar(ms[k].0)
    requires i < j < |Sort(ms, KeyLe)|
    ensures AllScalar(Sort(ms, KeyLe)[i].0) && AllScalar(Sort(ms, KeyLe)[j].0) && KeyLe(Sort(ms, KeyLe)[i], Sort(ms, KeyLe)[j])
  {
    var sorted := Sort(ms, KeyLe);
    KeyLeTotal<Json>();
    SortSorted(ms, KeyLe);
    SameMembers(sorted, ms);
    assert sorted[i] in ms && sorted[j] in ms;
  }

  /** The members are written in the order of their keys' UTF-16 code units. */
  lemma KeysInCodeUnitOrder(ms: seq<(Text, Json)>, i: nat, j: nat)
    requires forall k :: 0 <= k < |ms| ==> AllScalar(ms[k].0)
    requires i < j < |Sort(ms, KeyLe)|
    ensures AllScalar(Sort(ms, KeyLe)[i].0) && AllScalar(Sort(ms, KeyLe)[j].0)
    ensures var a, b := Utf16(Sort(ms, KeyLe)[i].0), Utf16(Sort(ms, KeyLe)[j].0); a == b || Earlier(a, b)
  {
    SortedKeys(ms, i, j);
    KeyOrder(Sort(ms, KeyLe)[i].0, Sort(ms, KeyLe)[j].0);
  }

  // ── The writer ────────────────────────────────────────────────────────────────────────────────

  lemma {:induction false} JoinedAppend(parts: seq<Text>, t: Text)
    ensures Joined(parts + [t]) == Joined(parts) + t
  {
    if parts == [] {
      assert [] + [t] == [t] && [t][1..] == [];
    } else {
      assert (parts + [t])[1..] == parts[1..] + [t];
      JoinedAppend(parts[1..], t);
    }
  }

  lemma {:induction false} CommaJoinedAppend(parts: seq<Text>, t: Text)
    ensures CommaJoined(parts + [t]) == if parts == [] then t else CommaJoined(parts) + ([COMMA] + t)
  {
    if parts == [] {
      assert [] + [t] == [t];
    } else {
      assert (parts + [t])[1..] == parts[1..] + [t];
      CommaJoinedAppend(parts[1..], t);
    }
  }

  /** The first `n` parts, the way the writer's loops lay them down. */
  ghost function CommaUpTo(parts: seq<Text>, n: nat): (r: Text)
    requires n <= |parts|
  {
    if n == 0 then [] else if n == 1 then parts[0] else CommaUpTo(parts, n - 1) + [COMMA] + parts[n - 1]
  }

  lemma {:induction false} CommaUpToAll(parts: seq<Text>, n: nat)
    requires n <= |parts|
    ensures CommaUpTo(parts, n) == CommaJoined(parts[..n])
    decreases n
  {
    if n > 0 {
      CommaUpToAll(parts, n - 1);
      CommaJoinedAppend(parts[..n - 1], parts[n - 1]);
      assert parts[..n - 1] + [parts[n - 1]] == parts[..n];
    }
  }

  lemma CommaStep(before: Text, parts: seq<Text>, i: nat)
    requires i < |parts|
    ensures before + CommaUpTo(parts, i + 1) == (if i == 0 then before else before + CommaUpTo(parts, i) + [COMMA]) + parts[i]
  {
    if i > 0 {
      var c := CommaUpTo(parts, i);
      assert before + (c + [COMMA] + parts[i]) == (before + c) + [COMMA] + parts[i];
    }
  }

  lemma Bracketed(before: Text, open: nat, inner: Text, close: nat)
    ensures before + [open] + inner + [close] == before + ([open] + (inner + [close]))
  {
  }

  method JcsString(s: Text) returns (r: Text)
    ensures r == StringText(s)
  {
    var out := [QUOTE];
    for i := 0 to |s|
      invariant out == [QUOTE] + Escaped(s[..i])
    {
      EscapedAppend(s[..i], s[i]);
      assert s[..i] + [s[i]] == s[..i + 1];
      var short := ShortEscape(s[i]);
      if short.Some? {
        out := out + [BACKSLASH, short.value];
      } else if s[i] < 0x20 {
        out := out + [BACKSLASH, 117, 48, 48, HexDigit(s[i] / 16), HexDigit(s[i] % 16)];
      } else {
        out := out + [s[i]];
      }
    }
    assert s[..|s|] == s;
    r := out + [QUOTE];
  }

  /** The list of parts the writer appends to. */
  class Output {
    var parts: seq<Text>

    constructor ()
      ensures parts == []
    {
      parts := [];
    }

    ghost function Written(): (r: Text)
      reads this
    {
      Joined(parts)
    }

    method Append(t: Text)
      modifies this
      ensures Written() == old(Written()) + t
    {
      JoinedAppend(parts, t);
      parts := parts + [t];
    }
  }

  function ItemTexts(items: seq<Json>): (r: seq<Text>)
    ensures |r| == |items| && forall i :: 0 <= i < |items| ==> r[i] == TextOf(items[i])
  {
    seq(|items|, i requires 0 <= i < |items| => TextOf(items[i]))
  }

  lemma ArrText(items: seq<Json>)
    ensures TextOf(Arr(items)) == [91] + (CommaJoined(ItemTexts(items)) + [93])
  {
    assert seq(|items|, i requires 0 <= i < |items| => TextOf(items[i])) == ItemTexts(items);
  }

  /** Writes a value after what is already written, or refuses it. */
  method Write(v: Json, out: Output) returns (ok: bool)
    modifies out
    ensures ok <==> Writable(v)
    ensures ok ==> out.Written() == old(out.Written()) + TextOf(v)
    decreases v, 2
  {
    match v
    case Null => out.Append(Chars("null")); ok := true;
    case Bool(b) =>
      if b {
        out.Append(Chars("true"));
      } else {
        out.Append(Chars("false"));
      }
      ok := true;
    case Str(s) =>
      var text := JcsString(s);
      out.Append(text);
      ok := true;
    case Int(n, float) =>
      if float.Some? && !FloatOk(float.value) {
        return false;
      }
      var text := JcsInt(n, float);
      if text.Some? {
        out.Append(text.value);
      }
      ok := text.Some?;
    case Real(x) =>
      if !FloatOk(x) {
        return false;
      }
      var text := NumberText(x);
      if text.Some? {
        out.Append(text.value);
      }
      ok := text.Some?;
    case Arr(items) =>
      out.Append([91]);
      ok := WriteItems(v, items, out);
      if ok {
        out.Append([93]);
        ArrWritten(old(out.Written()), items);
      }
    case Obj(ms) =>
      out.Append([123]);
      var allScalar := CheckKeys(ms);
      if !allScalar {
        return false;
      }
      var sorted := Sort(ms, KeyLe);
      SameLength(sorted, ms);
      ok := WriteMembers(v, sorted, out);
      if ok {
        out.Append([125]);
        ObjWritten(old(out.Written()), ms);
      }
    case Other => ok := false;
  }

  ghost predicate WritableUpTo(items: seq<Json>, n: nat)
    requires n <= |items|
  {
    n == 0 || (WritableUpTo(items, n - 1) && Writable(items[n - 1]))
  }

  lemma {:induction false} WritableUpToEach(items: seq<Json>, n: nat)
    requires n <= |items|
    ensures WritableUpTo(items, n) <==> forall i :: 0 <= i < n ==> Writable(items[i])
  {
    if n > 0 {
      WritableUpToEach(items, n - 1);
    }
  }

  lemma ArrWritten(before: Text, items: seq<Json>)
    requires WritableUpTo(items, |items|)
    ensures Writable(Arr(items))
    ensures before + [91] + CommaUpTo(ItemTexts(items), |items|) + [93] == before + TextOf(Arr(items))
  {
    var texts := ItemTexts(items);
    WritableUpToEach(items, |items|);
    CommaUpToAll(texts, |items|);
    assert texts[..|items|] == texts;
    Bracketed(before, 91, CommaJoined(texts), 93);
    ArrText(items);
  }

  ghost function Values(ms: seq<(Text, Json)>): (r: seq<Json>)
    ensures |r| == |ms| && forall i :: 0 <= i < |ms| ==> r[i] == ms[i].1
  {
    seq(|ms|, i requires 0 <= i < |ms| => ms[i].1)
  }

  lemma ObjWritable(ms: seq<(Text, Json)>, sorted: seq<(Text, Json)>)
    requires multiset(sorted) == multiset(ms) && WritableUpTo(Values(sorted), |sorted|)
    requires forall i :: 0 <= i < |ms| ==> AllScalar(ms[i].0)
    ensures Writable(Obj(ms))
  {
    SameMembers(sorted, ms);
    WritableUpToEach(Values(sorted), |sorted|);
    forall k | 0 <= k < |ms| ensures Writable(ms[k].1) {
      assert ms[k] in sorted;
      var j :| 0 <= j < |sorted| && sorted[j] == ms[k];
      assert Values(sorted)[j] == ms[k].1;
    }
  }

  lemma ObjWritten(before: Text, ms: seq<(Text, Json)>)
    requires |Sort(ms, KeyLe)| == |ms| && WritableUpTo(Values(Sort(ms, KeyLe)), |ms|)
    requires forall i :: 0 <= i < |ms| ==> AllScalar(ms[i].0)
    ensures Writable(Obj(ms))
    ensures before + [123] + CommaUpTo(MemberTexts(Keyed(Sort(ms, KeyLe), TextOf)), |ms|) + [125]
         == before + TextOf(Obj(ms))
  {
    var sorted := Sort(ms, KeyLe);
    var texts := MemberTexts(Keyed(sorted, TextOf));
    ObjWritable(ms, sorted);
    CommaUpToAll(texts, |ms|);
    assert texts[..|ms|] == texts;
    Bracketed(before, 123, CommaJoined(texts), 125);
    ObjText(ms);
  }

  lemma ItemUnwritable(v: Json, item: Json)
    requires v.Arr? && item in v.items && !Writable(item)
    ensures !Writable(v)
  {
    var j :| 0 <= j < |v.items| && v.items[j] == item;
  }

  method WriteItems(ghost v: Json, items: seq<Json>, out: Output) returns (ok: bool)
    requires v == Arr(items)
    modifies out
    ensures ok ==> WritableUpTo(items, |items|)
    ensures !ok ==> !Writable(v)
    ensures ok ==> out.Written() == old(out.Written()) + CommaUpTo(ItemTexts(items), |items|)
    decreases v, 0
  {
    ghost var before := out.Written();
    ghost var texts := ItemTexts(items);
    assert before + [] == before;
    for i := 0 to |items|
      invariant out.Written() == before + CommaUpTo(texts, i)
      invariant WritableUpTo(items, i)
    {
      CommaStep(before, texts, i);
      if i != 0 {
        out.Append([COMMA]);
      }
      assert items[i] in v.items;
      var written := Write(items[i], out);
      if !written {
        ItemUnwritable(v, items[i]);
        return false;
      }
    }
    ok := true;
  }

  lemma MemberStep(here: Text, key: Text, value: Text)
    ensures here + key + [COLON] + value == here + (key + ([COLON] + value))
  {
  }

  lemma MemberUnwritable(v: Json, m: (Text, Json))
    requires v.Obj? && m in v.members && !Writable(m.1)
    ensures !Writable(v)
  {
    var j :| 0 <= j < |v.members| && v.members[j] == m;
  }

  lemma SameLength<T>(xs: seq<T>, ys: seq<T>)
    requires multiset(xs) == multiset(ys)
    ensures |xs| == |ys|
  {
    assert |multiset(xs)| == |multiset(ys)|;
  }

  method WriteMember(ghost v: Json, m: (Text, Json), out: Output) returns (ok: bool)
    requires v.Obj? && m in v.members
    modifies out
    ensures ok <==> Writable(m.1)
    ensures ok ==> out.Written() == old(out.Written()) + MemberText((m.0, TextOf(m.1)))
    decreases v, 0
  {
    var key := JcsString(m.0);
    out.Append(key);
    out.Append([COLON]);
    ok := Write(m.1, out);
    MemberStep(old(out.Written()), key, TextOf(m.1));
  }

  method WriteMembers(ghost v: Json, sorted: seq<(Text, Json)>, out: Output) returns (ok: bool)
    requires v.Obj? && multiset(sorted) == multiset(v.members)
    modifies out
    ensures ok ==> WritableUpTo(Values(sorted), |sorted|)
    ensures !ok ==> !Writable(v)
    ensures ok ==> out.Written() == old(out.Written()) + CommaUpTo(MemberTexts(Keyed(sorted, TextOf)), |sorted|)
    decreases v, 1
  {
    ghost var before := out.Written();
    ghost var texts := MemberTexts(Keyed(sorted, TextOf));
    ghost var values := Values(sorted);
    assert before + [] == before;
    for i := 0 to |sorted|
      invariant out.Written() == before + CommaUpTo(texts, i)
      invariant WritableUpTo(values, i)
    {
      CommaStep(before, texts, i);
      if i != 0 {
        out.Append([COMMA]);
      }
      assert sorted[i] in multiset(v.members);
      var written := WriteMember(v, sorted[i], out);
      if !written {
        MemberUnwritable(v, sorted[i]);
        return false;
      }
    }
    ok := true;
  }

  method CheckKeys(ms: seq<(Text, Json)>) returns (ok: bool)
    ensures ok <==> forall i :: 0 <= i < |ms| ==> AllScalar(ms[i].0)
  {
    for i := 0 to |ms|
      invariant forall k :: 0 <= k < i ==> AllScalar(ms[k].0)
    {
      if !AllScalar(ms[i].0) {
        return false;
      }
    }
    ok := true;
  }

  method CanonicalizeValue(v: Json) returns (r: Option<bytes>)
    ensures r == Canonicalize(v)
  {
    var out := new Output();
    var ok := Write(v, out);
    if !ok {
      return None;
    }
    assert [] + TextOf(v) == TextOf(v);
    var text := Join(out.parts);
    r := if AllScalar(text) then Some(Utf8(text)) else None;
  }

  method Join(parts: seq<Text>) returns (r: Text)
    ensures r == Joined(parts)
  {
    r := [];
    for i := 0 to |parts|
      invariant r == Joined(parts[..i])
    {
      JoinedAppend(parts[..i], parts[i]);
      assert parts[..i] + [parts[i]] == parts[..i + 1];
      r := r + parts[i];
    }
    assert parts[..|parts|] == parts;
  }
}
