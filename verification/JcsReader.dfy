/** Canonical JSON read back: the bytes determine the value up to member order and the number being a double,
    and a value determines its bytes. */
module JcsReader {
  import opened Bytes
  import opened Jcs
  import opened JsonNumbers
  import opened JsonStrings
  import opened Sorting
  import opened Utf

  /** A JSON number: an IEEE double, both zeros being one. */
  datatype Double = ZeroDouble | FiniteDouble(negative: bool, magnitude: Decimal)

  /** A JSON document: objects have no member order. */
  datatype Doc = DNull | DBool(b: bool) | DStr(s: Text) | DNum(d: Double)
               | DArr(items: seq<Doc>) | DObj(members: map<Text, Doc>)

  /** Later members win, as in `json.loads`. */
  function MapOf(ms: seq<(Text, Doc)>): (r: map<Text, Doc>) {
    if ms == [] then map[] else MapOf(ms[..|ms| - 1])[ms[|ms| - 1].0 := ms[|ms| - 1].1]
  }

  function IntDouble(n: int): (r: Double) {
    if n == 0 then ZeroDouble else FiniteDouble(n < 0, DecimalOf(Abs(n)))
  }

  function FloatDouble(x: Float): (r: Double) {
    if x.Finite? then FiniteDouble(x.negative, Trim(x.raw, x.exponent)) else ZeroDouble
  }

  /** The document a Python value stands for. */
  function Meaning(v: Json): (r: Doc) {
    match v
    case Null => DNull
    case Bool(b) => DBool(b)
    case Str(s) => DStr(s)
    case Int(n, _) => DNum(IntDouble(n))
    case Real(x) => DNum(FloatDouble(x))
    case Arr(items) => DArr(seq(|items|, i requires 0 <= i < |items| => Meaning(items[i])))
    case Obj(ms) => DObj(MapOf(seq(|ms|, i requires 0 <= i < |ms| => (ms[i].0, Meaning(ms[i].1)))))
    case Other => DNull
  }

  /** JSON as it is spelled: number literals, and members in the order they come. */
  datatype Tree = TNull | TBool(b: bool) | TStr(s: Text) | TNum(l: Literal)
                | TArr(items: seq<Tree>) | TObj(members: seq<(Text, Tree)>)

  // ── A reader of compact JSON ──────────────────────────────────────────────────────────────────

  function ReadWord(word: Text, tree: Tree, t: Text): (r: Option<(Tree, Text)>)
    requires word != []
    ensures r.Some? ==> |r.value.1| < |t|
  {
    if word <= t then Some((tree, t[|word|..])) else None
  }

  function ReadNumber(t: Text): (r: Option<(Tree, Text)>)
    ensures r.Some? ==> |r.value.1| < |t|
  {
    var l := ReadLiteral(t);
    if l.None? then None else Some((TNum(l.value.0), l.value.1))
  }

  function ReadValue(t: Text): (r: Option<(Tree, Text)>)
    ensures r.Some? ==> |r.value.1| < |t|
    decreases |t|, 1
  {
    if t == [] then None
    else if t[0] == 45 || IsDigit(t[0]) then ReadNumber(t)
    else if t[0] == 110 then ReadWord(Chars("null"), TNull, t)
    else if t[0] == 116 then ReadWord(Chars("true"), TBool(true), t)
    else if t[0] == 102 then ReadWord(Chars("false"), TBool(false), t)
    else if t[0] == 34 then
      var s := ReadString(t[1..]);
      if s.None? then None else Some((TStr(s.value.0), s.value.1))
    else if t[0] == 91 then ReadArray(t)
    else if t[0] == 123 then ReadObject(t)
    else None
  }

  /** From the opening bracket to the closing one. */
  function ReadArray(t: Text): (r: Option<(Tree, Text)>)
    requires t != []
    ensures r.Some? ==> |r.value.1| < |t|
    decreases |t|, 0
  {
    if |t| > 1 && t[1] == 93 then Some((TArr([]), t[2..]))
    else
      var items := ReadItems(t[1..]);
      if items.None? then None else Some((TArr(items.value.0), items.value.1))
  }

  function ReadObject(t: Text): (r: Option<(Tree, Text)>)
    requires t != []
    ensures r.Some? ==> |r.value.1| < |t|
    decreases |t|, 0
  {
    if |t| > 1 && t[1] == 125 then Some((TObj([]), t[2..]))
    else
      var ms := ReadMembers(t[1..]);
      if ms.None? then None else Some((TObj(ms.value.0), ms.value.1))
  }

  function ReadItems(t: Text): (r: Option<(seq<Tree>, Text)>)
    ensures r.Some? ==> |r.value.1| < |t|
    decreases |t|, 2
  {
    var v := ReadValue(t);
    if v.None? || v.value.1 == [] then None
    else
      var (tree, rest) := v.value;
      if rest[0] == 93 then Some(([tree], rest[1..]))
      else if rest[0] != 44 then None
      else
        var tail := ReadItems(rest[1..]);
        if tail.None? then None else Some(([tree] + tail.value.0, tail.value.1))
  }

  function ReadMember(t: Text): (r: Option<((Text, Tree), Text)>)
    ensures r.Some? ==> |r.value.1| < |t|
    decreases |t|, 2
  {
    if t == [] || t[0] != 34 then None
    else
      var key := ReadString(t[1..]);
      if key.None? || key.value.1 == [] || key.value.1[0] != 58 then None
      else
        var v := ReadValue(key.value.1[1..]);
        if v.None? then None else Some(((key.value.0, v.value.0), v.value.1))
  }

  function ReadMembers(t: Text): (r: Option<(seq<(Text, Tree)>, Text)>)
    ensures r.Some? ==> |r.value.1| < |t|
    decreases |t|, 3
  {
    var m := ReadMember(t);
    if m.None? || m.value.1 == [] then None
    else
      var (member, rest) := m.value;
      if rest[0] == 125 then Some(([member], rest[1..]))
      else if rest[0] != 44 then None
      else
        var tail := ReadMembers(rest[1..]);
        if tail.None? then None else Some(([member] + tail.value.0, tail.value.1))
  }

  function Parse(bs: bytes): (r: Option<Tree>) {
    var text := Utf8Decode(bs);
    if text.None? then None
    else
      var v := ReadValue(text.value);
      if v.Some? && v.value.1 == [] then Some(v.value.0) else None
  }

  // ── What a tree stands for ────────────────────────────────────────────────────────────────────

  function LiteralDouble(l: Literal): (r: Double) {
    var d := LiteralDecimal(l);
    if d.digits == [] then ZeroDouble else FiniteDouble(l.negative, d)
  }

  /** The document a tree spells. */
  function Denote(t: Tree): (r: Doc) {
    match t
    case TNull => DNull
    case TBool(b) => DBool(b)
    case TStr(s) => DStr(s)
    case TNum(l) => DNum(LiteralDouble(l))
    case TArr(items) => DArr(seq(|items|, i requires 0 <= i < |items| => Denote(items[i])))
    case TObj(ms) => DObj(MapOf(seq(|ms|, i requires 0 <= i < |ms| => (ms[i].0, Denote(ms[i].1)))))
  }

  function Read(bs: bytes): (r: Option<Doc>) {
    var t := Parse(bs);
    if t.Some? then Some(Denote(t.value)) else None
  }

  /** What `float()` makes of a signed decimal that is not zero, given by the double's shortest digits. */
  type Rounding = (bool, Decimal) -> Float

  /** The double of an integer; none when it is out of range. */
  function IntFloat(near: Rounding, n: int): (r: Option<Float>) {
    if n == 0 then Some(Zero(false))
    else
      var x := near(n < 0, DecimalOf(Abs(n)));
      if x.Infinite? then None else Some(x)
  }

  predicate Bare(l: Literal) {
    l.fraction.None? && l.power.None?
  }

  function SignedNum(l: Literal): (n: int) {
    if l.negative then 0 - NumOf(l.whole) else NumOf(l.whole)
  }

  /** `json.loads` makes an `int` of a bare integer and a `float` of any other number. */
  function LoadNumber(near: Rounding, l: Literal): (r: Json) {
    if Bare(l) then Int(SignedNum(l), IntFloat(near, SignedNum(l)))
    else if LiteralDecimal(l).digits == [] then Real(Zero(l.negative))
    else Real(near(l.negative, LiteralDecimal(l)))
  }

  function IndexOfKey(d: seq<(Text, Json)>, k: Text): (r: nat)
    ensures r <= |d| && (r < |d| ==> d[r].0 == k)
  {
    if d == [] then 0
    else if d[0].0 == k then 0
    else 1 + IndexOfKey(d[1..], k)
  }

  /** A dictionary filled member by member: a later member replaces the value of an equal key in its place. */
  function DictOf(ms: seq<(Text, Json)>): (r: seq<(Text, Json)>) {
    if ms == [] then []
    else
      var d, last := DictOf(ms[..|ms| - 1]), ms[|ms| - 1];
      var i := IndexOfKey(d, last.0);
      if i < |d| then d[i := last] else d + [last]
  }

  /** The Python value a tree is loaded as. */
  function LoadTree(near: Rounding, t: Tree): (r: Json) {
    match t
    case TNull => Null
    case TBool(b) => Bool(b)
    case TStr(s) => Str(s)
    case TNum(l) => LoadNumber(near, l)
    case TArr(items) => Arr(seq(|items|, i requires 0 <= i < |items| => LoadTree(near, items[i])))
    case TObj(ms) => Obj(DictOf(seq(|ms|, i requires 0 <= i < |ms| => (ms[i].0, LoadTree(near, ms[i].1)))))
  }

  /** `json.loads`. */
  function Load(near: Rounding, bs: bytes): (r: Option<Json>) {
    var t := Parse(bs);
    if t.Some? then Some(LoadTree(near, t.value)) else None
  }

  // ── Values read back ──────────────────────────────────────────────────────────────────────────

  /** The text is read as the document wherever a value may end. */
  ghost predicate ReadsAs(text: Text, tree: Tree) {
    forall rest :: Stops(rest) ==> ReadValue(text + rest) == Some((tree, rest))
  }

  lemma BracketIsNoValue(text: Text)
    ensures text == [] || text[0] == 93 ==> ReadValue(text).None?
  {
  }

  lemma ReadsAsHead(text: Text, tree: Tree)
    requires ReadsAs(text, tree)
    ensures text != [] && text[0] != 93
  {
    assert ReadValue(text + []) == Some((tree, []));
    assert text + [] == text;
    BracketIsNoValue(text);
  }

  ghost predicate AllReadAs(texts: seq<Text>, trees: seq<Tree>) {
    |texts| == |trees| && forall i :: 0 <= i < |texts| ==> ReadsAs(texts[i], trees[i])
  }

  lemma ReadsAsAt(text: Text, tree: Tree, rest: Text)
    requires ReadsAs(text, tree) && Stops(rest)
    ensures ReadValue(text + rest) == Some((tree, rest))
  {
  }

  lemma ItemsLast(t: Text, tree: Tree, rest: Text)
    requires ReadValue(t) == Some((tree, [93] + rest))
    ensures ReadItems(t) == Some(([tree], rest))
  {
    assert ([93] + rest)[1..] == rest;
  }

  lemma ItemsMore(t: Text, tree: Tree, tail: Text, trees: seq<Tree>, rest: Text)
    requires ReadValue(t) == Some((tree, [COMMA] + tail)) && ReadItems(tail) == Some((trees, rest))
    ensures ReadItems(t) == Some(([tree] + trees, rest))
  {
    assert ([COMMA] + tail)[1..] == tail;
  }

  lemma {:induction false} ItemsReadBack(texts: seq<Text>, trees: seq<Tree>, rest: Text)
    requires texts != [] && AllReadAs(texts, trees)
    ensures ReadItems(CommaJoined(texts) + ([93] + rest)) == Some((trees, rest))
  {
    if |texts| == 1 {
      ReadsAsAt(texts[0], trees[0], [93] + rest);
      ItemsLast(texts[0] + ([93] + rest), trees[0], rest);
      assert trees == [trees[0]];
    } else {
      var tail := CommaJoined(texts[1..]) + ([93] + rest);
      Regroup(texts[0], [COMMA], CommaJoined(texts[1..]), [93] + rest);
      ReadsAsAt(texts[0], trees[0], [COMMA] + tail);
      ItemsReadBack(texts[1..], trees[1..], rest);
      ItemsMore(texts[0] + ([COMMA] + tail), trees[0], tail, trees[1..], rest);
      assert trees == [trees[0]] + trees[1..];
    }
  }

  lemma ReadMemberOf(key: Text, value: Text, tree: Tree, rest: Text)
    requires ReadValue(value) == Some((tree, rest))
    ensures ReadMember([QUOTE] + (Escaped(key) + ([QUOTE] + ([COLON] + value)))) == Some(((key, tree), rest))
  {
    var t := [QUOTE] + (Escaped(key) + ([QUOTE] + ([COLON] + value)));
    assert t[1..] == Escaped(key) + ([QUOTE] + ([COLON] + value));
    StringReadsBack(key, [COLON] + value);
    assert ([COLON] + value)[1..] == value;
  }

  lemma MemberReadsBack(m: (Text, Text), tree: Tree, rest: Text)
    requires ReadsAs(m.1, tree) && Stops(rest)
    ensures ReadMember(MemberText(m) + rest) == Some(((m.0, tree), rest))
  {
    MemberTextLayout(m, rest);
    ReadsAsAt(m.1, tree, rest);
    ReadMemberOf(m.0, m.1 + rest, tree, rest);
  }

  lemma MemberTextLayout(m: (Text, Text), rest: Text)
    ensures MemberText(m) + rest == [QUOTE] + (Escaped(m.0) + ([QUOTE] + ([COLON] + (m.1 + rest))))
  {
    var e := Escaped(m.0);
    assert ([QUOTE] + (e + [QUOTE])) + ([COLON] + m.1) == [QUOTE] + (e + ([QUOTE] + ([COLON] + m.1)));
    assert ([QUOTE] + ([COLON] + m.1)) + rest == [QUOTE] + ([COLON] + (m.1 + rest));
    Regroup([QUOTE], e, [QUOTE] + ([COLON] + m.1), rest);
  }

  lemma MembersLast(t: Text, member: (Text, Tree), rest: Text)
    requires ReadMember(t) == Some((member, [125] + rest))
    ensures ReadMembers(t) == Some(([member], rest))
  {
    assert ([125] + rest)[1..] == rest;
  }

  lemma MembersMore(t: Text, member: (Text, Tree), tail: Text, trees: seq<(Text, Tree)>, rest: Text)
    requires ReadMember(t) == Some((member, [COMMA] + tail)) && ReadMembers(tail) == Some((trees, rest))
    ensures ReadMembers(t) == Some(([member] + trees, rest))
  {
    assert ([COMMA] + tail)[1..] == tail;
  }

  /** The texts of members, each read as the document at the same place. */
  ghost predicate MembersReadAs(ms: seq<(Text, Text)>, trees: seq<(Text, Tree)>) {
    |ms| == |trees| && forall i :: 0 <= i < |ms| ==> ms[i].0 == trees[i].0 && ReadsAs(ms[i].1, trees[i].1)
  }

  lemma {:induction false} MembersReadBack(ms: seq<(Text, Text)>, trees: seq<(Text, Tree)>, rest: Text)
    requires ms != [] && MembersReadAs(ms, trees)
    ensures ReadMembers(CommaJoined(MemberTexts(ms)) + ([125] + rest)) == Some((trees, rest))
  {
    var texts := MemberTexts(ms);
    assert trees[0] == (ms[0].0, trees[0].1);
    if |ms| == 1 {
      MemberReadsBack(ms[0], trees[0].1, [125] + rest);
      MembersLast(texts[0] + ([125] + rest), trees[0], rest);
      assert trees == [trees[0]];
    } else {
      assert texts[1..] == MemberTexts(ms[1..]);
      var tail := CommaJoined(texts[1..]) + ([125] + rest);
      Regroup(texts[0], [COMMA], CommaJoined(texts[1..]), [125] + rest);
      MemberReadsBack(ms[0], trees[0].1, [COMMA] + tail);
      MembersReadBack(ms[1..], trees[1..], rest);
      MembersMore(texts[0] + ([COMMA] + tail), trees[0], tail, trees[1..], rest);
      assert trees == [trees[0]] + trees[1..];
    }
  }

  lemma ReadBracketed(t: Text)
    requires t != []
    ensures t[0] == 91 ==> ReadValue(t) == ReadArray(t)
    ensures t[0] == 123 ==> ReadValue(t) == ReadObject(t)
  {
  }

  lemma ReadArr(inner: Text, trees: seq<Tree>, rest: Text)
    requires inner != [] && inner[0] != 93 && ReadItems(inner) == Some((trees, rest))
    ensures ReadValue([91] + inner) == Some((TArr(trees), rest))
  {
    var t := [91] + inner;
    assert t[1] == inner[0] && t[1..] == inner;
    ReadBracketed(t);
  }

  lemma ReadObj(inner: Text, trees: seq<(Text, Tree)>, rest: Text)
    requires inner != [] && inner[0] != 125 && ReadMembers(inner) == Some((trees, rest))
    ensures ReadValue([123] + inner) == Some((TObj(trees), rest))
  {
    var t := [123] + inner;
    assert t[1] == inner[0] && t[1..] == inner;
    ReadBracketed(t);
  }

  lemma ReadEmpty(rest: Text)
    ensures ReadValue([91] + ([] + ([93] + rest))) == Some((TArr([]), rest))
    ensures ReadValue([123] + ([] + ([125] + rest))) == Some((TObj([]), rest))
  {
    var a, o := [91] + ([] + ([93] + rest)), [123] + ([] + ([125] + rest));
    assert a[1] == 93 && a[2..] == rest && o[1] == 125 && o[2..] == rest;
    ReadBracketed(a);
    ReadBracketed(o);
  }

  lemma JoinedHead(texts: seq<Text>)
    requires texts != [] && texts[0] != []
    ensures CommaJoined(texts) != [] && CommaJoined(texts)[0] == texts[0][0]
  {
  }

  lemma ArrReadsAs(texts: seq<Text>, trees: seq<Tree>)
    requires AllReadAs(texts, trees)
    ensures ReadsAs([91] + (CommaJoined(texts) + [93]), TArr(trees))
  {
    var inner := CommaJoined(texts);
    forall rest | Stops(rest) ensures ReadValue([91] + (inner + [93]) + rest) == Some((TArr(trees), rest)) {
      Regroup([91], inner, [93], rest);
      if texts == [] {
        ReadEmpty(rest);
      } else {
        ReadsAsHead(texts[0], trees[0]);
        JoinedHead(texts);
        ItemsReadBack(texts, trees, rest);
        ReadArr(inner + ([93] + rest), trees, rest);
      }
    }
  }

  lemma ObjReadsAs(ms: seq<(Text, Text)>, trees: seq<(Text, Tree)>)
    requires MembersReadAs(ms, trees)
    ensures ReadsAs([123] + (CommaJoined(MemberTexts(ms)) + [125]), TObj(trees))
  {
    var inner := CommaJoined(MemberTexts(ms));
    forall rest | Stops(rest) ensures ReadValue([123] + (inner + [125]) + rest) == Some((TObj(trees), rest)) {
      Regroup([123], inner, [125], rest);
      if ms == [] {
        ReadEmpty(rest);
      } else {
        JoinedHead(MemberTexts(ms));
        MembersReadBack(ms, trees, rest);
        ReadObj(inner + ([125] + rest), trees, rest);
      }
    }
  }

  lemma StrReadsAs(s: Text)
    ensures ReadsAs(StringText(s), TStr(s))
  {
    forall rest | Stops(rest) ensures ReadValue(StringText(s) + rest) == Some((TStr(s), rest)) {
      var t := StringText(s) + rest;
      assert t[0] == QUOTE && t[1..] == Escaped(s) + ([QUOTE] + rest);
      StringReadsBack(s, rest);
    }
  }

  lemma WordReadsAs(word: Text, tree: Tree)
    requires (word == Chars("null") && tree == TNull) || (word == Chars("true") && tree == TBool(true))
          || (word == Chars("false") && tree == TBool(false))
    ensures ReadsAs(word, tree)
  {
    assert Chars("null")[0] == 110 && Chars("true")[0] == 116 && Chars("false")[0] == 102;
    forall rest | Stops(rest) ensures ReadValue(word + rest) == Some((tree, rest)) {
      assert (word + rest)[0] == word[0] && (word + rest)[|word|..] == rest;
    }
  }

  /** Number text starts with a sign or a digit. */
  lemma LiteralHead(l: Literal, rest: Text)
    requires LiteralOk(l)
    ensures LiteralText(l) + rest != []
    ensures (LiteralText(l) + rest)[0] == MINUS || IsDigit((LiteralText(l) + rest)[0])
  {
    assert (LiteralText(l) + rest)[0] == if l.negative then MINUS else l.whole[0];
  }

  lemma LiteralReadsAs(l: Literal)
    requires LiteralOk(l)
    ensures ReadsAs(LiteralText(l), TNum(l))
  {
    forall rest | Stops(rest) ensures ReadValue(LiteralText(l) + rest) == Some((TNum(l), rest)) {
      ReadLiteralOf(l, rest);
      LiteralHead(l, rest);
    }
  }

  /** The text a double has, whether it came from a float or an integer. */
  function DoubleText(d: Double): (r: Text)
    requires d.FiniteDouble? ==> Normal(d.magnitude)
  {
    if d.ZeroDouble? then [ZERO] else LiteralText(Layout(d.negative, d.magnitude))
  }

  /** The number a double is written as. */
  function NumTree(d: Double): (r: Tree) {
    if d.FiniteDouble? && Normal(d.magnitude) then TNum(Layout(d.negative, d.magnitude)) else TNum(IntLiteral(0))
  }

  lemma ZeroLiteral()
    ensures LiteralText(IntLiteral(0)) == [ZERO] && LiteralDouble(IntLiteral(0)) == ZeroDouble
  {
    IntLiteralText(0);
    assert [ZERO][1..] == [];
    assert StripHead([ZERO]) == [];
  }

  lemma DoubleReadsAs(d: Double)
    requires d.FiniteDouble? ==> Normal(d.magnitude)
    ensures ReadsAs(DoubleText(d), NumTree(d)) && Denote(NumTree(d)) == DNum(d)
  {
    ZeroLiteral();
    if d.FiniteDouble? {
      LayoutDecimal(d.negative, d.magnitude);
      LiteralReadsAs(Layout(d.negative, d.magnitude));
    } else {
      LiteralReadsAs(IntLiteral(0));
    }
  }

  lemma FloatText(x: Float)
    requires FloatOk(x) && NumberText(x).Some?
    ensures FloatDouble(x).FiniteDouble? ==> Normal(FloatDouble(x).magnitude)
    ensures NumberText(x) == Some(DoubleText(FloatDouble(x)))
  {
    if x.Finite? {
      TrimNormal(x.raw, x.exponent);
      BodyIsLayout(x.negative, Trim(x.raw, x.exponent));
    }
  }

  lemma {:induction false} DecDigitsShort(n: nat, k: nat)
    requires n < TenTo(k)
    ensures |DecDigits(n)| <= k + 1
    decreases k
  {
    if n >= 10 {
      DecDigitsShort(n / 10, k - 1);
    }
  }

  lemma SafeIntsAreShort(n: nat)
    requires n <= MAX_SAFE_INT
    ensures |DecDigits(n)| <= 17
  {
    assert TenTo(4) == 1_0000;
    assert TenTo(8) == 1_0000_0000;
    assert TenTo(12) == 1_0000_0000_0000;
    assert TenTo(16) == 1_0000_0000_0000_0000;
    DecDigitsShort(n, 16);
  }

  lemma WritableIntShort(n: int, float: Option<Float>)
    requires Writable(Int(n, float))
    ensures |DecDigits(Abs(n))| <= 21
  {
    if Abs(n) <= MAX_SAFE_INT {
      SafeIntsAreShort(Abs(n));
    } else if float.value.Finite? {
      IntegersPrintAsThemselves(n, float.value);
    }
  }

  lemma IntDoubleText(n: int, float: Option<Float>)
    requires Writable(Int(n, float))
    ensures IntText(n) == DoubleText(IntDouble(n))
  {
    if n == 0 {
      assert IntText(0) == [] + [ZERO];
    } else {
      IntegerLayout(n);
      IntLiteralText(n);
      WritableIntShort(n, float);
    }
  }

  // ── Members as a map ──────────────────────────────────────────────────────────────────────────

  /** With distinct keys, the map holds exactly the listed members. */
  lemma {:induction false} MapOfMembers(ms: seq<(Text, Doc)>)
    requires DistinctKeys(ms)
    ensures forall m :: m in ms <==> m.0 in MapOf(ms) && MapOf(ms)[m.0] == m.1
  {
    if ms != [] {
      var init, last := ms[..|ms| - 1], ms[|ms| - 1];
      MapOfMembers(init);
      assert ms == init + [last];
      assert forall m :: m in init ==> m.0 != last.0;
      forall m: (Text, Doc) ensures m in ms <==> m.0 in MapOf(ms) && MapOf(ms)[m.0] == m.1 {
        assert m in ms <==> m in init || m == last;
        if m.0 == last.0 && m in init {
          assert false;
        }
        if m.0 == last.0 && m.1 == last.1 {
          assert m == last;
        }
      }
    }
  }

  lemma SameMap(xs: seq<(Text, Doc)>, ys: seq<(Text, Doc)>)
    requires DistinctKeys(xs) && DistinctKeys(ys)
    ensures MapOf(xs) == MapOf(ys) <==> forall m :: m in xs <==> m in ys
  {
    MapOfMembers(xs);
    MapOfMembers(ys);
    var a, b := MapOf(xs), MapOf(ys);
    if forall m :: m in xs <==> m in ys {
      forall k: Text ensures k in a <==> k in b {
        assert k in a ==> (k, a[k]) in xs && (k, a[k]) in ys;
        assert k in b ==> (k, b[k]) in ys && (k, b[k]) in xs;
      }
      forall k: Text | k in a ensures a[k] == b[k] {
        assert (k, a[k]) in xs && (k, a[k]) in ys;
      }
      assert a == b;
    }
  }

  // ── The main results ──────────────────────────────────────────────────────────────────────────

  ghost function ItemDocs(items: seq<Json>): (r: seq<Doc>)
    ensures |r| == |items| && forall i :: 0 <= i < |items| ==> r[i] == Meaning(items[i])
  {
    seq(|items|, i requires 0 <= i < |items| => Meaning(items[i]))
  }

  lemma ArrMeaning(items: seq<Json>)
    ensures Meaning(Arr(items)) == DArr(ItemDocs(items))
  {
    assert seq(|items|, i requires 0 <= i < |items| => Meaning(items[i])) == ItemDocs(items);
  }

  lemma ObjMeaning(ms: seq<(Text, Json)>)
    ensures Meaning(Obj(ms)) == DObj(MapOf(Keyed(ms, Meaning)))
  {
    assert seq(|ms|, i requires 0 <= i < |ms| => (ms[i].0, Meaning(ms[i].1))) == Keyed(ms, Meaning);
  }

  /** A list in which no element repeats has one copy of each. */
  lemma {:induction false} CountsOfDistinct<T>(xs: seq<T>, x: T)
    requires forall i, j :: 0 <= i < j < |xs| ==> xs[i] != xs[j]
    ensures multiset(xs)[x] == if x in xs then 1 else 0
  {
    if xs != [] {
      var init, last := xs[..|xs| - 1], xs[|xs| - 1];
      assert xs == init + [last];
      CountsOfDistinct(init, x);
      assert last !in init;
    }
  }

  /** Rearranging members leaves their keys distinct. */
  lemma SortedDistinct<T>(ms: seq<(Text, T)>, sorted: seq<(Text, T)>)
    requires DistinctKeys(ms) && multiset(sorted) == multiset(ms)
    ensures DistinctKeys(sorted)
  {
    SameMembers(sorted, ms);
    forall i, j | 0 <= i < j < |sorted| ensures sorted[i].0 != sorted[j].0 {
      if sorted[i].0 == sorted[j].0 {
        SameMember(ms, sorted[i], sorted[j]);
        TwoCopies(sorted, i, j);
        CountsOfDistinct(ms, sorted[i]);
      }
    }
  }

  lemma SameMember<T>(ms: seq<(Text, T)>, a: (Text, T), b: (Text, T))
    requires DistinctKeys(ms) && a in ms && b in ms && a.0 == b.0
    ensures a == b
  {
    var i :| 0 <= i < |ms| && ms[i] == a;
    var j :| 0 <= j < |ms| && ms[j] == b;
    assert i < j || j < i || i == j;
  }

  lemma TwoCopies<T>(xs: seq<T>, i: nat, j: nat)
    requires i < j < |xs| && xs[i] == xs[j]
    ensures multiset(xs)[xs[i]] >= 2
  {
    assert xs == xs[..i] + [xs[i]] + xs[i + 1..j] + [xs[j]] + xs[j + 1..];
  }

  lemma KeyedDistinct<T>(ms: seq<(Text, Json)>, f: Json -> T)
    requires DistinctKeys(ms)
    ensures DistinctKeys(Keyed(ms, f))
  {
  }

  lemma KeyedMembers<T>(xs: seq<(Text, Json)>, ys: seq<(Text, Json)>, f: Json -> T)
    requires multiset(xs) == multiset(ys)
    ensures forall m :: m in Keyed(xs, f) <==> m in Keyed(ys, f)
  {
    SameMembers(xs, ys);
    forall m: (Text, T) ensures m in Keyed(xs, f) <==> m in Keyed(ys, f) {
      if m in Keyed(xs, f) {
        var i :| 0 <= i < |xs| && Keyed(xs, f)[i] == m;
        assert xs[i] in ys;
        var j :| 0 <= j < |ys| && ys[j] == xs[i];
        assert Keyed(ys, f)[j] == m;
      }
      if m in Keyed(ys, f) {
        var j :| 0 <= j < |ys| && Keyed(ys, f)[j] == m;
        assert ys[j] in xs;
        var i :| 0 <= i < |xs| && xs[i] == ys[j];
        assert Keyed(xs, f)[i] == m;
      }
    }
  }

  lemma SortedMeaning(ms: seq<(Text, Json)>, sorted: seq<(Text, Json)>)
    requires DistinctKeys(ms) && multiset(sorted) == multiset(ms)
    ensures MapOf(Keyed(sorted, Meaning)) == MapOf(Keyed(ms, Meaning))
  {
    SortedDistinct(ms, sorted);
    KeyedDistinct(ms, Meaning);
    KeyedDistinct(sorted, Meaning);
    KeyedMembers(ms, sorted, Meaning);
    SameMap(Keyed(ms, Meaning), Keyed(sorted, Meaning));
  }

  /** The tree of the canonical text of a value. */
  function TreeOf(v: Json): (r: Tree) {
    match v
    case Null => TNull
    case Bool(b) => TBool(b)
    case Str(s) => TStr(s)
    case Int(n, _) => NumTree(IntDouble(n))
    case Real(x) => NumTree(FloatDouble(x))
    case Arr(items) => TArr(seq(|items|, i requires 0 <= i < |items| => TreeOf(items[i])))
    case Obj(ms) => TObj(Sort(seq(|ms|, i requires 0 <= i < |ms| => (ms[i].0, TreeOf(ms[i].1))), KeyLe))
    case Other => TNull
  }

  ghost function ItemTrees(items: seq<Json>): (r: seq<Tree>)
    ensures |r| == |items| && forall i :: 0 <= i < |items| ==> r[i] == TreeOf(items[i])
  {
    seq(|items|, i requires 0 <= i < |items| => TreeOf(items[i]))
  }

  lemma ArrTree(items: seq<Json>)
    ensures TreeOf(Arr(items)) == TArr(ItemTrees(items))
  {
    assert seq(|items|, i requires 0 <= i < |items| => TreeOf(items[i])) == ItemTrees(items);
  }

  lemma ObjTree(ms: seq<(Text, Json)>)
    ensures TreeOf(Obj(ms)) == TObj(Keyed(Sort(ms, KeyLe), TreeOf))
  {
    assert seq(|ms|, i requires 0 <= i < |ms| => (ms[i].0, TreeOf(ms[i].1))) == Keyed(ms, TreeOf);
    SortKeyed(ms, TreeOf);
  }

  lemma NumberReadsAs(v: Json)
    requires Writable(v) && (v.Int? || v.Real?)
    ensures ReadsAs(TextOf(v), TreeOf(v)) && Denote(TreeOf(v)) == Meaning(v)
  {
    if v.Int? {
      IntDoubleText(v.n, v.float);
      DoubleReadsAs(IntDouble(v.n));
    } else {
      FloatText(v.v);
      DoubleReadsAs(FloatDouble(v.v));
    }
  }

  /** The text of a value is read back as its tree, wherever a value may end. */
  lemma {:induction false} TextReadsAs(v: Json)
    requires Writable(v)
    ensures ReadsAs(TextOf(v), TreeOf(v))
  {
    match v
    case Null => WordReadsAs(Chars("null"), TNull);
    case Bool(b) => WordReadsAs(if b then Chars("true") else Chars("false"), TBool(b));
    case Str(s) => StrReadsAs(s);
    case Int(_, _) => NumberReadsAs(v);
    case Real(_) => NumberReadsAs(v);
    case Arr(items) =>
      forall i | 0 <= i < |items| ensures ReadsAs(ItemTexts(items)[i], ItemTrees(items)[i]) {
        TextReadsAs(items[i]);
      }
      ArrText(items);
      ArrTree(items);
      ArrReadsAs(ItemTexts(items), ItemTrees(items));
    case Obj(ms) =>
      forall i | 0 <= i < |ms| ensures ReadsAs(TextOf(ms[i].1), TreeOf(ms[i].1)) {
        TextReadsAs(ms[i].1);
      }
      ObjTextReadsAs(ms);
  }

  lemma SortedReadAs(ms: seq<(Text, Json)>, sorted: seq<(Text, Json)>)
    requires multiset(sorted) == multiset(ms)
    requires forall i :: 0 <= i < |ms| ==> ReadsAs(TextOf(ms[i].1), TreeOf(ms[i].1))
    ensures MembersReadAs(Keyed(sorted, TextOf), Keyed(sorted, TreeOf))
  {
    forall i | 0 <= i < |sorted| ensures ReadsAs(Keyed(sorted, TextOf)[i].1, Keyed(sorted, TreeOf)[i].1) {
      assert sorted[i] in multiset(ms);
      var j :| 0 <= j < |ms| && ms[j] == sorted[i];
    }
  }

  lemma ObjTextReadsAs(ms: seq<(Text, Json)>)
    requires forall i :: 0 <= i < |ms| ==> ReadsAs(TextOf(ms[i].1), TreeOf(ms[i].1))
    ensures ReadsAs(TextOf(Obj(ms)), TreeOf(Obj(ms)))
  {
    var sorted := Sort(ms, KeyLe);
    SortedReadAs(ms, sorted);
    ObjText(ms);
    ObjTree(ms);
    ObjReadsAs(Keyed(sorted, TextOf), Keyed(sorted, TreeOf));
  }

  /** The canonical bytes of a value are parsed as its tree. */
  lemma ParsesAsTree(v: Json)
    requires Canonicalize(v).Some?
    ensures Parse(Canonicalize(v).value) == Some(TreeOf(v))
  {
    TextReadsAs(v);
    Utf8RoundTrip(TextOf(v));
    ReadsAsAt(TextOf(v), TreeOf(v), []);
    assert TextOf(v) + [] == TextOf(v);
  }

  /** The members read from the canonical bytes of a dictionary come in the order of their keys' UTF-16 code units. */
  lemma MembersParsedInOrder(ms: seq<(Text, Json)>, i: nat, j: nat)
    requires Canonicalize(Obj(ms)).Some? && i < j < |ms|
    ensures var t := Parse(Canonicalize(Obj(ms)).value);
            && t.Some? && t.value.TObj? && |t.value.members| == |ms|
            && AllScalar(t.value.members[i].0) && AllScalar(t.value.members[j].0)
            && var a, b := Utf16(t.value.members[i].0), Utf16(t.value.members[j].0); (a == b || Earlier(a, b))
  {
    ParsesAsTree(Obj(ms));
    ObjTree(ms);
    assert |Sort(ms, KeyLe)| == |multiset(Sort(ms, KeyLe))| == |multiset(ms)| == |ms|;
    KeysInCodeUnitOrder(ms, i, j);
  }

  /** The tree of a value spells the document the value stands for. */
  lemma {:induction false} TreeDenotes(v: Json)
    requires Writable(v) && DictsOk(v)
    ensures Denote(TreeOf(v)) == Meaning(v)
  {
    match v
    case Int(_, _) => NumberReadsAs(v);
    case Real(_) => NumberReadsAs(v);
    case Arr(items) =>
      ArrTree(items);
      ArrMeaning(items);
      forall i | 0 <= i < |items| ensures Denote(ItemTrees(items)[i]) == ItemDocs(items)[i] {
        TreeDenotes(items[i]);
      }
      assert seq(|items|, i requires 0 <= i < |items| => Denote(ItemTrees(items)[i])) == ItemDocs(items);
    case Obj(ms) =>
      forall i | 0 <= i < |ms| ensures Denote(TreeOf(ms[i].1)) == Meaning(ms[i].1) {
        TreeDenotes(ms[i].1);
      }
      ObjTreeDenotes(ms);
    case _ =>
  }

  ghost function DenoteMembers(trees: seq<(Text, Tree)>): (r: seq<(Text, Doc)>)
    ensures |r| == |trees| && forall i :: 0 <= i < |trees| ==> r[i] == (trees[i].0, Denote(trees[i].1))
    ensures Denote(TObj(trees)) == DObj(MapOf(r))
  {
    var r := seq(|trees|, i requires 0 <= i < |trees| => (trees[i].0, Denote(trees[i].1)));
    assert Denote(TObj(trees)) == DObj(MapOf(r));
    r
  }

  lemma SortedDenote(ms: seq<(Text, Json)>, sorted: seq<(Text, Json)>)
    requires multiset(sorted) == multiset(ms) && forall i :: 0 <= i < |ms| ==> Denote(TreeOf(ms[i].1)) == Meaning(ms[i].1)
    ensures DenoteMembers(Keyed(sorted, TreeOf)) == Keyed(sorted, Meaning)
  {
    forall i | 0 <= i < |sorted| ensures Denote(TreeOf(sorted[i].1)) == Meaning(sorted[i].1) {
      assert sorted[i] in multiset(ms);
      var j :| 0 <= j < |ms| && ms[j] == sorted[i];
    }
  }

  lemma ObjTreeDenotes(ms: seq<(Text, Json)>)
    requires DistinctKeys(ms) && forall i :: 0 <= i < |ms| ==> Denote(TreeOf(ms[i].1)) == Meaning(ms[i].1)
    ensures Denote(TreeOf(Obj(ms))) == Meaning(Obj(ms))
  {
    var sorted := Sort(ms, KeyLe);
    ObjTree(ms);
    ObjMeaning(ms);
    SortedMeaning(ms, sorted);
    SortedDenote(ms, sorted);
  }

  /** Reading the canonical bytes gives the document that was written: nothing is lost but the order of members,
      the distinction of integer and float, and the sign of zero. */
  lemma ReadInvertsCanonicalize(v: Json)
    requires DictsOk(v) && Canonicalize(v).Some?
    ensures Read(Canonicalize(v).value) == Some(Meaning(v))
  {
    ParsesAsTree(v);
    TreeDenotes(v);
  }

  lemma SameSort(xs: seq<(Text, Text)>, ys: seq<(Text, Text)>)
    requires DistinctKeys(xs) && DistinctKeys(ys) && forall m :: m in xs <==> m in ys
    requires forall m :: m in xs ==> AllScalar(m.0)
    ensures Sort(xs, KeyLe) == Sort(ys, KeyLe)
  {
    forall m ensures multiset(xs)[m] == multiset(ys)[m] {
      CountsOfDistinct(xs, m);
      CountsOfDistinct(ys, m);
    }
    KeyLeTotal<Text>();
    SortSorted(xs, KeyLe);
    SortSorted(ys, KeyLe);
    SameMembers(Sort(xs, KeyLe), xs);
    forall a, b | a in Sort(xs, KeyLe) && b in Sort(xs, KeyLe) && KeyLe(a, b) && KeyLe(b, a) ensures a == b {
      KeyLeAntisymmetric(a.0, b.0);
      SameMember(xs, a, b);
    }
    SortedUnique(Sort(xs, KeyLe), Sort(ys, KeyLe), KeyLe);
  }

  lemma MatchingMember(ms: seq<(Text, Json)>, ns: seq<(Text, Json)>, i: nat) returns (j: nat)
    requires DistinctKeys(ms) && DistinctKeys(ns) && i < |ms|
    requires MapOf(Keyed(ms, Meaning)) == MapOf(Keyed(ns, Meaning))
    ensures j < |ns| && ns[j].0 == ms[i].0 && Meaning(ns[j].1) == Meaning(ms[i].1)
  {
    KeyedDistinct(ms, Meaning);
    KeyedDistinct(ns, Meaning);
    SameMap(Keyed(ms, Meaning), Keyed(ns, Meaning));
    assert Keyed(ms, Meaning)[i] in Keyed(ms, Meaning);
    j :| 0 <= j < |ns| && Keyed(ns, Meaning)[j] == Keyed(ms, Meaning)[i];
  }

  /** A document has one text, however its members are ordered and its numbers were typed. */
  lemma {:induction false} MeaningDeterminesText(v: Json, w: Json)
    requires Writable(v) && Writable(w) && DictsOk(v) && DictsOk(w) && Meaning(v) == Meaning(w)
    ensures TextOf(v) == TextOf(w)
  {
    match v
    case Int(_, _) => NumbersPrintAlike(v, w);
    case Real(_) => NumbersPrintAlike(v, w);
    case Arr(items) =>
      ArrMeaning(items);
      ArrMeaning(w.items);
      forall i | 0 <= i < |items| ensures ItemTexts(items)[i] == ItemTexts(w.items)[i] {
        assert ItemDocs(items)[i] == ItemDocs(w.items)[i];
        MeaningDeterminesText(items[i], w.items[i]);
      }
      assert ItemTexts(items) == ItemTexts(w.items);
      ArrText(items);
      ArrText(w.items);
    case Obj(ms) =>
      var ns := w.members;
      ObjMeaning(ms);
      ObjMeaning(ns);
      forall i | 0 <= i < |ms| ensures Keyed(ms, TextOf)[i] in Keyed(ns, TextOf) {
        var j := MatchingMember(ms, ns, i);
        MeaningDeterminesText(ms[i].1, ns[j].1);
        assert Keyed(ns, TextOf)[j] == Keyed(ms, TextOf)[i];
      }
      forall j | 0 <= j < |ns| ensures Keyed(ns, TextOf)[j] in Keyed(ms, TextOf) {
        var i := MatchingMember(ns, ms, j);
        MeaningDeterminesText(ms[i].1, ns[j].1);
        assert Keyed(ms, TextOf)[i] == Keyed(ns, TextOf)[j];
      }
      SortedAlike(ms, ns);
    case _ =>
  }

  lemma NumbersPrintAlike(v: Json, w: Json)
    requires Writable(v) && Writable(w) && (v.Int? || v.Real?) && Meaning(v) == Meaning(w)
    ensures TextOf(v) == TextOf(w)
  {
    if v.Int? {
      IntDoubleText(v.n, v.float);
    } else {
      FloatText(v.v);
    }
    if w.Int? {
      IntDoubleText(w.n, w.float);
    } else {
      FloatText(w.v);
    }
  }

  lemma SortedAlike(ms: seq<(Text, Json)>, ns: seq<(Text, Json)>)
    requires DistinctKeys(ms) && DistinctKeys(ns) && forall i :: 0 <= i < |ms| ==> AllScalar(ms[i].0)
    requires forall i :: 0 <= i < |ms| ==> Keyed(ms, TextOf)[i] in Keyed(ns, TextOf)
    requires forall j :: 0 <= j < |ns| ==> Keyed(ns, TextOf)[j] in Keyed(ms, TextOf)
    ensures TextOf(Obj(ms)) == TextOf(Obj(ns))
  {
    KeyedDistinct(ms, TextOf);
    KeyedDistinct(ns, TextOf);
    forall m: (Text, Text) ensures m in Keyed(ms, TextOf) <==> m in Keyed(ns, TextOf) {
      if m in Keyed(ms, TextOf) {
        var i :| 0 <= i < |ms| && Keyed(ms, TextOf)[i] == m;
      }
      if m in Keyed(ns, TextOf) {
        var j :| 0 <= j < |ns| && Keyed(ns, TextOf)[j] == m;
      }
    }
    SameSort(Keyed(ms, TextOf), Keyed(ns, TextOf));
    SortKeyed(ms, TextOf);
    SortKeyed(ns, TextOf);
    ObjText(ms);
    ObjText(ns);
  }

  /** Two values have the same canonical bytes exactly when they are the same document. */
  lemma CanonicalForm(v: Json, w: Json)
    requires DictsOk(v) && DictsOk(w) && Canonicalize(v).Some? && Canonicalize(w).Some?
    ensures Canonicalize(v) == Canonicalize(w) <==> Meaning(v) == Meaning(w)
  {
    ReadInvertsCanonicalize(v);
    ReadInvertsCanonicalize(w);
    if Meaning(v) == Meaning(w) {
      MeaningDeterminesText(v, w);
    }
  }

  // ── Loading back into Python values ───────────────────────────────────────────────────────────

  /** `float()` gives a double back from the shortest digits it is written with. */
  ghost predicate SpelledBack(near: Rounding, d: Double) {
    d.FiniteDouble? ==>
      var x := near(d.negative, d.magnitude);
      x.Finite? && x.negative == d.negative && Trim(x.raw, x.exponent) == d.magnitude
  }

  /** The same for every number of a value that is past the safe integers. */
  ghost predicate SpellsAll(near: Rounding, v: Json) {
    match v
    case Int(n, _) => Abs(n) > MAX_SAFE_INT ==> SpelledBack(near, IntDouble(n))
    case Real(x) => SpelledBack(near, FloatDouble(x))
    case Arr(items) => forall i :: 0 <= i < |items| ==> SpellsAll(near, items[i])
    case Obj(ms) => forall i :: 0 <= i < |ms| ==> SpellsAll(near, ms[i].1)
    case _ => true
  }

  ghost predicate RoundingOk(near: Rounding) {
    forall b, d :: FloatOk(near(b, d))
  }

  /** A value that stands for the same document and may be written again. */
  ghost predicate Alike(v: Json, w: Json) {
    Writable(w) && DictsOk(w) && Meaning(w) == Meaning(v)
  }

  /** A number written as a bare integer is that integer's own literal. */
  lemma BareLayout(negative: bool, d: Decimal)
    requires Normal(d) && Bare(Layout(negative, d))
    ensures var n := SignedNum(Layout(negative, d));
            n != 0 && IntDouble(n) == FiniteDouble(negative, d) && |DecDigits(Abs(n))| <= 21
  {
    var l := Layout(negative, d);
    DecDigitsUnique(l.whole);
    LayoutDecimal(negative, d);
    assert StripHead(IntLiteral(SignedNum(l)).whole) == IntLiteral(SignedNum(l)).whole;
    IntegerLayout(SignedNum(l));
  }

  lemma LoadedIntWritable(near: Rounding, n: int)
    requires RoundingOk(near) && n != 0 && |DecDigits(Abs(n))| <= 21 && SpelledBack(near, IntDouble(n))
    ensures Writable(Int(n, IntFloat(near, n)))
  {
    if Abs(n) > MAX_SAFE_INT {
      IntegersPrintAsThemselves(n, near(n < 0, DecimalOf(Abs(n))));
    }
  }

  lemma LoadedLiteral(near: Rounding, l: Literal, d: Decimal)
    requires !Bare(l) && LiteralDecimal(l) == d && d.digits != []
    ensures LoadTree(near, TNum(l)) == Real(near(l.negative, d))
  {
  }

  lemma LoadedRealWritable(near: Rounding, d: Double)
    requires RoundingOk(near) && d.FiniteDouble? && SpelledBack(near, d)
    ensures var w := Real(near(d.negative, d.magnitude)); Writable(w) && Meaning(w) == DNum(d)
  {
  }

  /** An integer is written as its own literal and loaded as itself. */
  lemma LoadedInt(near: Rounding, n: int)
    requires |DecDigits(Abs(n))| <= 21
    ensures LoadTree(near, NumTree(IntDouble(n))) == Int(n, IntFloat(near, n))
  {
    DecDigitsValue(Abs(n));
    if n != 0 {
      IntegerLayout(n);
    }
    assert NumTree(IntDouble(n)) == TNum(IntLiteral(n));
  }

  lemma LoadedIntAlike(near: Rounding, n: int, float: Option<Float>)
    requires RoundingOk(near) && Writable(Int(n, float)) && (Abs(n) > MAX_SAFE_INT ==> SpelledBack(near, IntDouble(n)))
    ensures Alike(Int(n, float), LoadTree(near, TreeOf(Int(n, float))))
  {
    WritableIntShort(n, float);
    LoadedInt(near, n);
    if Abs(n) > MAX_SAFE_INT {
      LoadedIntWritable(near, n);
    }
  }

  /** A double printed as a bare integer is accepted again as that integer, any other as a float, and it is the
      same double. */
  lemma LoadedNumberSame(near: Rounding, d: Double)
    requires RoundingOk(near) && (d.FiniteDouble? ==> Normal(d.magnitude)) && SpelledBack(near, d)
    ensures var w := LoadTree(near, NumTree(d)); Writable(w) && Meaning(w) == DNum(d)
  {
    if d.ZeroDouble? {
      LoadedInt(near, 0);
    } else if Bare(Layout(d.negative, d.magnitude)) {
      BareLayout(d.negative, d.magnitude);
      LoadedInt(near, SignedNum(Layout(d.negative, d.magnitude)));
      LoadedIntWritable(near, SignedNum(Layout(d.negative, d.magnitude)));
    } else {
      LayoutDecimal(d.negative, d.magnitude);
      LoadedLiteral(near, Layout(d.negative, d.magnitude), d.magnitude);
      LoadedRealWritable(near, d);
    }
  }

  lemma {:induction false} DictOfDistinct(ms: seq<(Text, Json)>)
    requires DistinctKeys(ms)
    ensures DictOf(ms) == ms
  {
    if ms != [] {
      DictOfDistinct(ms[..|ms| - 1]);
      assert ms == ms[..|ms| - 1] + [ms[|ms| - 1]];
    }
  }

  lemma ArrLoadsAlike(items: seq<Json>, loaded: seq<Json>)
    requires |loaded| == |items| && forall i :: 0 <= i < |items| ==> Alike(items[i], loaded[i])
    ensures Alike(Arr(items), Arr(loaded))
  {
    ArrMeaning(items);
    ArrMeaning(loaded);
    assert ItemDocs(loaded) == ItemDocs(items);
  }

  lemma ArrLoads(near: Rounding, items: seq<Json>)
    requires forall i :: 0 <= i < |items| ==> Alike(items[i], LoadTree(near, TreeOf(items[i])))
    ensures Alike(Arr(items), LoadTree(near, TreeOf(Arr(items))))
  {
    ArrTree(items);
    var trees := ItemTrees(items);
    var loaded := seq(|trees|, i requires 0 <= i < |trees| => LoadTree(near, trees[i]));
    ArrLoadsAlike(items, loaded);
  }

  lemma ObjLoadsAlike(ms: seq<(Text, Json)>, sorted: seq<(Text, Json)>, loaded: seq<(Text, Json)>)
    requires DistinctKeys(ms) && multiset(sorted) == multiset(ms)
    requires |loaded| == |sorted|
    requires forall i :: 0 <= i < |sorted| ==>
               loaded[i].0 == sorted[i].0 && AllScalar(sorted[i].0) && Alike(sorted[i].1, loaded[i].1)
    ensures DistinctKeys(loaded) && Alike(Obj(ms), Obj(loaded))
  {
    SortedDistinct(ms, sorted);
    ObjMeaning(ms);
    ObjMeaning(loaded);
    SortedMeaning(ms, sorted);
    forall i | 0 <= i < |sorted| ensures Keyed(loaded, Meaning)[i] == Keyed(sorted, Meaning)[i] {
      assert Alike(sorted[i].1, loaded[i].1);
    }
    assert Keyed(loaded, Meaning) == Keyed(sorted, Meaning);
  }

  ghost function LoadMembers(near: Rounding, trees: seq<(Text, Tree)>): (r: seq<(Text, Json)>)
    ensures |r| == |trees| && forall i :: 0 <= i < |trees| ==> r[i] == (trees[i].0, LoadTree(near, trees[i].1))
    ensures LoadTree(near, TObj(trees)) == Obj(DictOf(r))
  {
    var r := seq(|trees|, i requires 0 <= i < |trees| => (trees[i].0, LoadTree(near, trees[i].1)));
    assert LoadTree(near, TObj(trees)) == Obj(DictOf(r));
    r
  }

  /** Whatever holds of every member holds of every member in another order. */
  lemma SortedAll(ms: seq<(Text, Json)>, sorted: seq<(Text, Json)>, p: ((Text, Json)) -> bool)
    requires multiset(sorted) == multiset(ms) && forall i :: 0 <= i < |ms| ==> p(ms[i])
    ensures forall i :: 0 <= i < |sorted| ==> p(sorted[i])
  {
    forall i | 0 <= i < |sorted| ensures p(sorted[i]) {
      assert sorted[i] in multiset(ms);
      var j :| 0 <= j < |ms| && ms[j] == sorted[i];
    }
  }

  ghost predicate LoadsAlike(near: Rounding, m: (Text, Json)) {
    AllScalar(m.0) && Alike(m.1, LoadTree(near, TreeOf(m.1)))
  }

  lemma ObjLoads(near: Rounding, ms: seq<(Text, Json)>)
    requires DistinctKeys(ms) && forall i :: 0 <= i < |ms| ==> LoadsAlike(near, ms[i])
    ensures Alike(Obj(ms), LoadTree(near, TreeOf(Obj(ms))))
  {
    var sorted := Sort(ms, KeyLe);
    var loaded := LoadMembers(near, Keyed(sorted, TreeOf));
    SortedAll(ms, sorted, m => LoadsAlike(near, m));
    ObjTree(ms);
    forall i | 0 <= i < |sorted|
      ensures loaded[i].0 == sorted[i].0 && AllScalar(sorted[i].0) && Alike(sorted[i].1, loaded[i].1)
    {
      assert LoadsAlike(near, sorted[i]);
    }
    ObjLoadsAlike(ms, sorted, loaded);
    DictOfDistinct(loaded);
  }

  /** Loading the tree of a value gives a value alike. */
  lemma {:induction false} LoadedAlike(near: Rounding, v: Json)
    requires RoundingOk(near) && Writable(v) && DictsOk(v) && SpellsAll(near, v)
    ensures Alike(v, LoadTree(near, TreeOf(v)))
  {
    match v
    case Int(n, float) => LoadedIntAlike(near, n, float);
    case Real(x) =>
      FloatText(x);
      LoadedNumberSame(near, FloatDouble(x));
    case Arr(items) =>
      forall i | 0 <= i < |items| ensures Alike(items[i], LoadTree(near, TreeOf(items[i]))) {
        LoadedAlike(near, items[i]);
      }
      ArrLoads(near, items);
    case Obj(ms) =>
      forall i | 0 <= i < |ms| ensures LoadsAlike(near, ms[i]) {
        LoadedAlike(near, ms[i].1);
      }
      ObjLoads(near, ms);
    case _ =>
  }

  /** What `json.loads` reads from canonical bytes stands for the same document and is canonicalized to the same
      bytes. */
  lemma Recanonicalizes(near: Rounding, v: Json)
    requires DictsOk(v) && Canonicalize(v).Some?
    requires RoundingOk(near) && SpellsAll(near, v)
    ensures var bs := Canonicalize(v).value;
            && Load(near, bs).Some? && Meaning(Load(near, bs).value) == Meaning(v)
            && Canonicalize(Load(near, bs).value) == Some(bs)
  {
    ParsesAsTree(v);
    LoadedAlike(near, v);
    MeaningDeterminesText(v, LoadTree(near, TreeOf(v)));
  }
}
