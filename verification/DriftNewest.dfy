/** The newest release on the internal registry, read off the first page of its listing. */
module DriftNewest {
  import opened Bytes
  import opened JsonNumbers
  import opened Sorting
  import opened Utf

  const PAGE_SIZE: nat := 50
  const DOT: nat := 46
  const AT: nat := 64
  const SLASH: nat := 47
  const PACKAGE_NAME: Text := Chars("seam-sdk")

  datatype Format = Python | Npm | OtherFormat

  /** A row's version field: a string, or something else. */
  datatype Field = StringField(s: Text) | OtherField(repr: Text)

  datatype Row = Row(name: Text, version: Field, format: Format)

  // ── Versions ──────────────────────────────────────────────────────────────────────────────────

  function SplitDots(v: Text): (r: seq<Text>)
    ensures r != []
  {
    if v == [] then [[]]
    else
      var rest := SplitDots(v[1..]);
      if v[0] == DOT then [[]] + rest else [[v[0]] + rest[0]] + rest[1..]
  }

  function JoinDots(parts: seq<Text>): (r: Text)
    requires parts != []
  {
    if |parts| == 1 then parts[0] else parts[0] + ([DOT] + JoinDots(parts[1..]))
  }

  lemma JoinFirst(c: nat, part: Text, rest: seq<Text>)
    ensures JoinDots([[c] + part] + rest) == [c] + JoinDots([part] + rest)
  {
    assert ([[c] + part] + rest)[1..] == rest && ([part] + rest)[1..] == rest;
  }

  lemma {:induction false} JoinSplit(v: Text)
    ensures JoinDots(SplitDots(v)) == v
  {
    if v != [] {
      var rest := SplitDots(v[1..]);
      JoinSplit(v[1..]);
      if v[0] == DOT {
        assert ([[]] + rest)[1..] == rest;
        assert [] + ([DOT] + v[1..]) == v;
      } else {
        JoinFirst(v[0], rest[0], rest[1..]);
        assert [rest[0]] + rest[1..] == rest;
        assert [v[0]] + v[1..] == v;
      }
    }
  }

  /** The parts are what stands between the dots. */
  lemma {:induction false} PartsHaveNoDots(v: Text)
    ensures forall i :: 0 <= i < |SplitDots(v)| ==> '.' as int !in SplitDots(v)[i]
  {
    if v != [] {
      PartsHaveNoDots(v[1..]);
    }
  }

  predicate DigitPart(p: Text) {
    p != [] && forall i :: 0 <= i < |p| ==> IsDigit(p[i])
  }

  /** Digits and dots, the only versions that are compared or printed. */
  predicate Plain(v: Text) {
    forall i :: 0 <= i < |SplitDots(v)| ==> DigitPart(SplitDots(v)[i])
  }

  function PlainOf(f: Field): (r: Option<Text>)
    ensures r.Some? ==> Plain(r.value)
  {
    if f.StringField? && Plain(f.s) then Some(f.s) else None
  }

  function PartValue(p: Text): (n: nat)
    requires DigitPart(p)
  {
    NumOf(p)
  }

  function KeyOfParts(parts: seq<Text>): (r: seq<nat>)
    requires forall i :: 0 <= i < |parts| ==> DigitPart(parts[i])
    ensures |r| == |parts| && forall i :: 0 <= i < |parts| ==> r[i] == PartValue(parts[i])
  {
    if parts == [] then [] else [PartValue(parts[0])] + KeyOfParts(parts[1..])
  }

  /** Numeric order, part by part. */
  function Key(v: Text): (r: seq<nat>)
    requires Plain(v)
  {
    KeyOfParts(SplitDots(v))
  }

  predicate NoLeadingZero(p: Text) {
    p != [] && (|p| == 1 || p[0] != ZERO)
  }

  predicate NoLeadingZeros(v: Text) {
    forall i :: 0 <= i < |SplitDots(v)| ==> NoLeadingZero(SplitDots(v)[i])
  }

  lemma SamePart(p: Text, q: Text)
    requires DigitPart(p) && DigitPart(q) && NoLeadingZero(p) && NoLeadingZero(q) && NumOf(p) == NumOf(q)
    ensures p == q
  {
    assert NumOf([ZERO]) == 0 by { NumOfSnoc([], ZERO); assert [] + [ZERO] == [ZERO]; }
    if p[0] != ZERO {
      DecDigitsUnique(p);
    } else {
      assert p == [ZERO];
    }
    if q[0] != ZERO {
      DecDigitsUnique(q);
    } else {
      assert q == [ZERO];
    }
  }

  /** Versions without leading zeros are told apart by their keys. */
  lemma KeyInjective(v: Text, w: Text)
    requires Plain(v) && Plain(w) && NoLeadingZeros(v) && NoLeadingZeros(w) && Key(v) == Key(w)
    ensures v == w
  {
    var a, b := SplitDots(v), SplitDots(w);
    forall i | 0 <= i < |a| ensures a[i] == b[i] {
      assert Key(v)[i] == Key(w)[i];
      SamePart(a[i], b[i]);
    }
    assert a == b;
    JoinSplit(v);
    JoinSplit(w);
  }

  // ── Rows ──────────────────────────────────────────────────────────────────────────────────────

  /** Without a leading `@scope/`. */
  function Unscoped(name: Text): (r: Text) {
    var slash := Find(name, SLASH);
    if name != [] && name[0] == AT && 2 <= slash < |name| then name[slash + 1..] else name
  }

  predicate IsSdk(row: Row) {
    Unscoped(row.name) == PACKAGE_NAME
  }

  lemma FindIs(s: Text, c: nat, i: nat)
    requires i < |s| && s[i] == c && forall j :: 0 <= j < i ==> s[j] != c
    ensures Find(s, c) == i
  {
  }

  /** The rows that count are those of `seam-sdk`, bare or under any scope. */
  lemma SdkNames(row: Row)
    ensures IsSdk(row) <==>
            || row.name == Chars("seam-sdk")
            || exists scope: Text :: scope != [] && 47 !in scope && row.name == [64] + scope + [47] + Chars("seam-sdk")
  {
    var name, slash := row.name, Find(row.name, SLASH);
    assert Chars("seam-sdk")[0] == 115 && forall i :: 0 <= i < 8 ==> Chars("seam-sdk")[i] != 47;
    if name != [] && name[0] == AT && 2 <= slash < |name| && IsSdk(row) {
      var scope := name[1..slash];
      assert name == [64] + scope + [47] + name[slash + 1..];
      assert SLASH !in scope;
    }
    if exists scope: Text :: scope != [] && 47 !in scope && name == [64] + scope + [47] + Chars("seam-sdk") {
      var scope: Text :| scope != [] && 47 !in scope && name == [64] + scope + [47] + Chars("seam-sdk");
      FindIs(name, SLASH, |scope| + 1);
      assert name[|scope| + 2..] == Chars("seam-sdk");
    }
  }

  /** Some `seam-sdk` row serves this version in this format. */
  predicate Serves(rows: seq<Row>, v: Text, format: Format) {
    exists i :: 0 <= i < |rows| && IsSdk(rows[i]) && rows[i].version == StringField(v) && rows[i].format == format
  }

  /** Published whole: in both formats a release ships. */
  predicate Complete(rows: seq<Row>, v: Text) {
    Plain(v) && Serves(rows, v, Python) && Serves(rows, v, Npm)
  }

  predicate Candidate(rows: seq<Row>, v: Text, exclude: Option<Text>) {
    Complete(rows, v) && exclude != Some(v)
  }

  /** No candidate is above it. */
  ghost predicate Largest(rows: seq<Row>, v: Text, exclude: Option<Text>) {
    && Candidate(rows, v, exclude)
    && forall w :: Candidate(rows, w, exclude) ==> LexLe(Key(w), Key(v))
  }

  // ── Choosing ──────────────────────────────────────────────────────────────────────────────────

  /** The `seam-sdk` rows' version fields that are no plain version. */
  function Withheld(rows: seq<Row>): (r: set<Field>) {
    set i | 0 <= i < |rows| && IsSdk(rows[i]) && PlainOf(rows[i].version).None? :: rows[i].version
  }

  /** What the dictionary of formats holds after the rows read so far. */
  ghost predicate Tallied(rows: seq<Row>, formats: map<Text, set<Format>>) {
    && (forall v :: v in formats ==> Plain(v))
    && (forall v, f :: Plain(v) && f != OtherFormat ==> (Serves(rows, v, f) <==> v in formats && f in formats[v]))
    && (forall v :: v in formats ==> OtherFormat !in formats[v])
  }

  lemma ServesSnoc(rows: seq<Row>, row: Row, v: Text, f: Format)
    ensures Serves(rows + [row], v, f)
       <==> Serves(rows, v, f) || (IsSdk(row) && row.version == StringField(v) && row.format == f)
  {
    var all := rows + [row];
    if Serves(rows, v, f) {
      var i :| 0 <= i < |rows| && IsSdk(rows[i]) && rows[i].version == StringField(v) && rows[i].format == f;
      assert all[i] == rows[i];
    }
    if IsSdk(row) && row.version == StringField(v) && row.format == f {
      assert all[|rows|] == row;
    }
  }

  function Tally(formats: map<Text, set<Format>>, row: Row): (r: map<Text, set<Format>>) {
    var v := PlainOf(row.version);
    if !IsSdk(row) || v.None? || row.format.OtherFormat? then formats
    else formats[v.value := (if v.value in formats then formats[v.value] else {}) + {row.format}]
  }

  lemma TallyStep(rows: seq<Row>, row: Row, formats: map<Text, set<Format>>)
    requires Tallied(rows, formats)
    ensures Tallied(rows + [row], Tally(formats, row))
  {
    var next := Tally(formats, row);
    forall v, f | Plain(v) && f != OtherFormat
      ensures Serves(rows + [row], v, f) <==> v in next && f in next[v]
    {
      ServesSnoc(rows, row, v, f);
    }
  }

  lemma WithheldSnoc(rows: seq<Row>, row: Row)
    ensures Withheld(rows + [row])
         == Withheld(rows) + (if IsSdk(row) && PlainOf(row.version).None? then {row.version} else {})
  {
    var all := rows + [row];
    assert all[|rows|] == row && forall i :: 0 <= i < |rows| ==> all[i] == rows[i];
    forall f ensures f in Withheld(all) <==>
      f in Withheld(rows) || (IsSdk(row) && PlainOf(row.version).None? && f == row.version)
    {
      if f in Withheld(rows) {
        var i :| 0 <= i < |rows| && IsSdk(rows[i]) && PlainOf(rows[i].version).None? && rows[i].version == f;
        assert all[i].version == f;
      }
    }
  }

  method TallyRows(rows: seq<Row>) returns (formats: map<Text, set<Format>>, withheld: set<Field>)
    ensures Tallied(rows, formats) && withheld == Withheld(rows)
  {
    formats, withheld := map[], {};
    assert rows[..0] == [];
    for i := 0 to |rows|
      invariant Tallied(rows[..i], formats) && withheld == Withheld(rows[..i])
    {
      assert rows[..i] + [rows[i]] == rows[..i + 1];
      TallyStep(rows[..i], rows[i], formats);
      WithheldSnoc(rows[..i], rows[i]);
      if IsSdk(rows[i]) {
        var version := PlainOf(rows[i].version);
        if version.None? {
          withheld := withheld + {rows[i].version};
        } else if !rows[i].format.OtherFormat? {
          var found := if version.value in formats then formats[version.value] else {};
          formats := formats[version.value := found + {rows[i].format}];
        }
      }
    }
    assert rows[..|rows|] == rows;
  }

  /** The largest complete version, whatever order the rows come in. */
  method NewestComplete(rows: seq<Row>, exclude: Option<Text>) returns (newest: Option<Text>, withheld: nat)
    ensures newest.Some? ==> Largest(rows, newest.value, exclude)
    ensures newest.None? ==> forall w :: !Candidate(rows, w, exclude)
    ensures withheld == |Withheld(rows)|
  {
    var formats, aside := TallyRows(rows);
    withheld := |aside|;
    newest := None;
    var left := formats.Keys;
    while left != {}
      invariant left <= formats.Keys
      invariant newest.Some? ==> Candidate(rows, newest.value, exclude)
      invariant forall w :: w in formats && w !in left && Candidate(rows, w, exclude) ==>
                newest.Some? && LexLe(Key(w), Key(newest.value))
      decreases |left|
    {
      var v :| v in left;
      left := left - {v};
      if {Python, Npm} <= formats[v] && exclude != Some(v) {
        assert Candidate(rows, v, exclude);
        if newest.None? {
          newest := Some(v);
          LexReflexive(Key(v));
        } else {
          LexTotal(Key(v), Key(newest.value));
          if !LexLe(Key(v), Key(newest.value)) {
            StillLargest(rows, formats, left, v, newest.value, exclude);
            LexReflexive(Key(v));
            newest := Some(v);
          }
        }
      }
    }
    forall w | Candidate(rows, w, exclude) ensures w in formats {
      assert Serves(rows, w, Python);
    }
  }

  lemma {:induction false} LexReflexive(a: seq<nat>)
    ensures LexLe(a, a)
  {
    if a != [] {
      LexReflexive(a[1..]);
    }
  }

  lemma StillLargest(rows: seq<Row>, formats: map<Text, set<Format>>, left: set<Text>, v: Text, previous: Text, exclude: Option<Text>)
    requires Plain(v) && Plain(previous) && LexLe(Key(previous), Key(v))
    requires forall w :: w in formats && w !in left && w != v && Candidate(rows, w, exclude) ==> LexLe(Key(w), Key(previous))
    ensures forall w :: w in formats && w !in left && w != v && Candidate(rows, w, exclude) ==> LexLe(Key(w), Key(v))
  {
    forall w | w in formats && w !in left && w != v && Candidate(rows, w, exclude) ensures LexLe(Key(w), Key(v)) {
      LexTransitive(Key(w), Key(previous), Key(v));
    }
  }

  // ── The page ──────────────────────────────────────────────────────────────────────────────────

  /** The plain versions in row order, of whatever package. */
  function Plains(rows: seq<Row>): (r: seq<Text>)
    ensures forall i :: 0 <= i < |r| ==> Plain(r[i])
  {
    if rows == [] then []
    else
      var v := PlainOf(rows[0].version);
      (if v.Some? then [v.value] else []) + Plains(rows[1..])
  }

  predicate StepsDown(vs: seq<Text>)
    requires forall i :: 0 <= i < |vs| ==> Plain(vs[i])
  {
    forall i :: 0 <= i < |vs| - 1 ==> LexLe(Key(vs[i + 1]), Key(vs[i]))
  }

  /** A full page may cut its lowest version, so that one is never chosen. */
  function Edge(rows: seq<Row>): (r: Option<Text>)
    ensures r.Some? ==> Plain(r.value)
  {
    var vs := Plains(rows);
    if |rows| >= PAGE_SIZE && vs != [] then Some(vs[|vs| - 1]) else None
  }

  predicate AtLeast(v: Text, floor: Text) {
    Plain(v) && Plain(floor) && LexLe(Key(floor), Key(v))
  }

  /** When the page proves itself and shows a version at or above what is known to be published. */
  ghost predicate Answers(rows: seq<Row>, provedBy: Text, declared: Option<Text>, v: Text) {
    && AnySdk(rows) && StepsDown(Plains(rows)) && Largest(rows, v, Edge(rows))
    && AtLeast(v, provedBy) && (declared.Some? ==> AtLeast(v, declared.value))
  }

  lemma LargestAlike(rows: seq<Row>, v: Text, w: Text, exclude: Option<Text>)
    requires Largest(rows, v, exclude) && Largest(rows, w, exclude)
    ensures Key(v) == Key(w)
  {
    LexTotal(Key(v), Key(w));
  }

  predicate AnySdk(rows: seq<Row>) {
    rows != [] && (IsSdk(rows[0]) || AnySdk(rows[1..]))
  }

  lemma {:induction false} AnySdkMeans(rows: seq<Row>)
    ensures AnySdk(rows) <==> exists i :: 0 <= i < |rows| && IsSdk(rows[i])
  {
    if rows != [] {
      AnySdkMeans(rows[1..]);
      if AnySdk(rows[1..]) {
        var i :| 0 <= i < |rows| - 1 && IsSdk(rows[1..][i]);
        assert IsSdk(rows[i + 1]);
      }
      if exists i :: 0 < i < |rows| && IsSdk(rows[i]) {
        var i :| 0 < i < |rows| && IsSdk(rows[i]);
        assert IsSdk(rows[1..][i - 1]);
      }
    }
  }

  /** The last plain version of a full page may be cut off, and is never the answer. */
  lemma CutVersionNeverChosen(page: seq<Row>, provedBy: Text, declared: Option<Text>, v: Text)
    requires Answers(page, provedBy, declared, v) && |page| >= 50
    ensures Plains(page) != [] && v != Plains(page)[|Plains(page)| - 1]
  {
    var i :| 0 <= i < |page| && IsSdk(page[i]) && page[i].version == StringField(v) && page[i].format == Python;
    var k, j := PlainIndex(page, i, i);
  }

  method HasSdkRow(rows: seq<Row>) returns (has: bool)
    ensures has == AnySdk(rows)
  {
    assert rows[0..] == rows;
    for i := 0 to |rows|
      invariant AnySdk(rows[i..]) == AnySdk(rows)
    {
      assert rows[i..][1..] == rows[i + 1..];
      if IsSdk(rows[i]) {
        return true;
      }
    }
    has := false;
  }

  method InOrder(vs: seq<Text>) returns (ok: bool)
    requires forall i :: 0 <= i < |vs| ==> Plain(vs[i])
    ensures ok <==> StepsDown(vs)
  {
    var i := 0;
    while i + 1 < |vs|
      invariant forall k :: 0 <= k < i && k < |vs| - 1 ==> LexLe(Key(vs[k + 1]), Key(vs[k]))
    {
      if !LexLe(Key(vs[i + 1]), Key(vs[i])) {
        return false;
      }
      i := i + 1;
    }
    ok := true;
  }

  /** The five guards in turn; none is an infrastructure error. */
  method FetchNewest(page: seq<Row>, provedBy: Text, declared: Option<Text>) returns (newest: Option<Text>)
    requires Plain(provedBy) && (declared.Some? ==> Plain(declared.value))
    ensures newest.Some? ==> Answers(page, provedBy, declared, newest.value)
    ensures newest.None? ==> forall v :: !Answers(page, provedBy, declared, v)
  {
    var some := HasSdkRow(page);
    if !some {
      return None;
    }
    var ordered := InOrder(Plains(page));
    if !ordered {
      return None;
    }
    var withheld: nat;
    newest, withheld := NewestComplete(page, Edge(page));
    if newest.None? {
      return None;
    }
    forall v | Largest(page, v, Edge(page)) ensures Key(v) == Key(newest.value) {
      LargestAlike(page, v, newest.value, Edge(page));
    }
    if !LexLe(Key(provedBy), Key(newest.value)) {
      return None;
    }
    if declared.Some? && !LexLe(Key(declared.value), Key(newest.value)) {
      return None;
    }
  }

  // ── The whole listing ─────────────────────────────────────────────────────────────────────────

  /** The first page of a listing; a page that is not full is all of it. */
  predicate PageOf(page: seq<Row>, full: seq<Row>) {
    page <= full && (|page| < PAGE_SIZE ==> page == full)
  }

  lemma {:induction false} Descends(vs: seq<Text>, i: nat, j: nat)
    requires (forall k :: 0 <= k < |vs| ==> Plain(vs[k])) && StepsDown(vs) && i <= j < |vs|
    ensures LexLe(Key(vs[j]), Key(vs[i]))
    decreases j
  {
    if i == j {
      LexReflexive(Key(vs[i]));
    } else {
      Descends(vs, i, j - 1);
      assert LexLe(Key(vs[j - 1 + 1]), Key(vs[j - 1]));
      LexTransitive(Key(vs[j]), Key(vs[j - 1]), Key(vs[i]));
    }
  }

  /** Where a row's version stands among the plain ones: rows before it stand before it. */
  lemma {:induction false} PlainIndex(rows: seq<Row>, p: nat, i: nat) returns (k: nat, j: nat)
    requires p <= i < |rows| && PlainOf(rows[p].version).Some? && PlainOf(rows[i].version).Some?
    ensures k <= j < |Plains(rows)|
    ensures Plains(rows)[k] == PlainOf(rows[p].version).value && Plains(rows)[j] == PlainOf(rows[i].version).value
    decreases |rows|
  {
    var first := if PlainOf(rows[0].version).Some? then 1 else 0;
    if i == 0 {
      k, j := 0, 0;
    } else if p == 0 {
      var l, m := PlainIndex(rows[1..], i - 1, i - 1);
      k, j := 0, first + m;
    } else {
      var l, m := PlainIndex(rows[1..], p - 1, i - 1);
      k, j := first + l, first + m;
    }
  }

  lemma RowsDescend(rows: seq<Row>, p: nat, i: nat)
    requires StepsDown(Plains(rows)) && p <= i < |rows|
    requires PlainOf(rows[p].version).Some? && PlainOf(rows[i].version).Some?
    ensures LexLe(Key(PlainOf(rows[i].version).value), Key(PlainOf(rows[p].version).value))
  {
    var k, j := PlainIndex(rows, p, i);
    Descends(Plains(rows), k, j);
  }

  /** A row further down the listing than the page reaches is not above any version on the page. */
  lemma BeyondThePage(page: seq<Row>, full: seq<Row>, v: Text, p: nat, i: nat)
    requires PageOf(page, full) && StepsDown(Plains(full)) && p < |page| <= i < |full|
    requires page[p].version == StringField(v) && Plain(v) && PlainOf(full[i].version).Some?
    ensures LexLe(Key(PlainOf(full[i].version).value), Key(v))
  {
    RowsDescend(full, p, i);
  }

  lemma LastIsLowest(vs: seq<Text>, k: nat)
    requires (forall i :: 0 <= i < |vs| ==> Plain(vs[i])) && StepsDown(vs) && k < |vs|
    ensures LexLe(Key(vs[|vs| - 1]), Key(vs[k]))
  {
    Descends(vs, k, |vs| - 1);
  }

  lemma EdgeIsLowest(page: seq<Row>, v: Text, p: nat, edge: Text)
    requires StepsDown(Plains(page)) && p < |page| && page[p].version == StringField(v) && Plain(v)
    requires Plains(page) != [] && edge == Plains(page)[|Plains(page)| - 1]
    ensures Plain(edge) && LexLe(Key(edge), Key(v))
  {
    var k, j := PlainIndex(page, p, p);
    LastIsLowest(Plains(page), k);
  }

  lemma ServedFurther(page: seq<Row>, full: seq<Row>, w: Text, f: Format) returns (i: nat)
    requires PageOf(page, full) && Serves(full, w, f) && !Serves(page, w, f)
    ensures |page| <= i < |full| && full[i].version == StringField(w)
  {
    i :| 0 <= i < |full| && IsSdk(full[i]) && full[i].version == StringField(w) && full[i].format == f;
    assert forall k :: 0 <= k < |page| ==> page[k] == full[k];
  }

  lemma NotAbove(page: seq<Row>, full: seq<Row>, v: Text, w: Text)
    requires PageOf(page, full) && StepsDown(Plains(full)) && StepsDown(Plains(page))
    requires Largest(page, v, Edge(page)) && Complete(full, w)
    ensures LexLe(Key(w), Key(v))
  {
    var p :| 0 <= p < |page| && IsSdk(page[p]) && page[p].version == StringField(v) && page[p].format == Python;
    if !Serves(page, w, Python) {
      var i := ServedFurther(page, full, w, Python);
      BeyondThePage(page, full, v, p, i);
    } else if !Serves(page, w, Npm) {
      var i := ServedFurther(page, full, w, Npm);
      BeyondThePage(page, full, v, p, i);
    } else if Edge(page) == Some(w) {
      EdgeIsLowest(page, v, p, w);
    } else {
      assert Candidate(page, w, Edge(page));
    }
  }

  lemma OnThePageAndBeyond(page: seq<Row>, full: seq<Row>, v: Text, f: Format)
    requires PageOf(page, full) && Serves(page, v, f)
    ensures Serves(full, v, f)
  {
    var i :| 0 <= i < |page| && IsSdk(page[i]) && page[i].version == StringField(v) && page[i].format == f;
    assert full[i] == page[i];
  }

  /** The version chosen from one page is the largest published whole in the entire listing, provided the listing is
      in descending order and the page is its beginning; without leading zeros it is the only one. */
  lemma NewestOfAll(page: seq<Row>, full: seq<Row>, provedBy: Text, declared: Option<Text>, v: Text)
    requires PageOf(page, full) && StepsDown(Plains(full)) && Answers(page, provedBy, declared, v)
    ensures Complete(full, v) && forall w :: Complete(full, w) ==> LexLe(Key(w), Key(v))
    ensures forall w :: Complete(full, w) && NoLeadingZeros(v) && NoLeadingZeros(w) && LexLe(Key(v), Key(w)) ==> w == v
  {
    OnThePageAndBeyond(page, full, v, Python);
    OnThePageAndBeyond(page, full, v, Npm);
    forall w | Complete(full, w)
      ensures LexLe(Key(w), Key(v))
      ensures NoLeadingZeros(v) && NoLeadingZeros(w) && LexLe(Key(v), Key(w)) ==> w == v
    {
      NotAbove(page, full, v, w);
      LexTotal(Key(v), Key(w));
      if NoLeadingZeros(v) && NoLeadingZeros(w) && LexLe(Key(v), Key(w)) {
        KeyInjective(v, w);
      }
    }
  }
}
