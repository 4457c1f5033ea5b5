/** The walk that refuses JSON with a repeated key, over the token reader it drives.

    The input is its lexemes: strings are decoded, every other scalar is one lexeme, and whatever the scanner
    rejects (an unterminated string, a bad literal, a number out of range) is `Bad`. */
module DuplicateKeys {
  import opened Bytes

  datatype Lexeme = LBrace | RBrace | LBracket | RBracket | Colon | Comma | Str(s: string) | Scalar | Bad

  datatype Mode = TopValue | ArrayStart | ArrayValue | ArrayComma
                | ObjectStart | ObjectKey | ObjectColon | ObjectValue | ObjectComma

  datatype Json = Atom | Text(s: string) | Arr(items: seq<Json>) | Obj(members: seq<(string, Json)>)

  // ── The token reader ──────────────────────────────────────────────────────────────────────────

  datatype State = State(rest: seq<Lexeme>, mode: Mode, stack: seq<Mode>)

  predicate ValueAllowed(mode: Mode) {
    mode.TopValue? || mode.ArrayStart? || mode.ArrayValue? || mode.ObjectValue?
  }

  /** The mode after a complete value. */
  function ValueEnd(mode: Mode): (r: Mode) {
    match mode
    case ArrayStart => ArrayComma
    case ArrayValue => ArrayComma
    case ObjectValue => ObjectComma
    case _ => mode
  }

  function Pop(st: State): (r: State)
    requires st.rest != [] && st.stack != []
  {
    State(st.rest[1..], ValueEnd(st.stack[|st.stack| - 1]), st.stack[..|st.stack| - 1])
  }

  /** A separator is passed over where one is due; after it only a token may stand. */
  function Skip(st: State): (r: State)
    ensures |r.rest| <= |st.rest|
  {
    if st.rest == [] then st
    else if st.rest[0].Colon? && st.mode.ObjectColon? then State(st.rest[1..], ObjectValue, st.stack)
    else if st.rest[0].Comma? && st.mode.ArrayComma? then State(st.rest[1..], ArrayValue, st.stack)
    else if st.rest[0].Comma? && st.mode.ObjectComma? then State(st.rest[1..], ObjectKey, st.stack)
    else st
  }

  /** The token at the front, where the mode allows it, and the state after it. */
  function PlainToken(st: State): (r: Option<(Lexeme, State)>)
    ensures r.Some? ==> |r.value.1.rest| < |st.rest|
  {
    if st.rest == [] then None
    else
      var l, after := st.rest[0], st.rest[1..];
      match l
      case LBracket => if ValueAllowed(st.mode) then Some((l, State(after, ArrayStart, st.stack + [st.mode]))) else None
      case LBrace => if ValueAllowed(st.mode) then Some((l, State(after, ObjectStart, st.stack + [st.mode]))) else None
      case RBracket =>
        if (st.mode.ArrayStart? || st.mode.ArrayComma?) && st.stack != [] then Some((l, Pop(st))) else None
      case RBrace =>
        if (st.mode.ObjectStart? || st.mode.ObjectComma?) && st.stack != [] then Some((l, Pop(st))) else None
      case Str(_) =>
        if st.mode.ObjectStart? || st.mode.ObjectKey? then Some((l, State(after, ObjectColon, st.stack)))
        else if ValueAllowed(st.mode) then Some((l, State(after, ValueEnd(st.mode), st.stack)))
        else None
      case Scalar => if ValueAllowed(st.mode) then Some((l, State(after, ValueEnd(st.mode), st.stack))) else None
      case _ => None
  }

  function TokenAt(st: State): (r: Option<(Lexeme, State)>)
    ensures r.Some? ==> |r.value.1.rest| < |st.rest|
  {
    PlainToken(Skip(st))
  }

  predicate MoreAt(st: State) {
    st.rest != [] && !st.rest[0].RBracket? && !st.rest[0].RBrace?
  }

  // ── The walk ──────────────────────────────────────────────────────────────────────────────────

  /** The state after one value, or none on a duplicate or malformed input. */
  function Walk(st: State): (r: Option<State>)
    ensures r.Some? ==> |r.value.rest| < |st.rest|
    decreases |st.rest|, 0
  {
    var t := TokenAt(st);
    if t.None? then None
    else if t.value.0.LBrace? then WalkMembers(t.value.1, {})
    else if t.value.0.LBracket? then WalkItems(t.value.1)
    else Some(t.value.1)
  }

  function WalkMembers(st: State, seen: set<string>): (r: Option<State>)
    ensures r.Some? ==> |r.value.rest| < |st.rest|
    decreases |st.rest|, 1
  {
    var t := TokenAt(st);
    if t.None? then None
    else if !MoreAt(st) then Some(t.value.1)
    else if !t.value.0.Str? || t.value.0.s in seen then None
    else
      var w := Walk(t.value.1);
      if w.None? then None else WalkMembers(w.value, seen + {t.value.0.s})
  }

  function WalkItems(st: State): (r: Option<State>)
    ensures r.Some? ==> |r.value.rest| < |st.rest|
    decreases |st.rest|, 1
  {
    if !MoreAt(st) then
      var t := TokenAt(st);
      if t.None? then None else Some(t.value.1)
    else
      var w := Walk(st);
      if w.None? then None else WalkItems(w.value)
  }

  function Start(input: seq<Lexeme>): (r: State) {
    State(input, TopValue, [])
  }

  predicate HasDuplicateKey(input: seq<Lexeme>) {
    var w := Walk(Start(input));
    w.None? || TokenAt(w.value).Some?
  }

  // ── Values ────────────────────────────────────────────────────────────────────────────────────

  function Lexemes(v: Json): (r: seq<Lexeme>)
    ensures r != [] && !r[0].RBracket? && !r[0].RBrace? && !r[0].Comma? && !r[0].Colon? && !r[0].Bad?
    decreases v, 0
  {
    match v
    case Atom => [Scalar]
    case Text(s) => [Str(s)]
    case Arr(items) => [LBracket] + (if items == [] then [] else Lexemes(items[0]) + ItemTail(items[1..])) + [RBracket]
    case Obj(ms) => [LBrace] + (if ms == [] then [] else Member(ms[0]) + MemberTail(ms[1..])) + [RBrace]
  }

  /** Items after the first, each behind its comma. */
  function ItemTail(items: seq<Json>): (r: seq<Lexeme>)
    decreases items, 1
  {
    if items == [] then [] else [Comma] + (Lexemes(items[0]) + ItemTail(items[1..]))
  }

  function Member(m: (string, Json)): (r: seq<Lexeme>)
    decreases m, 1
  {
    [Str(m.0), Colon] + Lexemes(m.1)
  }

  function MemberTail(ms: seq<(string, Json)>): (r: seq<Lexeme>)
    decreases ms, 2
  {
    if ms == [] then [] else [Comma] + (Member(ms[0]) + MemberTail(ms[1..]))
  }

  /** No object at any depth repeats a key. */
  predicate DuplicateFree(v: Json) {
    match v
    case Arr(items) => forall i :: 0 <= i < |items| ==> DuplicateFree(items[i])
    case Obj(ms) =>
      && (forall i, j :: 0 <= i < j < |ms| ==> ms[i].0 != ms[j].0)
      && (forall i :: 0 <= i < |ms| ==> DuplicateFree(ms[i].1))
    case _ => true
  }

  // ── The walk accepts exactly the duplicate-free values ────────────────────────────────────────

  /** A separator in its place is passed over. */
  lemma WalkSkips(rest: seq<Lexeme>, stack: seq<Mode>)
    ensures Walk(State([Comma] + rest, ArrayComma, stack)) == Walk(State(rest, ArrayValue, stack))
    ensures Walk(State([Colon] + rest, ObjectColon, stack)) == Walk(State(rest, ObjectValue, stack))
  {
    assert ([Comma] + rest)[1..] == rest && ([Colon] + rest)[1..] == rest;
    WalkByToken(State([Comma] + rest, ArrayComma, stack), State(rest, ArrayValue, stack));
    WalkByToken(State([Colon] + rest, ObjectColon, stack), State(rest, ObjectValue, stack));
  }

  lemma KeyAfterComma(rest: seq<Lexeme>, stack: seq<Mode>)
    ensures TokenAt(State([Comma] + rest, ObjectComma, stack)) == TokenAt(State(rest, ObjectKey, stack))
  {
    assert ([Comma] + rest)[1..] == rest;
  }

  /** The walk reads `v` wherever a value may stand: past it if it repeats no key, nowhere otherwise. */
  ghost predicate WalksPast(v: Json) {
    forall mode, stack, rest :: ValueAllowed(mode) ==>
      Walk(State(Lexemes(v) + rest, mode, stack))
        == if DuplicateFree(v) then Some(State(rest, ValueEnd(mode), stack)) else None
  }

  lemma WalksPastAt(v: Json, mode: Mode, stack: seq<Mode>, rest: seq<Lexeme>)
    requires WalksPast(v) && ValueAllowed(mode)
    ensures Walk(State(Lexemes(v) + rest, mode, stack))
         == if DuplicateFree(v) then Some(State(rest, ValueEnd(mode), stack)) else None
  {
  }

  /** The walk at the closing bracket of an array or an object. */
  lemma WalkCloses(stack: seq<Mode>, mode: Mode, rest: seq<Lexeme>, seen: set<string>)
    ensures WalkItems(State([RBracket] + rest, ArrayStart, stack + [mode])) == Some(State(rest, ValueEnd(mode), stack))
    ensures WalkItems(State([RBracket] + rest, ArrayComma, stack + [mode])) == Some(State(rest, ValueEnd(mode), stack))
    ensures WalkMembers(State([RBrace] + rest, ObjectStart, stack + [mode]), seen) == Some(State(rest, ValueEnd(mode), stack))
    ensures WalkMembers(State([RBrace] + rest, ObjectComma, stack + [mode]), seen) == Some(State(rest, ValueEnd(mode), stack))
  {
    assert ([RBracket] + rest)[1..] == rest && ([RBrace] + rest)[1..] == rest;
    assert (stack + [mode])[..|stack|] == stack;
  }

  ghost predicate AllWalkPast(items: seq<Json>) {
    forall i :: 0 <= i < |items| ==> WalksPast(items[i])
  }

  predicate AllFree(items: seq<Json>) {
    forall i :: 0 <= i < |items| ==> DuplicateFree(items[i])
  }

  lemma AllFreeCons(items: seq<Json>)
    requires items != []
    ensures AllFree(items) <==> DuplicateFree(items[0]) && AllFree(items[1..])
  {
    assert forall i :: 1 <= i < |items| ==> items[i] == items[1..][i - 1];
  }

  /** One item, then the others. */
  lemma WalkItemsNext(first: Json, mode: Mode, stack: seq<Mode>, others: seq<Lexeme>)
    requires WalksPast(first) && (mode.ArrayStart? || mode.ArrayValue?)
    ensures var st := if mode.ArrayStart? then State(Lexemes(first) + others, ArrayStart, stack)
                      else State([Comma] + (Lexemes(first) + others), ArrayComma, stack);
            WalkItems(st) == if DuplicateFree(first) then WalkItems(State(others, ArrayComma, stack)) else None
  {
    WalksPastAt(first, mode, stack, others);
    if mode.ArrayValue? {
      WalkSkips(Lexemes(first) + others, stack);
    }
  }

  lemma {:induction false} ItemTailWalks(items: seq<Json>, stack: seq<Mode>, mode: Mode, rest: seq<Lexeme>)
    requires AllWalkPast(items)
    ensures WalkItems(State(ItemTail(items) + ([RBracket] + rest), ArrayComma, stack + [mode]))
         == if AllFree(items) then Some(State(rest, ValueEnd(mode), stack)) else None
    decreases |items|
  {
    if items == [] {
      assert [] + ([RBracket] + rest) == [RBracket] + rest;
      WalkCloses(stack, mode, rest, {});
    } else {
      var first, others := Lexemes(items[0]), ItemTail(items[1..]) + ([RBracket] + rest);
      assert ItemTail(items) + ([RBracket] + rest) == [Comma] + (first + others);
      WalkItemsNext(items[0], ArrayValue, stack + [mode], others);
      ItemTailWalks(items[1..], stack, mode, rest);
      AllFreeCons(items);
    }
  }

  lemma TokenOpens(rest: seq<Lexeme>, mode: Mode, stack: seq<Mode>)
    requires ValueAllowed(mode)
    ensures Walk(State([LBracket] + rest, mode, stack)) == WalkItems(State(rest, ArrayStart, stack + [mode]))
    ensures Walk(State([LBrace] + rest, mode, stack)) == WalkMembers(State(rest, ObjectStart, stack + [mode]), {})
  {
    assert ([LBracket] + rest)[1..] == rest && ([LBrace] + rest)[1..] == rest;
  }

  lemma ArrWalks(items: seq<Json>)
    requires AllWalkPast(items)
    ensures WalksPast(Arr(items))
  {
    forall mode, stack, rest | ValueAllowed(mode)
      ensures Walk(State(Lexemes(Arr(items)) + rest, mode, stack))
           == if AllFree(items) then Some(State(rest, ValueEnd(mode), stack)) else None
    {
      var inner := if items == [] then [] else Lexemes(items[0]) + ItemTail(items[1..]);
      assert Lexemes(Arr(items)) + rest == [LBracket] + (inner + ([RBracket] + rest));
      TokenOpens(inner + ([RBracket] + rest), mode, stack);
      if items == [] {
        assert inner + ([RBracket] + rest) == [RBracket] + rest;
        WalkCloses(stack, mode, rest, {});
      } else {
        var others := ItemTail(items[1..]) + ([RBracket] + rest);
        Assoc(Lexemes(items[0]), ItemTail(items[1..]), [RBracket] + rest);
        WalkItemsNext(items[0], ArrayStart, stack + [mode], others);
        ItemTailWalks(items[1..], stack, mode, rest);
        AllFreeCons(items);
      }
    }
  }

  /** The members from here on are new and duplicate-free. */
  predicate Fresh(ms: seq<(string, Json)>, seen: set<string>) {
    ms == [] || (ms[0].0 !in seen && DuplicateFree(ms[0].1) && Fresh(ms[1..], seen + {ms[0].0}))
  }

  lemma {:induction false} FreshMeans(ms: seq<(string, Json)>, seen: set<string>)
    ensures Fresh(ms, seen) <==>
            && (forall i :: 0 <= i < |ms| ==> ms[i].0 !in seen && DuplicateFree(ms[i].1))
            && (forall i, j :: 0 <= i < j < |ms| ==> ms[i].0 != ms[j].0)
    decreases |ms|
  {
    if ms != [] {
      var tail, now := ms[1..], seen + {ms[0].0};
      FreshMeans(tail, now);
      assert forall i :: 0 <= i < |tail| ==> tail[i] == ms[i + 1];
      if Fresh(ms, seen) {
        forall i, j | 0 <= i < j < |ms| ensures ms[i].0 != ms[j].0 {
          assert ms[j] == tail[j - 1];
          if i > 0 {
            assert ms[i] == tail[i - 1];
          }
        }
        forall i | 0 <= i < |ms| ensures ms[i].0 !in seen && DuplicateFree(ms[i].1) {
          assert i > 0 ==> ms[i] == tail[i - 1];
        }
      }
    }
  }

  lemma WalkMembersStep(st: State, seen: set<string>)
    requires TokenAt(st).Some? && TokenAt(st).value.0.Str? && MoreAt(st)
    ensures var (key, next) := (TokenAt(st).value.0.s, TokenAt(st).value.1);
            WalkMembers(st, seen)
              == if key in seen || Walk(next).None? then None else WalkMembers(Walk(next).value, seen + {key})
  {
  }

  lemma WalkMembersByToken(a: State, b: State, seen: set<string>)
    requires TokenAt(a) == TokenAt(b) && MoreAt(a) && MoreAt(b)
    ensures WalkMembers(a, seen) == WalkMembers(b, seen)
  {
  }

  lemma KeyToken(key: string, rest: seq<Lexeme>, mode: Mode, stack: seq<Mode>)
    requires mode.ObjectStart? || mode.ObjectKey?
    ensures TokenAt(State([Str(key)] + rest, mode, stack)).Some?
    ensures TokenAt(State([Str(key)] + rest, mode, stack)).value == (Str(key), State(rest, ObjectColon, stack))
  {
    assert ([Str(key)] + rest)[1..] == rest;
  }

  lemma MemberLexemes(key: string, v: Json, rest: seq<Lexeme>)
    ensures Member((key, v)) + rest == [Str(key)] + ([Colon] + (Lexemes(v) + rest))
  {
  }

  lemma MemberValueWalks(v: Json, stack: seq<Mode>, others: seq<Lexeme>)
    requires WalksPast(v)
    ensures Walk(State([Colon] + (Lexemes(v) + others), ObjectColon, stack))
         == if DuplicateFree(v) then Some(State(others, ObjectComma, stack)) else None
  {
    WalkSkips(Lexemes(v) + others, stack);
    WalksPastAt(v, ObjectValue, stack, others);
  }

  lemma WalkMember(m: (string, Json), mode: Mode, stack: seq<Mode>, others: seq<Lexeme>, seen: set<string>)
    requires WalksPast(m.1) && (mode.ObjectStart? || mode.ObjectKey?)
    ensures WalkMembers(State(Member(m) + others, mode, stack), seen)
         == if m.0 !in seen && DuplicateFree(m.1) then WalkMembers(State(others, ObjectComma, stack), seen + {m.0}) else None
  {
    var value := Lexemes(m.1) + others;
    MemberLexemes(m.0, m.1, others);
    KeyToken(m.0, [Colon] + value, mode, stack);
    WalkMembersStep(State([Str(m.0)] + ([Colon] + value), mode, stack), seen);
    MemberValueWalks(m.1, stack, others);
  }

  /** One member, then the others. */
  lemma WalkMembersNext(m: (string, Json), stack: seq<Mode>, others: seq<Lexeme>, seen: set<string>)
    requires WalksPast(m.1)
    ensures WalkMembers(State([Comma] + (Member(m) + others), ObjectComma, stack), seen)
         == if m.0 !in seen && DuplicateFree(m.1) then WalkMembers(State(others, ObjectComma, stack), seen + {m.0}) else None
  {
    KeyAfterComma(Member(m) + others, stack);
    WalkMembersByToken(State([Comma] + (Member(m) + others), ObjectComma, stack), State(Member(m) + others, ObjectKey, stack), seen);
    WalkMember(m, ObjectKey, stack, others, seen);
  }

  ghost predicate MembersWalkPast(ms: seq<(string, Json)>) {
    forall i :: 0 <= i < |ms| ==> WalksPast(ms[i].1)
  }

  lemma {:induction false} MemberTailWalks(
    ms: seq<(string, Json)>, stack: seq<Mode>, mode: Mode, rest: seq<Lexeme>, seen: set<string>)
    requires MembersWalkPast(ms)
    ensures WalkMembers(State(MemberTail(ms) + ([RBrace] + rest), ObjectComma, stack + [mode]), seen)
         == if Fresh(ms, seen) then Some(State(rest, ValueEnd(mode), stack)) else None
    decreases |ms|
  {
    if ms == [] {
      assert [] + ([RBrace] + rest) == [RBrace] + rest;
      WalkCloses(stack, mode, rest, seen);
    } else {
      var others := MemberTail(ms[1..]) + ([RBrace] + rest);
      assert MemberTail(ms) + ([RBrace] + rest) == [Comma] + (Member(ms[0]) + others);
      WalkMembersNext(ms[0], stack + [mode], others, seen);
      MemberTailWalks(ms[1..], stack, mode, rest, seen + {ms[0].0});
    }
  }

  lemma ObjWalksAt(ms: seq<(string, Json)>, mode: Mode, stack: seq<Mode>, rest: seq<Lexeme>)
    requires MembersWalkPast(ms) && ValueAllowed(mode)
    ensures Walk(State(Lexemes(Obj(ms)) + rest, mode, stack))
         == if Fresh(ms, {}) then Some(State(rest, ValueEnd(mode), stack)) else None
  {
    var inner := if ms == [] then [] else Member(ms[0]) + MemberTail(ms[1..]);
    assert Lexemes(Obj(ms)) + rest == [LBrace] + (inner + ([RBrace] + rest));
    TokenOpens(inner + ([RBrace] + rest), mode, stack);
    if ms == [] {
      assert inner + ([RBrace] + rest) == [RBrace] + rest;
      WalkCloses(stack, mode, rest, {});
    } else {
      Assoc(Member(ms[0]), MemberTail(ms[1..]), [RBrace] + rest);
      WalkMember(ms[0], ObjectStart, stack + [mode], MemberTail(ms[1..]) + ([RBrace] + rest), {});
      MemberTailWalks(ms[1..], stack, mode, rest, {} + {ms[0].0});
    }
  }

  lemma FreshIsFree(ms: seq<(string, Json)>)
    ensures Fresh(ms, {}) <==> DuplicateFree(Obj(ms))
  {
    FreshMeans(ms, {});
  }

  lemma ObjWalks(ms: seq<(string, Json)>)
    requires MembersWalkPast(ms)
    ensures WalksPast(Obj(ms))
  {
    forall mode, stack, rest | ValueAllowed(mode)
      ensures Walk(State(Lexemes(Obj(ms)) + rest, mode, stack))
           == if DuplicateFree(Obj(ms)) then Some(State(rest, ValueEnd(mode), stack)) else None
    {
      FreshIsFree(ms);
      ObjWalksAt(ms, mode, stack, rest);
    }
  }

  /** On any value followed by anything, the walk succeeds exactly when no object in the value repeats a key, and
      then it has consumed exactly that value. */
  lemma {:induction false} WalkExact(v: Json)
    ensures WalksPast(v)
  {
    match v
    case Atom => ScalarWalks(v);
    case Text(_) => ScalarWalks(v);
    case Arr(items) =>
      forall i | 0 <= i < |items| ensures WalksPast(items[i]) {
        WalkExact(items[i]);
      }
      ArrWalks(items);
    case Obj(ms) =>
      forall i | 0 <= i < |ms| ensures WalksPast(ms[i].1) {
        WalkExact(ms[i].1);
      }
      ObjWalks(ms);
  }

  lemma ScalarWalks(v: Json)
    requires v.Atom? || v.Text?
    ensures WalksPast(v)
  {
    forall mode, stack, rest | ValueAllowed(mode)
      ensures Walk(State(Lexemes(v) + rest, mode, stack)) == Some(State(rest, ValueEnd(mode), stack))
    {
      assert (Lexemes(v) + rest)[1..] == rest;
    }
  }

  // ── And nothing else ──────────────────────────────────────────────────────────────────────────

  /** From `st` to `end` stands `v`. */
  predicate ReadOne(st: State, end: State, v: Json) {
    DuplicateFree(v) && st.rest == Lexemes(v) + end.rest && end.mode == ValueEnd(st.mode) && end.stack == st.stack
  }

  /** The bracket is closed and the surrounding value goes on. */
  predicate Closed(st: State, end: State) {
    st.stack != [] && end.mode == ValueEnd(st.stack[|st.stack| - 1]) && end.stack == st.stack[..|st.stack| - 1]
  }

  predicate ReadItems(st: State, end: State, items: seq<Json>) {
    AllFree(items) && st.rest == ItemTail(items) + ([RBracket] + end.rest) && Closed(st, end)
  }

  predicate ReadMembers(st: State, end: State, ms: seq<(string, Json)>, seen: set<string>) {
    Fresh(ms, seen) && st.rest == MemberTail(ms) + ([RBrace] + end.rest) && Closed(st, end)
  }

  lemma HeadTail<T>(xs: seq<T>)
    requires xs != []
    ensures xs == [xs[0]] + xs[1..]
  {
  }

  lemma ItemsEndToken(st: State)
    requires WalkItems(st).Some? && !MoreAt(st)
    ensures TokenAt(st).Some? && WalkItems(st).value == TokenAt(st).value.1
  {
  }

  lemma BracketToken(st: State)
    requires TokenAt(st).Some? && !MoreAt(st) && (st.mode.ArrayStart? || st.mode.ArrayComma?)
    ensures st.rest != [] && st.rest[0].RBracket?
    ensures TokenAt(st).value.1.rest == st.rest[1..] && Closed(st, TokenAt(st).value.1)
  {
  }

  lemma ItemsStep(st: State)
    requires WalkItems(st).Some? && MoreAt(st)
    ensures Walk(st).Some? && WalkItems(Walk(st).value) == WalkItems(st)
  {
  }

  lemma WalkByToken(a: State, b: State)
    requires TokenAt(a) == TokenAt(b)
    ensures Walk(a) == Walk(b)
  {
  }

  lemma WalkNeedsToken(st: State)
    ensures Walk(st).Some? ==> TokenAt(st).Some?
  {
  }

  /** After an array's item only a comma leads to another. */
  lemma CommaDue(st: State)
    requires TokenAt(st).Some? && st.mode.ArrayComma? && MoreAt(st)
    ensures st.rest[0].Comma? && TokenAt(st) == TokenAt(State(st.rest[1..], ArrayValue, st.stack))
  {
  }

  /** After a key only a colon leads to its value. */
  lemma ColonDue(st: State)
    requires TokenAt(st).Some? && st.mode.ObjectColon?
    ensures st.rest != [] && st.rest[0].Colon? && TokenAt(st) == TokenAt(State(st.rest[1..], ObjectValue, st.stack))
  {
  }

  lemma ArrLexemes(first: Json, others: seq<Json>, end: seq<Lexeme>)
    ensures Lexemes(Arr([first] + others)) + end == [LBracket] + (Lexemes(first) + (ItemTail(others) + ([RBracket] + end)))
    ensures ItemTail([first] + others) + ([RBracket] + end)
         == [Comma] + (Lexemes(first) + (ItemTail(others) + ([RBracket] + end)))
    ensures AllFree([first] + others) <==> DuplicateFree(first) && AllFree(others)
  {
    var items := [first] + others;
    assert items[1..] == others;
    AllFreeCons(items);
    var inner := Lexemes(first) + ItemTail(others);
    assert ([LBracket] + inner + [RBracket]) + end == [LBracket] + (inner + ([RBracket] + end));
    Assoc(Lexemes(first), ItemTail(others), [RBracket] + end);
    assert ([Comma] + inner) + ([RBracket] + end) == [Comma] + (inner + ([RBracket] + end));
  }

  /** Where the walk succeeds there stands a value, and it repeats no key. */
  lemma {:induction false} WalkSound(st: State) returns (v: Json)
    requires Walk(st).Some? && ValueAllowed(st.mode) && (st.mode.ArrayStart? ==> MoreAt(st))
    ensures ReadOne(st, Walk(st).value, v)
    decreases |st.rest|, 1
  {
    WalkNeedsToken(st);
    TokenNeedsInput(st);
    if st.rest[0].LBracket? {
      v := ArraySound(st);
    } else if st.rest[0].LBrace? {
      v := ObjectSound(st);
    } else {
      v := if st.rest[0].Str? then Text(st.rest[0].s) else Atom;
      ScalarSound(st);
    }
  }

  lemma TokenNeedsInput(st: State)
    ensures TokenAt(st).Some? ==> st.rest != []
  {
  }

  lemma ScalarToken(st: State)
    requires TokenAt(st).Some? && ValueAllowed(st.mode) && (st.mode.ArrayStart? ==> MoreAt(st))
    requires st.rest != [] && !st.rest[0].LBracket? && !st.rest[0].LBrace?
    ensures st.rest[0].Str? || st.rest[0].Scalar?
    ensures TokenAt(st).value == (st.rest[0], State(st.rest[1..], ValueEnd(st.mode), st.stack))
  {
  }

  lemma ScalarSound(st: State)
    requires TokenAt(st).Some? && ValueAllowed(st.mode) && (st.mode.ArrayStart? ==> MoreAt(st))
    requires st.rest != [] && !st.rest[0].LBracket? && !st.rest[0].LBrace?
    ensures Walk(st).Some? && ReadOne(st, Walk(st).value, if st.rest[0].Str? then Text(st.rest[0].s) else Atom)
  {
    ScalarToken(st);
    HeadTail(st.rest);
  }

  lemma {:induction false} ArraySound(st: State) returns (v: Json)
    requires Walk(st).Some? && ValueAllowed(st.mode) && st.rest != [] && st.rest[0].LBracket?
    ensures ReadOne(st, Walk(st).value, v)
    decreases |st.rest|, 0
  {
    var inside := State(st.rest[1..], ArrayStart, st.stack + [st.mode]);
    HeadTail(st.rest);
    TokenOpens(st.rest[1..], st.mode, st.stack);
    assert inside.stack[..|st.stack|] == st.stack;
    var items := ItemsInside(inside);
    v := Arr(items);
  }

  /** The items of an array from its opening bracket on. */
  lemma {:induction false} ItemsInside(st: State) returns (items: seq<Json>)
    requires WalkItems(st).Some? && st.mode.ArrayStart? && st.stack != []
    ensures AllFree(items) && Closed(st, WalkItems(st).value)
    ensures [LBracket] + st.rest == Lexemes(Arr(items)) + WalkItems(st).value.rest
    decreases |st.rest|, 2
  {
    if !MoreAt(st) {
      items := [];
      ItemsEndToken(st);
      BracketToken(st);
      HeadTail(st.rest);
      assert Lexemes(Arr([])) + st.rest[1..] == [LBracket] + ([RBracket] + st.rest[1..]);
    } else {
      ItemsStep(st);
      var first := WalkSound(st);
      var others := ItemsSound(Walk(st).value);
      items := [first] + others;
      ArrLexemes(first, others, WalkItems(st).value.rest);
    }
  }

  /** The items of an array after its first. */
  lemma {:induction false} ItemsSound(st: State) returns (items: seq<Json>)
    requires WalkItems(st).Some? && st.mode.ArrayComma? && st.stack != []
    ensures ReadItems(st, WalkItems(st).value, items)
    decreases |st.rest|, 0
  {
    if !MoreAt(st) {
      items := [];
      ItemsEndToken(st);
      BracketToken(st);
      HeadTail(st.rest);
      assert [] + ([RBracket] + st.rest[1..]) == [RBracket] + st.rest[1..];
    } else {
      ItemsStep(st);
      WalkNeedsToken(st);
      CommaDue(st);
      var item := State(st.rest[1..], ArrayValue, st.stack);
      WalkByToken(st, item);
      HeadTail(st.rest);
      var first := WalkSound(item);
      var others := ItemsSound(Walk(st).value);
      items := [first] + others;
      ArrLexemes(first, others, WalkItems(st).value.rest);
    }
  }

  lemma MembersEndToken(st: State, seen: set<string>)
    requires WalkMembers(st, seen).Some? && !MoreAt(st)
    ensures TokenAt(st).Some? && WalkMembers(st, seen).value == TokenAt(st).value.1
  {
  }

  lemma BraceToken(st: State)
    requires TokenAt(st).Some? && !MoreAt(st) && (st.mode.ObjectStart? || st.mode.ObjectComma?)
    ensures st.rest != [] && st.rest[0].RBrace?
    ensures TokenAt(st).value.1.rest == st.rest[1..] && Closed(st, TokenAt(st).value.1)
  {
  }

  lemma MembersStep(st: State, seen: set<string>)
    requires WalkMembers(st, seen).Some? && MoreAt(st)
    ensures TokenAt(st).Some? && TokenAt(st).value.0.Str? && TokenAt(st).value.0.s !in seen
    ensures Walk(TokenAt(st).value.1).Some?
    ensures WalkMembers(Walk(TokenAt(st).value.1).value, seen + {TokenAt(st).value.0.s}) == WalkMembers(st, seen)
  {
  }

  /** A key stands first in an object and after each comma, and nowhere else. */
  lemma FirstKey(st: State)
    requires TokenAt(st).Some? && TokenAt(st).value.0.Str? && (st.mode.ObjectStart? || st.mode.ObjectKey?)
    ensures st.rest != [] && st.rest[0] == TokenAt(st).value.0
    ensures TokenAt(st).value.1 == State(st.rest[1..], ObjectColon, st.stack)
  {
  }

  lemma NextKey(st: State)
    requires TokenAt(st).Some? && TokenAt(st).value.0.Str? && st.mode.ObjectComma?
    ensures st.rest != [] && st.rest[0].Comma?
    ensures TokenAt(State(st.rest[1..], ObjectKey, st.stack)) == TokenAt(st)
  {
  }

  /** A key, its colon and its value. */
  lemma {:induction false} MemberSound(st: State) returns (v: Json)
    requires TokenAt(st).Some? && TokenAt(st).value.0.Str? && (st.mode.ObjectStart? || st.mode.ObjectKey?)
    requires Walk(TokenAt(st).value.1).Some?
    ensures DuplicateFree(v) && Walk(TokenAt(st).value.1).value.mode == ObjectComma
    ensures Walk(TokenAt(st).value.1).value.stack == st.stack
    ensures st.rest == Member((TokenAt(st).value.0.s, v)) + Walk(TokenAt(st).value.1).value.rest
    decreases |st.rest|, 0
  {
    var value := TokenAt(st).value.1;
    FirstKey(st);
    WalkNeedsToken(value);
    ColonDue(value);
    var item := State(value.rest[1..], ObjectValue, value.stack);
    WalkByToken(value, item);
    v := WalkSound(item);
    HeadTail(st.rest);
    HeadTail(value.rest);
    MemberLexemes(TokenAt(st).value.0.s, v, Walk(value).value.rest);
  }

  lemma ObjLexemes(m: (string, Json), others: seq<(string, Json)>, end: seq<Lexeme>)
    ensures Lexemes(Obj([m] + others)) + end == [LBrace] + (Member(m) + (MemberTail(others) + ([RBrace] + end)))
    ensures MemberTail([m] + others) + ([RBrace] + end)
         == [Comma] + (Member(m) + (MemberTail(others) + ([RBrace] + end)))
  {
    var ms := [m] + others;
    assert ms[1..] == others;
    var inner := Member(m) + MemberTail(others);
    assert ([LBrace] + inner + [RBrace]) + end == [LBrace] + (inner + ([RBrace] + end));
    Assoc(Member(m), MemberTail(others), [RBrace] + end);
    assert ([Comma] + inner) + ([RBrace] + end) == [Comma] + (inner + ([RBrace] + end));
  }

  lemma FreshCons(m: (string, Json), others: seq<(string, Json)>, seen: set<string>)
    requires m.0 !in seen && DuplicateFree(m.1) && Fresh(others, seen + {m.0})
    ensures Fresh([m] + others, seen)
  {
    assert ([m] + others)[1..] == others;
  }

  lemma {:induction false} ObjectSound(st: State) returns (v: Json)
    requires Walk(st).Some? && ValueAllowed(st.mode) && st.rest != [] && st.rest[0].LBrace?
    ensures ReadOne(st, Walk(st).value, v)
    decreases |st.rest|, 0
  {
    var inside := State(st.rest[1..], ObjectStart, st.stack + [st.mode]);
    HeadTail(st.rest);
    TokenOpens(st.rest[1..], st.mode, st.stack);
    assert inside.stack[..|st.stack|] == st.stack;
    var ms := MembersInside(inside);
    FreshMeans(ms, {});
    v := Obj(ms);
  }

  /** The members of an object from its opening brace on. */
  lemma {:induction false} MembersInside(st: State) returns (ms: seq<(string, Json)>)
    requires WalkMembers(st, {}).Some? && st.mode.ObjectStart? && st.stack != []
    ensures Fresh(ms, {}) && Closed(st, WalkMembers(st, {}).value)
    ensures [LBrace] + st.rest == Lexemes(Obj(ms)) + WalkMembers(st, {}).value.rest
    decreases |st.rest|, 2
  {
    if !MoreAt(st) {
      ms := [];
      MembersEndToken(st, {});
      BraceToken(st);
      HeadTail(st.rest);
      assert Lexemes(Obj([])) + st.rest[1..] == [LBrace] + ([RBrace] + st.rest[1..]);
    } else {
      MembersStep(st, {});
      var key, value := TokenAt(st).value.0.s, TokenAt(st).value.1;
      var first := MemberSound(st);
      var others := MembersSound(Walk(value).value, {} + {key});
      ms := [(key, first)] + others;
      ObjLexemes((key, first), others, WalkMembers(st, {}).value.rest);
      FreshCons((key, first), others, {});
    }
  }

  /** The members of an object after its first. */
  lemma {:induction false} MembersSound(st: State, seen: set<string>) returns (ms: seq<(string, Json)>)
    requires WalkMembers(st, seen).Some? && st.mode.ObjectComma? && st.stack != []
    ensures ReadMembers(st, WalkMembers(st, seen).value, ms, seen)
    decreases |st.rest|, 1
  {
    if !MoreAt(st) {
      ms := [];
      MembersEndToken(st, seen);
      BraceToken(st);
      HeadTail(st.rest);
      assert [] + ([RBrace] + st.rest[1..]) == [RBrace] + st.rest[1..];
    } else {
      MembersStep(st, seen);
      var key, value := TokenAt(st).value.0.s, TokenAt(st).value.1;
      NextKey(st);
      HeadTail(st.rest);
      var first := MemberSound(State(st.rest[1..], ObjectKey, st.stack));
      var others := MembersSound(Walk(value).value, seen + {key});
      ms := [(key, first)] + others;
      ObjLexemes((key, first), others, WalkMembers(st, seen).value.rest);
      FreshCons((key, first), others, seen);
    }
  }

  // ── hasDuplicateKey ───────────────────────────────────────────────────────────────────────────

  /** No value starts here: the input ends, or goes on with something no value begins with. */
  predicate NoValueStarts(rest: seq<Lexeme>) {
    rest == [] || rest[0].RBrace? || rest[0].RBracket? || rest[0].Colon? || rest[0].Comma? || rest[0].Bad?
  }

  lemma AfterTheValue(rest: seq<Lexeme>)
    ensures TokenAt(State(rest, TopValue, [])).None? <==> NoValueStarts(rest)
  {
  }

  lemma PassesOn(v: Json, rest: seq<Lexeme>)
    requires DuplicateFree(v) && NoValueStarts(rest)
    ensures !HasDuplicateKey(Lexemes(v) + rest)
  {
    WalkExact(v);
    WalksPastAt(v, TopValue, [], rest);
    AfterTheValue(rest);
  }

  lemma PassedOn(input: seq<Lexeme>) returns (v: Json, rest: seq<Lexeme>)
    requires !HasDuplicateKey(input)
    ensures DuplicateFree(v) && input == Lexemes(v) + rest && NoValueStarts(rest)
  {
    v := WalkSound(Start(input));
    rest := Walk(Start(input)).value.rest;
    AfterTheValue(rest);
  }

  /** The check passes exactly on a duplicate-free value after which no further value starts. */
  lemma PassesExactly(input: seq<Lexeme>)
    ensures !HasDuplicateKey(input) <==>
            exists v, rest :: DuplicateFree(v) && input == Lexemes(v) + rest && NoValueStarts(rest)
  {
    if !HasDuplicateKey(input) {
      var v, rest := PassedOn(input);
    }
    if v, rest :| DuplicateFree(v) && input == Lexemes(v) + rest && NoValueStarts(rest) {
      PassesOn(v, rest);
    }
  }

  /** On input that is one JSON value, which decoding it first ensures, the check is exact. */
  lemma ExactOnOneValue(v: Json)
    ensures HasDuplicateKey(Lexemes(v)) <==> !DuplicateFree(v)
  {
    WalkExact(v);
    assert Lexemes(v) + [] == Lexemes(v);
    WalksPastAt(v, TopValue, [], []);
  }

  lemma StrayBraceWalk()
    ensures Walk(Start([LBrace, RBrace, RBrace])).Some? && Walk(Start([LBrace, RBrace, RBrace])).value == Start([RBrace])
  {
    assert [LBrace, RBrace, RBrace] == [LBrace] + ([RBrace] + [RBrace]);
    TokenOpens([RBrace] + [RBrace], TopValue, []);
    WalkCloses([], TopValue, [RBrace], {});
  }

  /** What follows the value is refused only when a value starts there: a stray closing brace passes. */
  lemma StrayBracePasses()
    ensures !HasDuplicateKey([LBrace, RBrace, RBrace])
    ensures forall v :: Lexemes(v) != [LBrace, RBrace, RBrace]
  {
    StrayBraceWalk();
    AfterTheValue([RBrace]);
    forall v ensures Lexemes(v) != [LBrace, RBrace, RBrace] {
      WalkExact(v);
      WalksPastAt(v, TopValue, [], []);
      assert Lexemes(v) + [] == Lexemes(v);
    }
  }

  // ── The walk as it runs ───────────────────────────────────────────────────────────────────────

  class Decoder {
    var rest: seq<Lexeme>
    var mode: Mode
    var stack: seq<Mode>

    constructor (input: seq<Lexeme>)
      ensures Now() == Start(input)
    {
      rest, mode, stack := input, TopValue, [];
    }

    function Now(): (r: State)
      reads this
    {
      State(rest, mode, stack)
    }

    method More() returns (more: bool)
      ensures more == MoreAt(Now())
    {
      more := rest != [] && !rest[0].RBracket? && !rest[0].RBrace?;
    }

    /** Reads one token, looping past separators. */
    method Token() returns (t: Option<Lexeme>)
      modifies this
      ensures t.Some? <==> TokenAt(old(Now())).Some?
      ensures t.Some? ==> TokenAt(old(Now())) == Some((t.value, Now()))
    {
      while true
        invariant TokenAt(Now()) == TokenAt(old(Now()))
        decreases |rest|
      {
        if rest == [] {
          return None;
        }
        var l := rest[0];
        if l.Colon? && mode.ObjectColon? {
          rest, mode := rest[1..], ObjectValue;
        } else if l.Comma? && mode.ArrayComma? {
          rest, mode := rest[1..], ArrayValue;
        } else if l.Comma? && mode.ObjectComma? {
          rest, mode := rest[1..], ObjectKey;
        } else if l.Colon? || l.Comma? || l.Bad? {
          return None;
        } else if l.RBracket? || l.RBrace? {
          var closes := if l.RBracket? then mode.ArrayStart? || mode.ArrayComma? else mode.ObjectStart? || mode.ObjectComma?;
          if !closes || stack == [] {
            return None;
          }
          rest, mode, stack := rest[1..], ValueEnd(stack[|stack| - 1]), stack[..|stack| - 1];
          return Some(l);
        } else if l.Str? && (mode.ObjectStart? || mode.ObjectKey?) {
          rest, mode := rest[1..], ObjectColon;
          return Some(l);
        } else if !ValueAllowed(mode) {
          return None;
        } else if l.LBracket? || l.LBrace? {
          rest, mode, stack := rest[1..], if l.LBracket? then ArrayStart else ObjectStart, stack + [mode];
          return Some(l);
        } else {
          rest, mode := rest[1..], ValueEnd(mode);
          return Some(l);
        }
      }
    }

    method WalkValue() returns (ok: bool)
      modifies this
      ensures ok <==> Walk(old(Now())).Some?
      ensures ok ==> Walk(old(Now())) == Some(Now())
      decreases |rest|
    {
      var t := Token();
      if t.None? {
        return false;
      }
      if t.value.LBrace? {
        ghost var goal := WalkMembers(Now(), {});
        var seen: set<string> := {};
        var more := More();
        while more
          invariant more == MoreAt(Now())
          invariant WalkMembers(Now(), seen) == goal && |rest| < |old(rest)|
          decreases |rest|
        {
          var key := Token();
          if key.None? || !key.value.Str? || key.value.s in seen {
            return false;
          }
          seen := seen + {key.value.s};
          ok := WalkValue();
          if !ok {
            return false;
          }
          more := More();
        }
        var close := Token();
        return close.Some?;
      }
      if t.value.LBracket? {
        ghost var goal := WalkItems(Now());
        var more := More();
        while more
          invariant more == MoreAt(Now())
          invariant WalkItems(Now()) == goal && |rest| < |old(rest)|
          decreases |rest|
        {
          ok := WalkValue();
          if !ok {
            return false;
          }
          more := More();
        }
        var close := Token();
        return close.Some?;
      }
      ok := true;
    }
  }

  method CheckDuplicateKeys(input: seq<Lexeme>) returns (refused: bool)
    ensures refused == HasDuplicateKey(input)
  {
    var dec := new Decoder(input);
    var ok := dec.WalkValue();
    if !ok {
      return true;
    }
    var t := dec.Token();
    refused := t.Some?;
  }
}
