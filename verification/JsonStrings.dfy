/** JSON strings: a reader of every spelling, and the one spelling the canonical writer uses. */
module JsonStrings {
  import opened Bytes
  import opened Jcs
  import opened Utf

  // ── A reader ──────────────────────────────────────────────────────────────────────────────────

  function FromHex(c: nat): (r: Option<nat>) {
    if 48 <= c < 58 then Some(c - 48)
    else if 97 <= c < 103 then Some(c - 87)
    else if 65 <= c < 71 then Some(c - 55)
    else None
  }

  function Unescaped(letter: nat): (r: Option<nat>) {
    match letter
    case 98 => Some(0x08)
    case 116 => Some(0x09)
    case 110 => Some(0x0A)
    case 102 => Some(0x0C)
    case 114 => Some(0x0D)
    case 0x22 => Some(34)
    case 0x5C => Some(92)
    case 47 => Some(47)
    case _ => None
  }

  /** One character of a string body and the width it was written in. */
  function ReadChar(t: Text): (r: Option<(nat, nat)>)
    ensures r.Some? ==> 1 <= r.value.1 <= |t|
  {
    if t == [] || t[0] < 0x20 || t[0] == 34 then None
    else if t[0] != 92 then Some((t[0], 1))
    else if |t| < 2 then None
    else if Unescaped(t[1]).Some? then Some((Unescaped(t[1]).value, 2))
    else if t[1] == 117 && |t| >= 6 then
      var a, b, c, d := FromHex(t[2]), FromHex(t[3]), FromHex(t[4]), FromHex(t[5]);
      if a.Some? && b.Some? && c.Some? && d.Some? then
        Some((((a.value * 16 + b.value) * 16 + c.value) * 16 + d.value, 6))
      else None
    else None
  }

  /** A string body up to its closing quote. */
  function ReadString(t: Text): (r: Option<(Text, Text)>)
    ensures r.Some? ==> |r.value.1| < |t|
  {
    if t != [] && t[0] == 34 then Some(([], t[1..]))
    else
      var c := ReadChar(t);
      if c.None? then None
      else
        var tail := ReadString(t[c.value.1..]);
        if tail.None? then None else Some(([c.value.0] + tail.value.0, tail.value.1))
  }

  // ── Strings read back ─────────────────────────────────────────────────────────────────────────

  lemma ReadCharOf(c: nat, rest: Text)
    ensures ReadChar(EscapeChar(c) + rest) == Some((c, |EscapeChar(c)|))
    ensures EscapeChar(c)[0] != QUOTE
  {
    var t := EscapeChar(c) + rest;
    if ShortEscape(c).None? && c < 0x20 {
      assert t[..6] == EscapeChar(c);
      assert t[2] == 48 && t[3] == 48 && t[4] == HexDigit(c / 16) && t[5] == HexDigit(c % 16);
      assert FromHex(HexDigit(c / 16)) == Some(c / 16) && FromHex(HexDigit(c % 16)) == Some(c % 16);
    }
  }

  lemma ReadStringMore(t: Text, c: nat, width: nat, tail: Text, s: Text, rest: Text)
    requires t != [] && t[0] != QUOTE && ReadChar(t) == Some((c, width)) && t[width..] == tail
    requires ReadString(tail) == Some((s, rest))
    ensures ReadString(t) == Some(([c] + s, rest))
  {
  }

  /** Every string is read back from its escaped form. */
  lemma {:induction false} StringReadsBack(s: Text, rest: Text)
    ensures ReadString(Escaped(s) + ([QUOTE] + rest)) == Some((s, rest))
  {
    var t := Escaped(s) + ([QUOTE] + rest);
    if s == [] {
      assert t == [QUOTE] + rest && t[1..] == rest;
    } else {
      var c, tail := EscapeChar(s[0]), Escaped(s[1..]) + ([QUOTE] + rest);
      Assoc(c, Escaped(s[1..]), [QUOTE] + rest);
      ReadCharOf(s[0], tail);
      assert t[0] == c[0] && t[|c|..] == tail;
      StringReadsBack(s[1..], rest);
      ReadStringMore(t, s[0], |c|, tail, s[1..], rest);
      assert [s[0]] + s[1..] == s;
    }
  }

  // ── The canonical spelling of a string ────────────────────────────────────────────────────────

  /** `t`, between quotes, is one way to write the string `s`. */
  predicate Spells(t: Text, s: Text) {
    ReadString(t + [34]) == Some((s, []))
  }

  /** None of the letters A to F. */
  predicate NoUpper(t: Text) {
    forall i :: 0 <= i < |t| ==> !(65 <= t[i] < 71)
  }

  /** No `\u` escape is written with an upper-case digit. */
  predicate LowerHex(t: Text)
    decreases |t|
  {
    t == [] ||
    var c := ReadChar(t);
    c.Some? && (c.value.1 == 6 ==> NoUpper(t[..6])) && LowerHex(t[c.value.1..])
  }

  /** No way to write a character is shorter than the writer's, and of the equally short ones only the
      writer's has lower-case digits. */
  lemma CharShortest(t: Text)
    requires ReadChar(t).Some?
    ensures var (c, width) := ReadChar(t).value;
            && |EscapeChar(c)| <= width
            && (width == |EscapeChar(c)| && (width == 6 ==> NoUpper(t[..6])) ==> t[..width] == EscapeChar(c))
  {
    if |t| >= 6 {
      var u := t[..6];
      assert u[2] == t[2] && u[3] == t[3] && u[4] == t[4] && u[5] == t[5];
    }
  }

  lemma CharLower(c: nat)
    ensures |EscapeChar(c)| == 6 ==> NoUpper(EscapeChar(c))
  {
  }

  /** A character read within a prefix is read from the prefix. */
  lemma ReadCharWithin(t: Text, rest: Text)
    requires t != [] && ReadChar(t + rest).Some? && ReadChar(t + rest).value.1 <= |t|
    ensures ReadChar(t) == ReadChar(t + rest)
  {
    var u := t + rest;
    assert forall i :: 0 <= i < |t| ==> u[i] == t[i];
  }

  /** What is read first from a spelling, and that the rest is a spelling of the rest. */
  lemma SpelledHead(t: Text, s: Text)
    requires Spells(t, s) && t != []
    ensures ReadChar(t).Some? && s != [] && s[0] == ReadChar(t).value.0 && Spells(t[ReadChar(t).value.1..], s[1..])
  {
    var u := t + [QUOTE];
    assert u[0] == t[0] && u[1..] != [] && u[|u|..] == [] && ReadString([]).None?;
    var width := ReadChar(u).value.1;
    assert u[width..] == t[width..] + [QUOTE];
    ReadCharWithin(t, [QUOTE]);
  }

  lemma {:induction false} ShortestSpelling(t: Text, s: Text)
    requires Spells(t, s)
    ensures |Escaped(s)| <= |t|
    ensures |Escaped(s)| == |t| && LowerHex(t) ==> t == Escaped(s)
    decreases |t|
  {
    if t == [] {
      assert [] + [QUOTE] == [QUOTE] && [QUOTE][1..] == [];
    } else {
      SpelledHead(t, s);
      var width := ReadChar(t).value.1;
      ShortestSpelling(t[width..], s[1..]);
      CharShortest(t);
      SpellingParts(t, width, EscapeChar(s[0]), Escaped(s[1..]));
    }
  }

  lemma SpellingParts(t: Text, width: nat, head: Text, tail: Text)
    requires width <= |t| && |head| <= width && |tail| <= |t| - width
    ensures |head + tail| == |t| && t[..width] == head && t[width..] == tail ==> t == head + tail
    ensures |head + tail| == |t| ==> |head| == width && |tail| == |t| - width
  {
    assert t == t[..width] + t[width..];
  }

  lemma {:induction false} EscapedLower(s: Text)
    ensures LowerHex(Escaped(s))
  {
    if s != [] {
      var c, tail := EscapeChar(s[0]), Escaped(s[1..]);
      EscapedLower(s[1..]);
      ReadCharOf(s[0], tail);
      CharLower(s[0]);
      assert (c + tail)[|c|..] == tail;
      assert (c + tail)[..|c|] == c;
    }
  }

  lemma EscapedSpells(s: Text)
    ensures Spells(Escaped(s), s)
  {
    StringReadsBack(s, []);
    assert [QUOTE] + [] == [QUOTE];
  }

  /** The canonical form of a string is its one shortest spelling with lower-case digits: no character is
      escaped that need not be, and each by its shortest escape. */
  lemma EscapedIsCanonical(s: Text, t: Text)
    ensures t == Escaped(s) <==> Spells(t, s) && LowerHex(t) && forall u :: Spells(u, s) ==> |t| <= |u|
  {
    EscapedSpells(s);
    EscapedLower(s);
    forall u | Spells(u, s) ensures |Escaped(s)| <= |u| {
      ShortestSpelling(u, s);
    }
    if Spells(t, s) {
      ShortestSpelling(t, s);
    }
  }
}
