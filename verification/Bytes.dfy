/** Bytes, fixed-width integers in both byte orders, and the two framings the SDK signs over. */
module Bytes {

  type byte = b: nat | b < 256

  type bytes = seq<byte>

  datatype Option<+T> = None | Some(value: T)

  // ── Fixed-width integers ──────────────────────────────────────────────────────────────────────

  /** 256 to the power `width`: the number of values a `width`-byte integer can hold. */
  function Pow256(width: nat): (p: nat)
    ensures p > 0
  {
    if width == 0 then 1 else 256 * Pow256(width - 1)
  }

  /** Little-endian bytes of `n` modulo 256^width, as Go's `uint32(n)` conversion keeps them. */
  function Le(n: nat, width: nat): (r: bytes)
    ensures |r| == width
  {
    if width == 0 then [] else [n % 256] + Le(n / 256, width - 1)
  }

  /** Big-endian bytes of `n` modulo 256^width. */
  function Be(n: nat, width: nat): (r: bytes)
    ensures |r| == width
  {
    if width == 0 then [] else Be(n / 256, width - 1) + [n % 256]
  }

  function FromLe(bs: bytes): (n: nat) {
    if bs == [] then 0 else bs[0] + 256 * FromLe(bs[1..])
  }

  function FromBe(bs: bytes): (n: nat) {
    if bs == [] then 0 else 256 * FromBe(bs[..|bs| - 1]) + bs[|bs| - 1]
  }

  lemma {:induction false} LeRoundTrip(n: nat, width: nat)
    requires n < Pow256(width)
    ensures FromLe(Le(n, width)) == n
  {
    if width > 0 {
      LeRoundTrip(n / 256, width - 1);
      assert Le(n, width)[1..] == Le(n / 256, width - 1);
    }
  }

  lemma {:induction false} BeRoundTrip(n: nat, width: nat)
    requires n < Pow256(width)
    ensures FromBe(Be(n, width)) == n
  {
    if width > 0 {
      BeRoundTrip(n / 256, width - 1);
      assert Be(n, width)[..width - 1] == Be(n / 256, width - 1);
    }
  }

  lemma Pow256Widths()
    ensures Pow256(4) == 0x1_0000_0000
    ensures Pow256(8) == 0x1_0000_0000_0000_0000
  {
    assert Pow256(2) == 0x1_0000;
    assert Pow256(6) == 0x1_0000_0000_0000;
  }

  // ── Frames ────────────────────────────────────────────────────────────────────────────────────

  /** `u32le(len) || x`, with the length taken modulo 2^32. */
  function Frame(x: bytes): (r: bytes) {
    Le(|x|, 4) + x
  }

  /** `be64(len) || x`. */
  function BigFrame(x: bytes): (r: bytes) {
    Be(|x|, 8) + x
  }

  /** The fields whose length a `u32` prefix can say; Python's `struct.pack` refuses the others. */
  predicate Short(x: bytes) {
    |x| < 0x1_0000_0000
  }

  predicate AllShort(xs: seq<bytes>) {
    forall i :: 0 <= i < |xs| ==> Short(xs[i])
  }

  /** The fields whose length a `u64` prefix can say. */
  predicate Long(x: bytes) {
    |x| < 0x1_0000_0000_0000_0000
  }

  /** Two byte strings of one length followed by anything can be told apart. */
  lemma SplitSame(x: bytes, y: bytes, r: bytes, s: bytes)
    requires x + r == y + s && |x| == |y|
    ensures x == y && r == s
  {
    assert x == (x + r)[..|x|] && y == (y + s)[..|y|];
    assert r == (x + r)[|x|..] && s == (y + s)[|y|..];
  }

  /** A frame followed by anything determines the framed field and what follows it. */
  lemma FrameSplit(x: bytes, y: bytes, r: bytes, s: bytes)
    requires Frame(x) + r == Frame(y) + s
    requires Short(x) && Short(y)
    ensures x == y && r == s
  {
    var px, py := Le(|x|, 4), Le(|y|, 4);
    assert px + (x + r) == py + (y + s) by {
      assert px + (x + r) == Frame(x) + r && py + (y + s) == Frame(y) + s;
    }
    SplitSame(px, py, x + r, y + s);
    Pow256Widths();
    LeRoundTrip(|x|, 4);
    LeRoundTrip(|y|, 4);
    SplitSame(x, y, r, s);
  }

  /** What a `width`-byte prefix says of `n`: a number no larger than `n`, written with the same bytes. */
  lemma {:induction false} LeWraps(n: nat, width: nat)
    ensures var m := FromLe(Le(n, width)); m <= n && m < Pow256(width) && Le(m, width) == Le(n, width)
  {
    if width > 0 {
      LeWraps(n / 256, width - 1);
      assert Le(n, width)[1..] == Le(n / 256, width - 1);
    }
  }

  /** A frame holds exactly one field if and only if the field is short: every field of 2^32 bytes or
      more frames to the same bytes as a short prefix of it followed by the rest. */
  lemma FrameUniqueIffShort(x: bytes)
    ensures Short(x) <==> forall y, r, s :: Short(y) && Frame(x) + r == Frame(y) + s ==> x == y && r == s
  {
    if Short(x) {
      forall y, r, s | Short(y) && Frame(x) + r == Frame(y) + s
        ensures x == y && r == s
      {
        FrameSplit(x, y, r, s);
      }
    } else {
      LeWraps(|x|, 4);
      Pow256Widths();
      var m := FromLe(Le(|x|, 4));
      assert Frame(x) + [] == Frame(x[..m]) + x[m..];
    }
  }

  // ── Regrouping ────────────────────────────────────────────────────────────────────────────────

  lemma Assoc<T>(a: seq<T>, b: seq<T>, c: seq<T>)
    ensures (a + b) + c == a + (b + c)
  {
  }

  lemma Regroup<T>(a: seq<T>, b: seq<T>, c: seq<T>, d: seq<T>)
    ensures (a + (b + c)) + d == a + (b + (c + d))
  {
    Assoc(a, b + c, d);
    Assoc(b, c, d);
  }
}
