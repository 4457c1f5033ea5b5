/** Unpadded base64url (sections 3.5 and 5 of RFC 4648), and the strict form a JWK member must have. */
module Base64Url {
  import opened Bytes
  import opened Utf

  type Sextet = n: nat | n < 64

  /** The alphabet: upper case, lower case, digits, minus, underscore. */
  function Letter(n: Sextet): (c: nat) {
    if n < 26 then 65 + n
    else if n < 52 then 71 + n
    else if n < 62 then n - 4
    else if n == 62 then 45
    else 95
  }

  /** The alphabet of table 2 of RFC 4648: A to Z, a to z, 0 to 9, minus and underscore, in that order. */
  lemma AlphabetOrder(n: Sextet)
    ensures Letter(0) == 'A' as int && Letter(25) == 'Z' as int && Letter(26) == 'a' as int && Letter(51) == 'z' as int
    ensures Letter(52) == '0' as int && Letter(61) == '9' as int && Letter(62) == '-' as int && Letter(63) == '_' as int
    ensures n < 61 && n != 25 && n != 51 ==> Letter(n + 1) == Letter(n) + 1
  {
  }

  function SextetOf(c: nat): (r: Option<Sextet>)
    ensures r.Some? ==> Letter(r.value) == c
    ensures forall n: Sextet :: Letter(n) == c ==> r == Some(n)
  {
    if 65 <= c < 91 then Some(c - 65)
    else if 97 <= c < 123 then Some(c - 71)
    else if 48 <= c < 58 then Some(c + 4)
    else if c == 45 then Some(62)
    else if c == 95 then Some(63)
    else None
  }

  function Letters(ns: seq<Sextet>): (r: Text)
    ensures |r| == |ns| && forall i :: 0 <= i < |ns| ==> r[i] == Letter(ns[i])
  {
    seq(|ns|, i requires 0 <= i < |ns| => Letter(ns[i]))
  }

  /** The sextets a text spells, none when a character is outside the alphabet. */
  function Sextets(t: Text): (r: Option<seq<Sextet>>)
    ensures r.Some? ==> |r.value| == |t|
  {
    if t == [] then Some([])
    else
      var first, rest := SextetOf(t[0]), Sextets(t[1..]);
      if first.None? || rest.None? then None else Some([first.value] + rest.value)
  }

  lemma {:induction false} SextetsOfLetters(ns: seq<Sextet>)
    ensures Sextets(Letters(ns)) == Some(ns)
  {
    var t := Letters(ns);
    if ns != [] {
      assert t[1..] == Letters(ns[1..]);
      SextetsOfLetters(ns[1..]);
      assert [ns[0]] + ns[1..] == ns;
    }
  }

  // ── Bytes and sextets ─────────────────────────────────────────────────────────────────────────

  /** Three bytes to four sextets; a short end keeps only the sextets it reaches into. */
  function Split(bs: bytes): (r: seq<Sextet>)
    ensures |r| == (4 * |bs| + 2) / 3
  {
    if |bs| == 0 then []
    else if |bs| == 1 then [bs[0] / 4, bs[0] % 4 * 16]
    else if |bs| == 2 then [bs[0] / 4, bs[0] % 4 * 16 + bs[1] / 16, bs[1] % 16 * 4]
    else [bs[0] / 4, bs[0] % 4 * 16 + bs[1] / 16, bs[1] % 16 * 4 + bs[2] / 64, bs[2] % 64] + Split(bs[3..])
  }

  function Byte0(a: nat, b: nat): (r: byte)
    requires a < 64 && b < 64
  {
    a * 4 + b / 16
  }

  function Byte1(b: nat, c: nat): (r: byte)
    requires b < 64 && c < 64
  {
    b % 16 * 16 + c / 4
  }

  function Byte2(c: nat, d: nat): (r: byte)
    requires c < 64 && d < 64
  {
    c % 4 * 64 + d
  }

  /** Four sextets to three bytes; the low bits left over at a short end are dropped. */
  function Merge(ns: seq<Sextet>): (r: bytes)
    requires |ns| % 4 != 1
    ensures |r| == 3 * |ns| / 4
  {
    if |ns| == 0 then []
    else if |ns| == 2 then [Byte0(ns[0], ns[1])]
    else if |ns| == 3 then [Byte0(ns[0], ns[1]), Byte1(ns[1], ns[2])]
    else [Byte0(ns[0], ns[1]), Byte1(ns[1], ns[2]), Byte2(ns[2], ns[3])] + Merge(ns[4..])
  }

  /** Sextets as the digits of one number, the highest first. */
  function Number64(ns: seq<nat>): (n: int) {
    if ns == [] then 0 else Number64(ns[..|ns| - 1]) * 64 + ns[|ns| - 1]
  }

  lemma Number64Of(w: nat, x: nat, y: nat, z: nat)
    ensures Number64([w, x]) == 64 * w + x
    ensures Number64([w, x, y]) == 4096 * w + 64 * x + y
    ensures Number64([w, x, y, z]) == 262144 * w + 4096 * x + 64 * y + z
  {
    assert [w][..0] == [] && Number64([w]) == w;
    assert [w, x][..1] == [w] && Number64([w, x]) == 64 * w + x;
    assert [w, x, y][..2] == [w, x] && Number64([w, x, y]) == 4096 * w + 64 * x + y;
    assert [w, x, y, z][..3] == [w, x, y];
  }

  lemma SplitThree(a: byte, b: byte, c: byte, rest: bytes)
    ensures Split([a, b, c] + rest) == [a / 4, a % 4 * 16 + b / 16, b % 16 * 4 + c / 64, c % 64] + Split(rest)
  {
    assert ([a, b, c] + rest)[3..] == rest;
  }

  /** The bits in order, the highest first, in groups of three bytes; a short end is filled up with zero bits. */
  lemma SplitIsBigEndian(a: byte, b: byte, c: byte, rest: bytes)
    ensures Number64(Split([a])) == 16 * a
    ensures Number64(Split([a, b])) == 1024 * a + 4 * b
    ensures Number64(Split([a, b, c])) == 65536 * a + 256 * b + c
    ensures Split([a, b, c] + rest) == Split([a, b, c]) + Split(rest)
  {
    SplitThree(a, b, c, rest);
    SplitThree(a, b, c, []);
    assert [a, b, c] + [] == [a, b, c];
    var four: seq<Sextet> := [a / 4, a % 4 * 16 + b / 16, b % 16 * 4 + c / 64, c % 64];
    assert Split([a, b, c]) == four + [] == four;
    SplitNumbers(a, b, c);
  }

  lemma SplitNumbers(a: byte, b: byte, c: byte)
    ensures Number64([a / 4, a % 4 * 16]) == 16 * a
    ensures Number64([a / 4, a % 4 * 16 + b / 16, b % 16 * 4]) == 1024 * a + 4 * b
    ensures Number64([a / 4, a % 4 * 16 + b / 16, b % 16 * 4 + c / 64, c % 64]) == 65536 * a + 256 * b + c
  {
    Number64Of(a / 4, a % 4 * 16, 0, 0);
    Number64Of(a / 4, a % 4 * 16 + b / 16, b % 16 * 4, 0);
    Number64Of(a / 4, a % 4 * 16 + b / 16, b % 16 * 4 + c / 64, c % 64);
  }

  lemma BytesBack(a: byte, b: byte, c: byte)
    ensures Byte0(a / 4, a % 4 * 16 + b / 16) == a && Byte1(a % 4 * 16 + b / 16, b % 16 * 4 + c / 64) == b
    ensures Byte2(b % 16 * 4 + c / 64, c % 64) == c
  {
    var x, y := a % 4 * 16 + b / 16, b % 16 * 4 + c / 64;
    assert x / 16 == a % 4 && x % 16 == b / 16 && y / 4 == b % 16 && y % 4 == c / 64;
  }

  lemma MergeThree(a: byte, b: byte, c: byte)
    ensures Merge([a / 4, a % 4 * 16 + b / 16, b % 16 * 4 + c / 64, c % 64]) == [a, b, c]
  {
    var ns: seq<Sextet> := [a / 4, a % 4 * 16 + b / 16, b % 16 * 4 + c / 64, c % 64];
    assert ns[4..] == [];
    BytesBack(a, b, c);
  }

  lemma MergeHead(four: seq<Sextet>, rest: seq<Sextet>)
    requires |four| == 4 && |rest| % 4 != 1
    ensures Merge(four + rest) == Merge(four) + Merge(rest)
  {
    assert (four + rest)[4..] == rest && four[4..] == [];
  }

  lemma {:induction false} MergeSplit(bs: bytes)
    ensures Merge(Split(bs)) == bs
    decreases |bs|
  {
    if |bs| >= 3 {
      var four: seq<Sextet> := [bs[0] / 4, bs[0] % 4 * 16 + bs[1] / 16, bs[1] % 16 * 4 + bs[2] / 64, bs[2] % 64];
      MergeThree(bs[0], bs[1], bs[2]);
      MergeHead(four, Split(bs[3..]));
      MergeSplit(bs[3..]);
      assert bs == [bs[0], bs[1], bs[2]] + bs[3..];
    } else if |bs| == 2 {
      assert (bs[0] % 4 * 16 + bs[1] / 16) / 16 == bs[0] % 4 && (bs[0] % 4 * 16 + bs[1] / 16) % 16 == bs[1] / 16;
    }
  }

  // ── The codec ─────────────────────────────────────────────────────────────────────────────────

  function Encode(bs: bytes): (r: Text) {
    Letters(Split(bs))
  }

  /** The lenient decoder: stray low bits at the end are ignored. */
  function Decode(t: Text): (r: Option<bytes>) {
    var ns := Sextets(t);
    if ns.None? || |t| % 4 == 1 then None else Some(Merge(ns.value))
  }

  /** A JWK member: it must decode to 32 bytes and be their encoding. */
  function StrictDecode(t: Text): (r: Option<bytes>) {
    var raw := Decode(t);
    if raw.None? || |raw.value| != 32 || Encode(raw.value) != t then None else raw
  }

  lemma DecodeLetters(ns: seq<Sextet>)
    requires |ns| % 4 != 1
    ensures Decode(Letters(ns)) == Some(Merge(ns))
  {
    SextetsOfLetters(ns);
  }

  /** Decoding an encoding gives back the bytes, at every length. */
  lemma RoundTrip(bs: bytes)
    ensures Decode(Encode(bs)) == Some(bs)
  {
    MergeSplit(bs);
    DecodeLetters(Split(bs));
  }

  /** The strict decoder accepts exactly the encodings of 32-byte strings, each for its own string. */
  lemma StrictDecodeExact(t: Text, key: bytes)
    ensures StrictDecode(t) == Some(key) <==> |key| == 32 && Encode(key) == t
  {
    if |key| == 32 && Encode(key) == t {
      RoundTrip(key);
    }
  }

  /** Without the last check a second text would stand for the same key. */
  lemma StrayBitsDecodeAlike(key: bytes)
    requires |key| == 32
    ensures |Encode(key)| == 43
    ensures exists t :: t != Encode(key) && Decode(t) == Some(key) && StrictDecode(t) == None
  {
    var ns := Split(key);
    LastSextet(key);
    var other := ns[42 := ns[42] + 1];
    SameMerge(ns, other, ns[42]);
    MergeSplit(key);
    DecodeLetters(other);
    var t := Letters(other);
    assert t[42] != Encode(key)[42];
    assert t != Encode(key) && Decode(t) == Some(key);
  }

  lemma {:induction false} LastSextet(bs: bytes)
    requires |bs| % 3 == 2
    ensures Split(bs)[|Split(bs)| - 1] % 4 == 0
    decreases |bs|
  {
    if |bs| > 2 {
      LastSextet(bs[3..]);
      var tail := Split(bs[3..]);
      assert Split(bs)[4..] == tail;
      assert Split(bs)[|Split(bs)| - 1] == tail[|tail| - 1];
    }
  }

  /** The two low bits of the last sextet reach into no byte. */
  lemma {:induction false} SameMerge(ns: seq<Sextet>, other: seq<Sextet>, last: Sextet)
    requires |ns| % 4 == 3 && ns[|ns| - 1] == last && last % 4 == 0 && last + 1 < 64
    requires other == ns[|ns| - 1 := last + 1]
    ensures Merge(other) == Merge(ns)
    decreases |ns|
  {
    if |ns| > 3 {
      assert other[..4] == ns[..4] && other[4..] == ns[4..][|ns| - 5 := last + 1];
      assert other[0] == other[..4][0] && other[1] == other[..4][1] && other[2] == other[..4][2] && other[3] == other[..4][3];
      SameMerge(ns[4..], other[4..], last);
    }
  }
}
