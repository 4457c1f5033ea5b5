/** JCS numbers (RFC 8785 section 3.2.2.3): the four decimal layouts of a double, and integers only when they
    print as themselves.

    A double is the digits and exponent its `repr` spells: Python prints the shortest decimal that reads back
    as the same double, so the spelling stands for the double. */
module JsonNumbers {
  import opened Bytes
  import opened Utf

  const ZERO: nat := 48
  const MINUS: nat := 45
  const PLUS: nat := 43
  const POINT: nat := 46
  const EXP: nat := 101

  type Digit = c: nat | 48 <= c < 58 witness 48

  type Digits = seq<Digit>

  /** `raw` times ten to the `exponent`; `raw` starts with a non-zero digit and may end in zeros. */
  datatype Float = NaN | Infinite(negative: bool) | Zero(negative: bool)
                 | Finite(negative: bool, raw: Digits, exponent: int)

  datatype Decimal = Decimal(digits: Digits, exponent: int)

  predicate FloatOk(v: Float) {
    v.Finite? ==> v.raw != [] && v.raw[0] != ZERO
  }

  /** No zero at either end, so each value has one such form. */
  predicate Normal(d: Decimal) {
    d.digits != [] && d.digits[0] != ZERO && d.digits[|d.digits| - 1] != ZERO
  }

  // ── Digits ────────────────────────────────────────────────────────────────────────────────────

  function Zeros(n: nat): (r: Digits)
    ensures |r| == n
  {
    if n == 0 then [] else [ZERO] + Zeros(n - 1)
  }

  lemma {:induction false} ZerosSnoc(n: nat)
    ensures Zeros(n + 1) == Zeros(n) + [ZERO]
  {
    if n > 0 {
      ZerosSnoc(n - 1);
    }
  }

  function StripTail(raw: Digits): (r: Digits)
    ensures |r| <= |raw| && (r != [] ==> r[|r| - 1] != ZERO)
  {
    if raw != [] && raw[|raw| - 1] == ZERO then StripTail(raw[..|raw| - 1]) else raw
  }

  function StripHead(raw: Digits): (r: Digits)
    ensures |r| <= |raw| && (r != [] ==> r[0] != ZERO)
  {
    if raw != [] && raw[0] == ZERO then StripHead(raw[1..]) else raw
  }

  /** Moves the trailing zeros into the exponent. */
  function Trim(raw: Digits, exponent: int): (r: Decimal) {
    var digits := StripTail(raw);
    Decimal(digits, exponent + |raw| - |digits|)
  }

  lemma {:induction false} StripTailZeros(raw: Digits)
    ensures raw == StripTail(raw) + Zeros(|raw| - |StripTail(raw)|)
  {
    if raw != [] && raw[|raw| - 1] == ZERO {
      var init := raw[..|raw| - 1];
      StripTailZeros(init);
      ZerosSnoc(|init| - |StripTail(init)|);
      assert raw == init + [ZERO];
    }
  }

  lemma {:induction false} StripTailOf(ds: Digits, z: nat)
    requires ds != [] && ds[|ds| - 1] != ZERO
    ensures StripTail(ds + Zeros(z)) == ds
    decreases z
  {
    if z == 0 {
      assert ds + [] == ds;
    } else {
      ZerosSnoc(z - 1);
      assert ds + Zeros(z) == (ds + Zeros(z - 1)) + [ZERO];
      assert (ds + Zeros(z))[..|ds| + z - 1] == ds + Zeros(z - 1);
      StripTailOf(ds, z - 1);
    }
  }

  lemma {:induction false} StripHeadOf(ds: Digits, z: nat)
    requires ds != [] && ds[0] != ZERO
    ensures StripHead(Zeros(z) + ds) == ds
    decreases z
  {
    if z == 0 {
      assert [] + ds == ds;
    } else {
      assert (Zeros(z) + ds)[1..] == Zeros(z - 1) + ds;
      StripHeadOf(ds, z - 1);
    }
  }

  lemma TrimNormal(raw: Digits, exponent: int)
    requires raw != [] && raw[0] != ZERO
    ensures Normal(Trim(raw, exponent))
  {
    StripTailZeros(raw);
  }

  function NumOf(ds: Digits): (n: nat) {
    if ds == [] then 0 else NumOf(ds[..|ds| - 1]) * 10 + (ds[|ds| - 1] - ZERO)
  }

  /** Python's own decimal form of a natural number. */
  function DecDigits(n: nat): (r: Digits)
    ensures r != [] && (n != 0 ==> r[0] != ZERO) && (n == 0 ==> r == [ZERO])
  {
    if n < 10 then [ZERO + n] else DecDigits(n / 10) + [ZERO + n % 10]
  }

  lemma NumOfSnoc(ds: Digits, c: Digit)
    ensures NumOf(ds + [c]) == NumOf(ds) * 10 + (c - ZERO)
  {
    assert (ds + [c])[..|ds|] == ds;
  }

  lemma {:induction false} DecDigitsValue(n: nat)
    ensures NumOf(DecDigits(n)) == n
  {
    if n < 10 {
      NumOfSnoc([], ZERO + n);
      assert [] + [ZERO + n] == DecDigits(n);
    } else {
      DecDigitsValue(n / 10);
      NumOfSnoc(DecDigits(n / 10), ZERO + n % 10);
    }
  }

  lemma DivTen(n: nat, d: nat)
    requires d < 10
    ensures (n * 10 + d) / 10 == n && (n * 10 + d) % 10 == d
  {
  }

  lemma DecDigitsSnoc(n: nat, c: Digit)
    requires n > 0
    ensures DecDigits(n * 10 + (c - ZERO)) == DecDigits(n) + [c]
  {
    DivTen(n, c - ZERO);
  }

  lemma DecDigitsOne(c: Digit)
    ensures NumOf([c]) == c - ZERO && DecDigits(c - ZERO) == [c]
  {
    NumOfSnoc([], c);
    assert [] + [c] == [c];
  }

  /** A decimal form without a leading zero is the only one of its number. */
  lemma {:induction false} DecDigitsUnique(ds: Digits)
    requires ds != [] && ds[0] != ZERO
    ensures NumOf(ds) != 0 && DecDigits(NumOf(ds)) == ds
  {
    var init, last := ds[..|ds| - 1], ds[|ds| - 1];
    if init == [] {
      assert ds == [last];
      DecDigitsOne(last);
    } else {
      assert ds == init + [last];
      DecDigitsUnique(init);
      NumOfSnoc(init, last);
      DecDigitsSnoc(NumOf(init), last);
    }
  }

  // ── Values ────────────────────────────────────────────────────────────────────────────────────

  /** `n` times ten to the `e`. */
  function Scaled(n: nat, e: int): (r: real)
    decreases if e < 0 then -e else e
  {
    if e == 0 then n as real else if e > 0 then Scaled(n, e - 1) * 10.0 else Scaled(n, e + 1) / 10.0
  }

  function ValueOf(digits: Digits, exponent: int): (r: real) {
    Scaled(NumOf(digits), exponent)
  }

  function Signed(negative: bool, magnitude: real): (r: real) {
    if negative then -magnitude else magnitude
  }

  lemma {:induction false} ScaledShift(n: nat, e: int)
    ensures Scaled(n * 10, e) == Scaled(n, e + 1)
    decreases if e < 0 then -e else e
  {
    if e > 0 {
      ScaledShift(n, e - 1);
    } else if e < 0 {
      ScaledShift(n, e + 1);
    } else {
      assert Scaled(n, 1) == Scaled(n, 0) * 10.0;
    }
  }

  lemma ValueOfShifted(ds: Digits, exponent: int)
    ensures ValueOf(ds + [ZERO], exponent) == ValueOf(ds, exponent + 1)
  {
    NumOfSnoc(ds, ZERO);
    ScaledShift(NumOf(ds), exponent);
  }

  lemma {:induction false} TrailingZeros(ds: Digits, z: nat, exponent: int)
    ensures ValueOf(ds + Zeros(z), exponent) == ValueOf(ds, exponent + z)
    decreases z
  {
    if z == 0 {
      assert ds + [] == ds;
    } else {
      ZerosSnoc(z - 1);
      assert ds + Zeros(z) == (ds + Zeros(z - 1)) + [ZERO];
      ValueOfShifted(ds + Zeros(z - 1), exponent);
      TrailingZeros(ds, z - 1, exponent + 1);
    }
  }

  lemma {:induction false} LeadingZeros(z: nat, ds: Digits)
    ensures NumOf(Zeros(z) + ds) == NumOf(ds)
    decreases |ds|, z
  {
    if ds != [] {
      var init := ds[..|ds| - 1];
      assert ds == init + [ds[|ds| - 1]];
      assert Zeros(z) + ds == (Zeros(z) + init) + [ds[|ds| - 1]];
      NumOfSnoc(Zeros(z) + init, ds[|ds| - 1]);
      LeadingZeros(z, init);
    } else if z > 0 {
      ZerosSnoc(z - 1);
      assert Zeros(z) + ds == Zeros(z) && Zeros(z - 1) + ds == Zeros(z - 1);
      NumOfSnoc(Zeros(z - 1), ZERO);
      LeadingZeros(z - 1, ds);
    }
  }

  // ── Number literals of the JSON grammar ───────────────────────────────────────────────────────

  datatype Literal = Literal(negative: bool, whole: Digits, fraction: Option<Digits>, power: Option<int>)

  predicate WholeOk(ds: Digits) {
    ds != [] && (|ds| == 1 || ds[0] != ZERO)
  }

  predicate LiteralOk(l: Literal) {
    WholeOk(l.whole) && (l.fraction.Some? ==> l.fraction.value != [])
  }

  function SignText(negative: bool): (r: Text) {
    if negative then [MINUS] else []
  }

  function Abs(n: int): (r: nat) {
    if n < 0 then -n else n
  }

  function FractionText(f: Option<Digits>): (r: Text) {
    if f.None? then [] else [POINT] + f.value
  }

  function PowerText(p: Option<int>): (r: Text) {
    if p.None? then [] else [EXP] + ([if p.value >= 0 then PLUS else MINUS] + DecDigits(Abs(p.value)))
  }

  function UnsignedText(l: Literal): (r: Text) {
    l.whole + (FractionText(l.fraction) + PowerText(l.power))
  }

  function LiteralText(l: Literal): (r: Text) {
    SignText(l.negative) + UnsignedText(l)
  }

  predicate IsDigit(c: nat) {
    48 <= c < 58
  }

  /** The longest run of digits at the front, and what follows. */
  function Span(t: Text): (r: (Digits, Text))
    ensures |r.0| + |r.1| == |t|
  {
    if t != [] && IsDigit(t[0]) then
      var (ds, rest) := Span(t[1..]);
      ([t[0]] + ds, rest)
    else ([], t)
  }

  function ReadWhole(t: Text): (r: Option<(Digits, Text)>)
    ensures r.Some? ==> |r.value.1| < |t| && r.value.0 != []
  {
    if t == [] || !IsDigit(t[0]) then None
    else if t[0] == 48 then Some(([48], t[1..]))
    else Some(Span(t))
  }

  function ReadFraction(t: Text): (r: (Option<Digits>, Text))
    ensures |r.1| <= |t|
  {
    if t == [] || t[0] != 46 then (None, t)
    else
      var (ds, rest) := Span(t[1..]);
      if ds == [] then (None, t) else (Some(ds), rest)
  }

  function ReadPower(t: Text): (r: (Option<int>, Text))
    ensures |r.1| <= |t|
  {
    if t == [] || (t[0] != 101 && t[0] != 69) then (None, t)
    else
      var signed := |t| > 1 && (t[1] == 45 || t[1] == 43);
      var (ds, rest) := Span(if signed then t[1..][1..] else t[1..]);
      if ds == [] then (None, t)
      else (Some(if signed && t[1] == 45 then 0 - NumOf(ds) else NumOf(ds)), rest)
  }

  function ReadUnsigned(negative: bool, t: Text): (r: Option<(Literal, Text)>)
    ensures r.Some? ==> |r.value.1| < |t| && r.value.0.whole != []
  {
    var whole := ReadWhole(t);
    if whole.None? then None
    else
      var (fraction, afterFraction) := ReadFraction(whole.value.1);
      var (power, rest) := ReadPower(afterFraction);
      Some((Literal(negative, whole.value.0, fraction, power), rest))
  }

  /** The grammar's number: an optional sign, no leading zero, optional fraction and exponent. */
  function ReadLiteral(t: Text): (r: Option<(Literal, Text)>)
    ensures r.Some? ==> |r.value.1| < |t| && r.value.0.whole != []
  {
    if t != [] && t[0] == 45 then ReadUnsigned(true, t[1..]) else ReadUnsigned(false, t)
  }

  /** What may follow a number in canonical text. */
  predicate Stops(rest: Text) {
    rest == [] || rest[0] == 44 || rest[0] == 93 || rest[0] == 125
  }

  predicate NotDigit(rest: Text) {
    rest == [] || !IsDigit(rest[0])
  }

  lemma {:induction false} SpanOf(ds: Digits, rest: Text)
    requires NotDigit(rest)
    ensures Span(ds + rest) == (ds, rest)
  {
    if ds == [] {
      assert [] + rest == rest;
    } else {
      assert (ds + rest)[1..] == ds[1..] + rest;
      SpanOf(ds[1..], rest);
      assert [ds[0]] + ds[1..] == ds;
    }
  }

  lemma ReadWholeOf(ds: Digits, rest: Text)
    requires WholeOk(ds) && NotDigit(rest)
    ensures ReadWhole(ds + rest) == Some((ds, rest))
  {
    if ds[0] == ZERO {
      assert ds == [ZERO] && (ds + rest)[1..] == rest;
    } else {
      SpanOf(ds, rest);
    }
  }

  lemma ReadFractionOf(f: Option<Digits>, rest: Text)
    requires f.Some? ==> f.value != []
    requires NotDigit(rest) && (rest == [] || rest[0] != POINT)
    ensures ReadFraction(FractionText(f) + rest) == (f, rest)
  {
    if f.Some? {
      assert ([POINT] + f.value + rest)[1..] == f.value + rest;
      SpanOf(f.value, rest);
    } else {
      assert [] + rest == rest;
    }
  }

  lemma ReadSigned(sign: nat, ds: Digits, rest: Text)
    requires (sign == PLUS || sign == MINUS) && ds != [] && NotDigit(rest)
    ensures ReadPower([EXP] + ([sign] + (ds + rest))) == (Some(if sign == MINUS then 0 - NumOf(ds) else NumOf(ds)), rest)
  {
    var t := [EXP] + ([sign] + (ds + rest));
    assert t[0] == EXP && t[1] == sign && t[1..] == [sign] + (ds + rest) && t[1..][1..] == ds + rest;
    SpanOf(ds, rest);
  }

  lemma ReadPowerOf(p: Option<int>, rest: Text)
    requires Stops(rest)
    ensures ReadPower(PowerText(p) + rest) == (p, rest)
  {
    if p.Some? {
      var sign, ds := if p.value >= 0 then PLUS else MINUS, DecDigits(Abs(p.value));
      Regroup([EXP], [sign], ds, rest);
      ReadSigned(sign, ds, rest);
      DecDigitsValue(Abs(p.value));
    } else {
      assert [] + rest == rest;
    }
  }

  lemma Assoc5<T>(a: seq<T>, b: seq<T>, c: seq<T>, d: seq<T>, e: seq<T>)
    ensures (a + b) + c + d + e == a + (b + (c + (d + e)))
  {
    assert (a + b) + c == a + (b + c);
    assert (a + (b + c)) + d == a + (b + (c + d));
  }

  lemma ReadUnsignedOf(l: Literal, rest: Text)
    requires LiteralOk(l) && Stops(rest)
    ensures ReadUnsigned(l.negative, UnsignedText(l) + rest) == Some((l, rest))
  {
    var afterFraction := PowerText(l.power) + rest;
    var afterWhole := FractionText(l.fraction) + afterFraction;
    Regroup(l.whole, FractionText(l.fraction), PowerText(l.power), rest);
    assert NotDigit(afterFraction) && (afterFraction == [] || afterFraction[0] != POINT);
    assert NotDigit(afterWhole);
    ReadWholeOf(l.whole, afterWhole);
    ReadFractionOf(l.fraction, afterFraction);
    ReadPowerOf(l.power, rest);
  }

  /** Reading a printed literal gives the literal and leaves what followed it. */
  lemma ReadLiteralOf(l: Literal, rest: Text)
    requires LiteralOk(l) && Stops(rest)
    ensures ReadLiteral(LiteralText(l) + rest) == Some((l, rest))
  {
    var unsigned := UnsignedText(l) + rest;
    ReadUnsignedOf(l, rest);
    assert unsigned[0] == l.whole[0];
    if l.negative {
      assert LiteralText(l) + rest == [MINUS] + unsigned;
      assert (LiteralText(l) + rest)[1..] == unsigned;
    } else {
      assert LiteralText(l) == UnsignedText(l);
    }
  }

  function Mantissa(l: Literal): (r: Digits) {
    if l.fraction.Some? then l.whole + l.fraction.value else l.whole
  }

  function Scale(l: Literal): (e: int) {
    (if l.power.Some? then l.power.value else 0) - (if l.fraction.Some? then |l.fraction.value| else 0)
  }

  /** The decimal a literal denotes, without zeros at either end. */
  function LiteralDecimal(l: Literal): (r: Decimal) {
    Trim(StripHead(Mantissa(l)), Scale(l))
  }

  function LiteralValue(l: Literal): (r: real) {
    Signed(l.negative, ValueOf(Mantissa(l), Scale(l)))
  }

  // ── The four layouts ──────────────────────────────────────────────────────────────────────────

  /** How many digits stand before the decimal point. */
  function Position(d: Decimal): (n: int) {
    |d.digits| + d.exponent
  }

  function Body(d: Decimal): (r: Text)
    requires d.digits != []
  {
    var digits, k, n := d.digits, |d.digits|, Position(d);
    if k <= n <= 21 then digits + Zeros(n - k)
    else if 0 < n <= 21 then digits[..n] + [POINT] + digits[n..]
    else if -6 < n <= 0 then [ZERO, POINT] + Zeros(-n) + digits
    else
      var mantissa := [digits[0]] + (if k > 1 then [POINT] + digits[1..] else []);
      var e := n - 1;
      mantissa + [EXP] + [if e >= 0 then PLUS else MINUS] + DecDigits(Abs(e))
  }

  /** The text of a double, or a refusal of NaN and the infinities. */
  function NumberText(v: Float): (r: Option<Text>)
    requires FloatOk(v)
  {
    match v
    case NaN => None
    case Infinite(_) => None
    case Zero(_) => Some([ZERO])
    case Finite(negative, raw, exponent) =>
      TrimNormal(raw, exponent);
      Some(SignText(negative) + Body(Trim(raw, exponent)))
  }

  /** The literal each layout spells. */
  function Layout(negative: bool, d: Decimal): (l: Literal)
    requires Normal(d)
    ensures LiteralOk(l) && l.negative == negative
  {
    var k, n := |d.digits|, Position(d);
    if k <= n <= 21 then Literal(negative, d.digits + Zeros(n - k), None, None)
    else if 0 < n <= 21 then Literal(negative, d.digits[..n], Some(d.digits[n..]), None)
    else if -6 < n <= 0 then Literal(negative, [ZERO], Some(Zeros(-n) + d.digits), None)
    else Literal(negative, [d.digits[0]], if k > 1 then Some(d.digits[1..]) else None, Some(n - 1))
  }

  lemma PowerBody(negative: bool, d: Decimal)
    requires Normal(d) && !(-6 < Position(d) <= 21)
    ensures Body(d) == UnsignedText(Layout(negative, d))
  {
    var e, fraction := Position(d) - 1, FractionText(Layout(negative, d).fraction);
    Assoc5([d.digits[0]], fraction, [EXP], [if e >= 0 then PLUS else MINUS], DecDigits(Abs(e)));
  }

  lemma WholeBody(negative: bool, d: Decimal)
    requires Normal(d) && |d.digits| <= Position(d) <= 21
    ensures Body(d) == UnsignedText(Layout(negative, d))
  {
    var l := Layout(negative, d);
    assert [] + [] == FractionText(l.fraction) + PowerText(l.power);
    assert l.whole + [] == l.whole;
  }

  lemma FractionBody(negative: bool, d: Decimal)
    requires Normal(d) && !(|d.digits| <= Position(d) <= 21) && -6 < Position(d) <= 21
    ensures Body(d) == UnsignedText(Layout(negative, d))
  {
    var n, l := Position(d), Layout(negative, d);
    if 0 < n {
      assert FractionText(l.fraction) + [] == [POINT] + d.digits[n..];
    } else {
      assert FractionText(l.fraction) + [] == [POINT] + (Zeros(-n) + d.digits);
      assert [ZERO, POINT] == [ZERO] + [POINT];
    }
  }

  lemma BodyIsLayout(negative: bool, d: Decimal)
    requires Normal(d)
    ensures SignText(negative) + Body(d) == LiteralText(Layout(negative, d))
  {
    if |d.digits| <= Position(d) <= 21 {
      WholeBody(negative, d);
    } else if -6 < Position(d) <= 21 {
      FractionBody(negative, d);
    } else {
      PowerBody(negative, d);
    }
  }

  lemma WholeLayout(negative: bool, d: Decimal)
    requires Normal(d) && |d.digits| <= Position(d) <= 21
    ensures Mantissa(Layout(negative, d)) == d.digits + Zeros(d.exponent) && Scale(Layout(negative, d)) == 0
  {
  }

  lemma SmallLayout(negative: bool, d: Decimal)
    requires Normal(d) && -6 < Position(d) <= 0
    ensures Mantissa(Layout(negative, d)) == Zeros(1 - Position(d)) + d.digits
    ensures Scale(Layout(negative, d)) == d.exponent
  {
    var zeros := Zeros(-Position(d));
    assert [ZERO] + (zeros + d.digits) == ([ZERO] + zeros) + d.digits;
  }

  /** The layouts whose digits stand as they are. */
  lemma PlainLayout(negative: bool, d: Decimal)
    requires Normal(d) && !(|d.digits| <= Position(d) <= 21) && !(-6 < Position(d) <= 0)
    ensures Mantissa(Layout(negative, d)) == d.digits && Scale(Layout(negative, d)) == d.exponent
  {
    var n := Position(d);
    if 0 < n <= 21 {
      assert d.digits[..n] + d.digits[n..] == d.digits;
    } else {
      assert [d.digits[0]] + d.digits[1..] == d.digits;
    }
  }

  lemma {:induction false} TrimmedWhole(digits: Digits, zeros: nat)
    requires digits != [] && digits[0] != ZERO && digits[|digits| - 1] != ZERO
    ensures Trim(StripHead(digits + Zeros(zeros)), 0) == Decimal(digits, zeros)
  {
    StripTailOf(digits, zeros);
    assert (digits + Zeros(zeros))[0] == digits[0];
  }

  lemma {:induction false} TrimmedPlain(digits: Digits, zeros: nat, exponent: int)
    requires digits != [] && digits[0] != ZERO && digits[|digits| - 1] != ZERO
    ensures Trim(StripHead(Zeros(zeros) + digits), exponent) == Decimal(digits, exponent)
    ensures Trim(StripHead(digits), exponent) == Decimal(digits, exponent)
  {
    StripHeadOf(digits, zeros);
  }

  lemma LayoutDecimal(negative: bool, d: Decimal)
    requires Normal(d)
    ensures LiteralDecimal(Layout(negative, d)) == d
  {
    if |d.digits| <= Position(d) <= 21 {
      WholeLayout(negative, d);
      TrimmedWhole(d.digits, d.exponent);
    } else if -6 < Position(d) <= 0 {
      SmallLayout(negative, d);
      TrimmedPlain(d.digits, 1 - Position(d), d.exponent);
    } else {
      PlainLayout(negative, d);
      TrimmedPlain(d.digits, 0, d.exponent);
    }
  }

  /** The text read back is the same double: nothing but its sign and its decimal is lost. */
  lemma NumberReadsBack(v: Float, rest: Text)
    requires FloatOk(v) && v.Finite? && Stops(rest)
    ensures Normal(Trim(v.raw, v.exponent))
    ensures ReadLiteral(NumberText(v).value + rest) == Some((Layout(v.negative, Trim(v.raw, v.exponent)), rest))
    ensures LiteralDecimal(Layout(v.negative, Trim(v.raw, v.exponent))) == Trim(v.raw, v.exponent)
  {
    TrimNormal(v.raw, v.exponent);
    var d := Trim(v.raw, v.exponent);
    BodyIsLayout(v.negative, d);
    ReadLiteralOf(Layout(v.negative, d), rest);
    LayoutDecimal(v.negative, d);
  }

  lemma LayoutValue(negative: bool, d: Decimal)
    requires Normal(d)
    ensures ValueOf(Mantissa(Layout(negative, d)), Scale(Layout(negative, d))) == ValueOf(d.digits, d.exponent)
  {
    if |d.digits| <= Position(d) <= 21 {
      WholeLayout(negative, d);
      TrailingZeros(d.digits, d.exponent, 0);
    } else if -6 < Position(d) <= 0 {
      SmallLayout(negative, d);
      LeadingZeros(1 - Position(d), d.digits);
    } else {
      PlainLayout(negative, d);
    }
  }

  lemma TrimValue(raw: Digits, exponent: int)
    ensures ValueOf(Trim(raw, exponent).digits, Trim(raw, exponent).exponent) == ValueOf(raw, exponent)
  {
    StripTailZeros(raw);
    TrailingZeros(StripTail(raw), |raw| - |StripTail(raw)|, exponent);
  }

  /** The text denotes exactly the digits times ten to the exponent: the layout never rounds. */
  lemma NumberIsExact(v: Float)
    requires FloatOk(v) && v.Finite?
    ensures Normal(Trim(v.raw, v.exponent))
    ensures LiteralValue(Layout(v.negative, Trim(v.raw, v.exponent)))
         == Signed(v.negative, ValueOf(v.raw, v.exponent))
  {
    TrimNormal(v.raw, v.exponent);
    TrimValue(v.raw, v.exponent);
    LayoutValue(v.negative, Trim(v.raw, v.exponent));
  }

  function TenTo(k: nat): (r: nat) {
    if k == 0 then 1 else 10 * TenTo(k - 1)
  }

  /** As many digits as the power of ten above. */
  lemma {:induction false} NumOfBounds(ds: Digits)
    requires ds != [] && ds[0] != ZERO
    ensures TenTo(|ds| - 1) <= NumOf(ds) < TenTo(|ds|)
  {
    var init, last := ds[..|ds| - 1], ds[|ds| - 1];
    if init == [] {
      assert ds == [last];
      DecDigitsOne(last);
      assert TenTo(1) == 10 * TenTo(0);
    } else {
      NumOfBounds(init);
    }
  }

  lemma {:induction false} ScaledMonotone(m: nat, n: nat, e: int)
    ensures m < n <==> Scaled(m, e) < Scaled(n, e)
    decreases if e < 0 then -e else e
  {
    if e > 0 {
      ScaledMonotone(m, n, e - 1);
    } else if e < 0 {
      ScaledMonotone(m, n, e + 1);
    }
  }

  lemma {:induction false} ScaledTenTo(k: nat, e: int)
    ensures Scaled(TenTo(k), e) == Scaled(1, e + k)
    decreases k
  {
    if k > 0 {
      ScaledShift(TenTo(k - 1), e);
      ScaledTenTo(k - 1, e + 1);
    }
  }

  lemma {:induction false} PowersAscend(d: int, e: int)
    requires d <= e
    ensures 0.0 < Scaled(1, d) <= Scaled(1, e)
    decreases e - d, if d < 0 then -d else d
  {
    ScaledMonotone(0, 1, d);
    ScaledZero(d);
    if d < e {
      PowersAscend(d + 1, e);
      ScaledShift(1, d);
      ScaledMonotone(1, 10, d);
    }
  }

  lemma {:induction false} ScaledZero(e: int)
    ensures Scaled(0, e) == 0.0
    decreases if e < 0 then -e else e
  {
    if e > 0 {
      ScaledZero(e - 1);
    } else if e < 0 {
      ScaledZero(e + 1);
    }
  }

  /** The decimal point stands where the magnitude says. */
  lemma PositionIsMagnitude(d: Decimal)
    requires Normal(d)
    ensures Scaled(1, Position(d) - 1) <= ValueOf(d.digits, d.exponent) < Scaled(1, Position(d))
  {
    var k := |d.digits|;
    NumOfBounds(d.digits);
    ScaledTenTo(k - 1, d.exponent);
    ScaledTenTo(k, d.exponent);
    ScaledMonotone(NumOf(d.digits), TenTo(k - 1), d.exponent);
    ScaledMonotone(NumOf(d.digits), TenTo(k), d.exponent);
  }

  /** Exponent notation is used exactly below 10^-6 and from 10^21 on, as ECMAScript has it. */
  lemma DecimalNotation(negative: bool, d: Decimal)
    requires Normal(d)
    ensures Layout(negative, d).power.None?
       <==> Scaled(1, -6) <= ValueOf(d.digits, d.exponent) < Scaled(1, 21)
  {
    var n, v := Position(d), ValueOf(d.digits, d.exponent);
    PositionIsMagnitude(d);
    if n > 21 {
      PowersAscend(21, n - 1);
    } else if n <= -6 {
      PowersAscend(n, -6);
    } else {
      PowersAscend(n, 21);
      PowersAscend(-6, n - 1);
    }
  }

  // ── The one literal of a number ───────────────────────────────────────────────────────────────

  /** How ECMAScript writes a number that is not zero: no zero that could be left off, and one digit that is not
      zero before the point where an exponent follows. */
  predicate EcmaShape(l: Literal) {
    && LiteralOk(l)
    && (l.fraction.Some? ==> l.fraction.value[|l.fraction.value| - 1] != ZERO)
    && (l.power.Some? ==> |l.whole| == 1 && l.whole[0] != ZERO)
    && (l.fraction.None? ==> l.whole[0] != ZERO)
  }

  lemma {:induction false} StripHeadZeros(ds: Digits)
    ensures ds == Zeros(|ds| - |StripHead(ds)|) + StripHead(ds)
  {
    if ds != [] && ds[0] == ZERO {
      StripHeadZeros(ds[1..]);
      assert ds == [ZERO] + ds[1..];
      assert Zeros(|ds| - |StripHead(ds)|) == [ZERO] + Zeros(|ds| - 1 - |StripHead(ds)|);
    } else {
      assert [] + ds == ds;
    }
  }

  lemma {:induction false} StripHeadLast(ds: Digits)
    requires ds != [] && ds[|ds| - 1] != ZERO
    ensures StripHead(ds) != [] && StripHead(ds)[|StripHead(ds)| - 1] != ZERO
  {
    if ds[0] == ZERO {
      StripHeadLast(ds[1..]);
    }
  }

  lemma TrimNothing(ds: Digits, e: int)
    requires ds != [] && ds[|ds| - 1] != ZERO
    ensures Trim(ds, e) == Decimal(ds, e)
  {
  }

  lemma PowerShape(l: Literal)
    requires EcmaShape(l) && l.power.Some? && Normal(LiteralDecimal(l)) && !(-6 < Position(LiteralDecimal(l)) <= 21)
    ensures l == Layout(l.negative, LiteralDecimal(l))
  {
    TrimNothing(Mantissa(l), Scale(l));
    if l.fraction.Some? {
      assert Mantissa(l)[1..] == l.fraction.value;
    }
  }

  lemma PointShape(l: Literal, d: Decimal)
    requires EcmaShape(l) && l.power.None? && l.fraction.Some? && l.whole[0] != ZERO && d == LiteralDecimal(l)
    requires Normal(d) && -6 < Position(d) <= 21
    ensures l == Layout(l.negative, d)
  {
    var m := Mantissa(l);
    TrimNothing(m, Scale(l));
    assert d.digits == m && Position(d) == |l.whole|;
    assert m[..|l.whole|] == l.whole && m[|l.whole|..] == l.fraction.value;
  }

  lemma SmallDecimal(l: Literal, f: Digits)
    requires EcmaShape(l) && l.power.None? && l.fraction == Some(f) && l.whole[0] == ZERO
    ensures l.whole == [ZERO] && LiteralDecimal(l) == Decimal(StripHead(f), -|f|)
  {
    assert Mantissa(l)[0] == ZERO && Mantissa(l)[1..] == f;
    assert StripHead(Mantissa(l)) == StripHead(f);
    StripHeadLast(f);
    TrimNothing(StripHead(f), Scale(l));
  }

  lemma SmallShape(l: Literal, d: Decimal)
    requires EcmaShape(l) && l.power.None? && l.fraction.Some? && l.whole[0] == ZERO && d == LiteralDecimal(l)
    requires Normal(d) && -6 < Position(d) <= 21
    ensures l == Layout(l.negative, d)
  {
    var f := l.fraction.value;
    SmallDecimal(l, f);
    StripHeadZeros(f);
  }

  lemma WholeShape(l: Literal)
    requires EcmaShape(l) && l.power.None? && l.fraction.None? && Normal(LiteralDecimal(l)) && -6 < Position(LiteralDecimal(l)) <= 21
    ensures l == Layout(l.negative, LiteralDecimal(l))
  {
    StripTailZeros(l.whole);
  }

  lemma LayoutShape(negative: bool, d: Decimal)
    requires Normal(d)
    ensures EcmaShape(Layout(negative, d)) && (Layout(negative, d).power.None? <==> -6 < Position(d) <= 21)
  {
    var n := Position(d);
    if 0 < n <= 21 && n < |d.digits| {
      assert d.digits[n..][|d.digits| - n - 1] == d.digits[|d.digits| - 1];
    } else if !(-6 < n <= 21) && |d.digits| > 1 {
      assert d.digits[1..][|d.digits| - 2] == d.digits[|d.digits| - 1];
    }
  }

  /** The literal written for a number is the only one of that shape with its sign and its value that uses an
      exponent exactly below 10^-6 and from 10^21 on. */
  lemma LayoutIsTheLiteral(l: Literal, negative: bool, d: Decimal)
    requires Normal(d)
    ensures l == Layout(negative, d) <==>
            && l.negative == negative && EcmaShape(l) && LiteralDecimal(l) == d
            && (l.power.None? <==> Scaled(1, -6) <= ValueOf(d.digits, d.exponent) < Scaled(1, 21))
  {
    LayoutShape(negative, d);
    LayoutDecimal(negative, d);
    DecimalNotation(negative, d);
    if l.negative == negative && EcmaShape(l) && LiteralDecimal(l) == d && (l.power.None? <==> -6 < Position(d) <= 21) {
      if l.power.Some? {
        PowerShape(l);
      } else if l.fraction.Some? && l.whole[0] != ZERO {
        PointShape(l, d);
      } else if l.fraction.Some? {
        SmallShape(l, d);
      } else {
        WholeShape(l);
      }
    }
  }

  /** An exponent is written after a small `e` and always with its sign. */
  lemma PowerSigned(l: Literal)
    requires l.power.Some?
    ensures var i := |SignText(l.negative)| + |l.whole| + |FractionText(l.fraction)|;
            && i + 1 < |LiteralText(l)| && LiteralText(l)[i] == 'e' as int
            && LiteralText(l)[i + 1] == if l.power.value < 0 then '-' as int else '+' as int
  {
    var front := SignText(l.negative) + l.whole + FractionText(l.fraction);
    Assoc(SignText(l.negative), l.whole, FractionText(l.fraction) + PowerText(l.power));
    Assoc(SignText(l.negative) + l.whole, FractionText(l.fraction), PowerText(l.power));
    assert LiteralText(l) == front + PowerText(l.power);
  }

  /** Two finite doubles print alike only when they are the same double. */
  lemma NumberTextInjective(v: Float, w: Float)
    requires FloatOk(v) && FloatOk(w) && v.Finite? && w.Finite?
    ensures NumberText(v) == NumberText(w)
       <==> v.negative == w.negative && Trim(v.raw, v.exponent) == Trim(w.raw, w.exponent)
  {
    NumberReadsBack(v, []);
    NumberReadsBack(w, []);
  }

  // ── Integers ──────────────────────────────────────────────────────────────────────────────────

  const MAX_SAFE_INT: nat := 0x20_0000_0000_0000

  function IntText(n: int): (r: Text) {
    SignText(n < 0) + DecDigits(Abs(n))
  }

  function IntLiteral(n: int): (l: Literal)
    ensures LiteralOk(l)
  {
    Literal(n < 0, DecDigits(Abs(n)), None, None)
  }

  /** An integer's text, or a refusal; `float` is the double nearest to it, none when out of range. */
  function JcsInt(n: int, float: Option<Float>): (r: Option<Text>)
    requires float.Some? ==> FloatOk(float.value)
  {
    if 0 - MAX_SAFE_INT <= n <= MAX_SAFE_INT then Some(IntText(n))
    else if float.None? then None
    else
      var rendered := NumberText(float.value);
      if rendered == Some(IntText(n)) then rendered else None
  }

  function DecimalOf(n: nat): (r: Decimal)
    requires n != 0
    ensures Normal(r)
  {
    TrimNormal(DecDigits(n), 0);
    Trim(DecDigits(n), 0)
  }

  lemma IntLiteralText(n: int)
    ensures LiteralText(IntLiteral(n)) == IntText(n)
  {
    assert UnsignedText(IntLiteral(n)) == DecDigits(Abs(n)) + ([] + []);
  }

  lemma IntReadsBack(n: int, rest: Text)
    requires Stops(rest)
    ensures ReadLiteral(IntText(n) + rest) == Some((IntLiteral(n), rest))
  {
    IntLiteralText(n);
    ReadLiteralOf(IntLiteral(n), rest);
  }

  /** The decimal of an integer is laid out as the integer's own text up to 21 digits and never past them. */
  lemma IntegerLayout(n: int)
    requires n != 0
    ensures Layout(n < 0, DecimalOf(Abs(n))) == IntLiteral(n) <==> |DecDigits(Abs(n))| <= 21
  {
    StripTailZeros(DecDigits(Abs(n)));
  }

  lemma IntegerValue(n: int, float: Float)
    requires n != 0 && FloatOk(float) && float.Finite?
    requires Normal(Trim(float.raw, float.exponent))
    requires Layout(float.negative, Trim(float.raw, float.exponent)) == IntLiteral(n)
    ensures float.negative == (n < 0) && Trim(float.raw, float.exponent) == DecimalOf(Abs(n)) && |DecDigits(Abs(n))| <= 21
    ensures Signed(float.negative, ValueOf(float.raw, float.exponent)) == n as real
  {
    LayoutDecimal(float.negative, Trim(float.raw, float.exponent));
    IntegerLayout(n);
    NumberIsExact(float);
    DecDigitsValue(Abs(n));
  }

  /** An integer past the safe range is printed exactly when the shortest spelling of its double is its own
      decimal form, of at most 21 digits, which is where the exponent layout begins; then it is its own decimal
      text. */
  lemma IntegersPrintAsThemselves(n: int, float: Float)
    requires Abs(n) > 0x20_0000_0000_0000 && FloatOk(float) && float.Finite?
    ensures JcsInt(n, Some(float)).Some?
       <==> float.negative == (n < 0) && Trim(float.raw, float.exponent) == DecimalOf(Abs(n)) && |DecDigits(Abs(n))| <= 21
    ensures JcsInt(n, Some(float)).Some? ==> JcsInt(n, Some(float)) == Some(IntText(n))
    ensures JcsInt(n, Some(float)).Some? ==> Signed(float.negative, ValueOf(float.raw, float.exponent)) == n as real
  {
    var d := Trim(float.raw, float.exponent);
    NumberReadsBack(float, []);
    if JcsInt(n, Some(float)).Some? {
      IntReadsBack(n, []);
      IntegerValue(n, float);
    } else if float.negative == (n < 0) && d == DecimalOf(Abs(n)) && |DecDigits(Abs(n))| <= 21 {
      IntegerLayout(n);
      BodyIsLayout(float.negative, d);
      IntLiteralText(n);
    }
  }

  /** The integers up to 2^53 either way print as they are. */
  lemma SafeIntegersPrint(n: int, float: Option<Float>)
    requires -0x20_0000_0000_0000 <= n <= 0x20_0000_0000_0000 && (float.Some? ==> FloatOk(float.value))
    ensures JcsInt(n, float) == Some(IntText(n))
  {
  }

  /** That its double is exact is not enough: 2^60 is a double, but the shortest digits that name it spell
      1152921504606847000, and so it is refused. */
  lemma ExactDoubleRefused()
    ensures JcsInt(0x1000_0000_0000_0000, Some(Finite(false, DecDigits(1152921504606847), 3))).None?
  {
    var x := Finite(false, DecDigits(1152921504606847), 3);
    DecDigitsValue(1152921504606847);
    assert Scaled(1152921504606847, 1) == 11529215046068470.0;
    assert Scaled(1152921504606847, 3) == 1152921504606847000.0;
    IntegersPrintAsThemselves(0x1000_0000_0000_0000, x);
  }
}
