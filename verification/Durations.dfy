/** The JSON text of a Duration: a signed decimal number of seconds followed by `s`. */
module Durations {
  import opened Octets

  datatype Duration = Duration(seconds: int, nanos: int)

  const SECONDS_RANGE: int := 315_576_000_000
  const NANOS_RANGE: int := 999_999_999
  const MAX_TEXT_SIZE: nat := 24

  predicate Valid(d: Duration) {
    && -SECONDS_RANGE <= d.seconds <= SECONDS_RANGE
    && -NANOS_RANGE <= d.nanos <= NANOS_RANGE
    && !(d.seconds > 0 && d.nanos < 0) && !(d.seconds < 0 && d.nanos > 0)
  }

  // ---------- decimal digits ----------

  type Text = seq<char>

  predicate IsDigit(c: char) {
    '0' <= c <= '9'
  }

  predicate AllDigits(t: Text) {
    forall k :: 0 <= k < |t| ==> IsDigit(t[k])
  }

  function Digit(n: nat): (c: char)
    requires n < 10
    ensures IsDigit(c)
  {
    '0' + n as char
  }

  function Value(t: Text): nat
    requires AllDigits(t)
  {
    if t == [] then 0 else 10 * Value(t[..|t| - 1]) + (t[|t| - 1] - '0') as nat
  }

  function Decimal(n: nat): (t: Text)
    ensures AllDigits(t) && |t| >= 1
  {
    if n < 10 then [Digit(n)] else Decimal(n / 10) + [Digit(n % 10)]
  }

  function Pow10(k: nat): (p: nat)
    ensures p >= 1
  {
    if k == 0 then 1 else 10 * Pow10(k - 1)
  }

  /** Exactly `k` digits. */
  function Padded(n: nat, k: nat): (t: Text)
    ensures AllDigits(t) && |t| == k
    decreases k
  {
    if k == 0 then [] else Padded(n / 10, k - 1) + [Digit(n % 10)]
  }

  function Zeros(k: nat): (t: Text)
    ensures AllDigits(t) && |t| == k
  {
    if k == 0 then [] else Zeros(k - 1) + ['0']
  }

  function Trimmed(t: Text): (r: Text)
    requires AllDigits(t)
    ensures AllDigits(r) && |r| <= |t| && (r != [] ==> r[|r| - 1] != '0')
  {
    if t != [] && t[|t| - 1] == '0' then Trimmed(t[..|t| - 1]) else t
  }

  // ---------- the text ----------

  /** The nine digits of the nanoseconds without the trailing zeros, behind a point. */
  function Fraction(nanos: nat): Text {
    if nanos == 0 then [] else ['.'] + Trimmed(Padded(nanos, 9))
  }

  function Abs(n: int): nat {
    if n < 0 then -n else n
  }

  function Sign(d: Duration): Text {
    if d.seconds < 0 || d.nanos < 0 then ['-'] else []
  }

  function Printed(d: Duration): Text {
    Sign(d) + Decimal(Abs(d.seconds)) + Fraction(Abs(d.nanos)) + ['s']
  }

  // ---------- the printer ----------

  lemma DivTen(n: nat, p: nat)
    requires p > 0
    ensures n / (10 * p) == n / p / 10
    ensures n % (10 * p) == p * (n / p % 10) + n % p
  {
    var a, r := n / p, n % p;
    var b, s := a / 10, a % 10;
    TenFold(p, a, b, s);
    DivUnique(n, 10 * p, b, p * s + r);
  }

  lemma TenFold(p: nat, a: nat, b: nat, s: nat)
    requires a == 10 * b + s && s < 10
    ensures p * a == 10 * p * b + p * s && p * s <= 9 * p
  {
    assert p * a == p * (10 * b) + p * s;
  }

  lemma DivisibleByTen(n: nat, p: nat)
    requires p > 0
    ensures n % (10 * p) == 0 <==> n % p == 0 && n / p % 10 == 0
  {
    DivTen(n, p);
    var s := n / p % 10;
    assert s > 0 ==> p * s >= p;
  }

  lemma DivBelow(n: nat, p: nat)
    requires p > 0
    ensures n / p == 0 <==> n < p
    ensures n < p ==> n % p == n
  {
  }

  /** The zeros the printer has put in front after trying the multipliers above 10^j. */
  function Leading(n: nat, j: nat): Text
    requires j <= 8
    decreases 8 - j
  {
    if j == 8 then []
    else Leading(n, j + 1) + if n / Pow10(j + 1) == 0 then ['0'] else []
  }

  lemma {:induction false} LeadingAll(n: nat, j: nat)
    requires j <= 8 && n < Pow10(j + 1)
    ensures Leading(n, j) == Zeros(8 - j)
    decreases 8 - j
  {
    DivBelow(n, Pow10(j + 1));
    if j < 8 {
      LeadingAll(n, j + 1);
    }
  }

  lemma {:induction false} PaddedZero(k: nat)
    ensures Padded(0, k) == Zeros(k)
  {
    if k > 0 {
      PaddedZero(k - 1);
    }
  }

  /** One more digit of a number that has more than one. */
  lemma OneMoreDigit(m: nat, k: nat, zeros: Text)
    requires k > 0 && m >= 10 && zeros + Decimal(m / 10) == Padded(m / 10, k - 1)
    ensures zeros + Decimal(m) == Padded(m, k)
  {
    assert zeros + (Decimal(m / 10) + [Digit(m % 10)]) == zeros + Decimal(m / 10) + [Digit(m % 10)];
  }

  lemma LastDigit(m: nat, k: nat)
    requires k > 0 && m < 10
    ensures Zeros(k - 1) + Decimal(m) == Padded(m, k)
  {
    PaddedZero(k - 1);
  }

  /** The zeros and the significant digits are the digits down to 10^j. */
  lemma {:induction false} LeadingIsPadding(n: nat, j: nat)
    requires j <= 8 && n / Pow10(j) > 0 && n < Pow10(9)
    ensures Leading(n, j) + Decimal(n / Pow10(j)) == Padded(n / Pow10(j), 9 - j)
    decreases 8 - j
  {
    hide Decimal, Padded;
    var m := n / Pow10(j);
    DivTen(n, Pow10(j));
    DivBelow(n, Pow10(j + 1));
    if n / Pow10(j + 1) > 0 {
      LeadingIsPadding(n, j + 1);
      OneMoreDigit(m, 9 - j, Leading(n, j + 1));
    } else {
      LeadingAll(n, j);
      LastDigit(m, 9 - j);
    }
  }

  /** What divides away is trailing zeros. */
  lemma {:induction false} TrimmedPadding(n: nat, j: nat)
    requires j <= 8 && n % Pow10(j) == 0 && n / Pow10(j) % 10 != 0
    ensures Trimmed(Padded(n, 9)) == Padded(n / Pow10(j), 9 - j)
  {
    hide Pow10, Padded, Trimmed;
    PaddedShift(n, j, 9);
    PaddedLast(n / Pow10(j), 9 - j);
    TrimZeros(Padded(n / Pow10(j), 9 - j), j);
  }

  lemma {:induction false} PaddedShift(n: nat, j: nat, k: nat)
    requires j <= k && n % Pow10(j) == 0
    ensures Padded(n, k) == Padded(n / Pow10(j), k - j) + Zeros(j)
    decreases j
  {
    if j == 0 {
      assert Padded(n, k) + [] == Padded(n, k);
    } else {
      var p := Pow10(j - 1);
      DivTen(n, p);
      ShiftTen(n, p);
      PaddedShift(n / 10, j - 1, k - 1);
      assert n % 10 == 0 && n / 10 / p == n / Pow10(j);
      assert Padded(n / Pow10(j), k - j) + (Zeros(j - 1) + ['0']) == Padded(n / Pow10(j), k - j) + Zeros(j - 1) + ['0'];
    }
  }

  lemma ShiftTen(n: nat, p: nat)
    requires p > 0 && n % (10 * p) == 0
    ensures n % 10 == 0 && n / 10 % p == 0 && n / 10 / p == n / (10 * p)
  {
    var q := n / (10 * p);
    assert n == 10 * p * q == 10 * (p * q);
    DivUnique(n, 10, p * q, 0);
    DivUnique(n / 10, p, q, 0);
  }

  lemma {:induction false} TrimZeros(t: Text, j: nat)
    requires AllDigits(t) && (t != [] ==> t[|t| - 1] != '0')
    ensures Trimmed(t + Zeros(j)) == t
  {
    if j == 0 {
      assert t + [] == t;
    } else {
      assert (t + Zeros(j))[..|t| + j - 1] == t + Zeros(j - 1);
      TrimZeros(t, j - 1);
    }
  }

  lemma PaddedLast(m: nat, k: nat)
    requires k > 0
    ensures Padded(m, k)[k - 1] != '0' <==> m % 10 != 0
  {
  }

  /** The digits behind the point, as the program finds them: it tries ever smaller powers of ten,
      putting a zero in front for each that is too large, until one divides. */
  method PrintNanos(nanos: nat) returns (t: Text)
    requires 0 < nanos <= NANOS_RANGE
    ensures t == Trimmed(Padded(nanos, 9))
  {
    hide Pow10, Leading, Padded, Decimal, Trimmed;
    PowersOfTen();
    t := [];
    var multiplier := 100_000_000;
    ghost var j := 8;
    LeadingStart(nanos);
    NotDivisible(nanos);
    while multiplier != 0 && nanos % multiplier != 0
      invariant 0 <= j <= 8 && multiplier == Pow10(j) && t == Leading(nanos, j)
      invariant nanos % Pow10(j + 1) != 0
      decreases j
    {
      LeadingStep(nanos, j);
      if nanos / multiplier == 0 {
        t := t + ['0'];
      }
      multiplier := multiplier / 10;
      j := j - 1;
    }
    DividesAtLast(nanos, j);
    LeadingIsPadding(nanos, j);
    TrimmedPadding(nanos, j);
    t := t + Decimal(nanos / multiplier);
  }

  lemma PowersOfTen()
    ensures Pow10(0) == 1 && Pow10(8) == 100_000_000 && Pow10(9) == 1_000_000_000
  {
    assert Pow10(4) == 10_000;
  }

  lemma LeadingStart(n: nat)
    ensures Leading(n, 8) == []
  {
  }

  lemma NotDivisible(n: nat)
    requires 0 < n <= NANOS_RANGE
    ensures n % Pow10(9) != 0
  {
    PowersOfTen();
  }

  lemma LeadingStep(n: nat, j: nat)
    requires j <= 8 && n % Pow10(j) != 0
    ensures j > 0 && Pow10(j) / 10 == Pow10(j - 1)
    ensures Leading(n, j - 1) == Leading(n, j) + if n / Pow10(j) == 0 then ['0'] else []
  {
    assert Pow10(0) == 1;
  }

  lemma DividesAtLast(n: nat, j: nat)
    requires n > 0 && n % Pow10(j) == 0 && n % Pow10(j + 1) != 0
    ensures n / Pow10(j) > 0 && n / Pow10(j) % 10 != 0
  {
    DivisibleByTen(n, Pow10(j));
    DivBelow(n, Pow10(j));
  }

  method PrintFraction(nanos: nat) returns (t: Text)
    requires nanos <= NANOS_RANGE
    ensures t == Fraction(nanos)
  {
    hide Padded, Trimmed;
    t := [];
    if nanos != 0 {
      t := t + ['.'];
      var digits := PrintNanos(nanos);
      t := t + digits;
    }
  }

  /** QString::number. */
  function Number(n: int): Text {
    (if n < 0 then ['-'] else []) + Decimal(Abs(n))
  }

  method Print(d: Duration) returns (t: Option<Text>)
    ensures t == if Valid(d) then Some(Printed(d)) else None
  {
    hide Decimal, Fraction;
    if !Valid(d) {
      return None;
    }
    var result: Text, nanos: int := [], d.nanos;
    if nanos < 0 {
      if d.seconds == 0 {
        result := result + ['-'];
      }
      nanos := -nanos;
    }
    result := result + Number(d.seconds);
    assert result == Sign(d) + Decimal(Abs(d.seconds));
    var fraction := PrintFraction(nanos);
    return Some(result + fraction + ['s']);
  }

  // ---------- the parser ----------

  datatype Match = Match(negative: bool, whole: Text, fraction: Text)

  /** The digits a text starts with. */
  function Run(t: Text): (n: nat)
    ensures n <= |t| && AllDigits(t[..n])
  {
    if t == [] || !IsDigit(t[0]) then 0
    else
      var n := 1 + Run(t[1..]);
      assert t[..n] == [t[0]] + t[1..][..n - 1];
      n
  }

  /** The end of the pattern: `$` also matches in front of a final newline. */
  predicate Ends(t: Text) {
    t == "s" || t == "s\n"
  }

  /** The pattern ^(-?)(\d{1,12})(\.(\d{1,9}))?s$ with what it captures. */
  function MatchDuration(t: Text): (r: Option<Match>)
    ensures r.Some? ==> AllDigits(r.value.whole) && AllDigits(r.value.fraction)
                        && 1 <= |r.value.whole| <= 12 && |r.value.fraction| <= 9
  {
    if t != [] && t[0] == '-' then MatchNumber(true, t[1..]) else MatchNumber(false, t)
  }

  function MatchNumber(negative: bool, t: Text): (r: Option<Match>)
    ensures r.Some? ==> AllDigits(r.value.whole) && AllDigits(r.value.fraction)
                        && 1 <= |r.value.whole| <= 12 && |r.value.fraction| <= 9
  {
    var n := Run(t);
    if n < 1 || n > 12 then None
    else match MatchFraction(t[n..])
      case None => None
      case Some(fraction) => Some(Match(negative, t[..n], fraction))
  }

  function MatchFraction(t: Text): (r: Option<Text>)
    ensures r.Some? ==> AllDigits(r.value) && |r.value| <= 9
  {
    if Ends(t) then Some([])
    else if t == [] || t[0] != '.' then None
    else
      var n := Run(t[1..]);
      if 1 <= n <= 9 && Ends(t[1..][n..]) then Some(t[1..][..n]) else None
  }

  /** The nanoseconds that digits behind the point stand for. */
  function Scaled(fraction: Text): nat
    requires AllDigits(fraction) && |fraction| <= 9
  {
    Value(fraction) * Pow10(9 - |fraction|)
  }

  function Signed(negative: bool, d: Duration): Duration {
    if negative then Duration(-d.seconds, -d.nanos) else d
  }

  /** What a text stands for. */
  function Parsed(t: Text): Option<Duration> {
    match MatchDuration(t)
    case None => None
    case Some(m) =>
      if Value(m.whole) > SECONDS_RANGE then None
      else Some(Signed(m.negative, Duration(Value(m.whole), Scaled(m.fraction))))
  }

  lemma {:induction false} ValueBelow(t: Text)
    requires AllDigits(t)
    ensures Value(t) < Pow10(|t|)
    decreases |t|
  {
    if t != [] {
      ValueBelow(t[..|t| - 1]);
    }
  }

  lemma {:induction false} PowSum(a: nat, b: nat)
    ensures Pow10(a) * Pow10(b) == Pow10(a + b)
    decreases a
  {
    if a > 0 {
      PowSum(a - 1, b);
      Reassociate(Pow10(a - 1), Pow10(b));
    }
  }

  lemma Reassociate(p: nat, q: nat)
    ensures 10 * p * q == 10 * (p * q) == p * (10 * q)
  {
  }

  lemma ScaledBelow(fraction: Text)
    requires AllDigits(fraction) && |fraction| <= 9
    ensures Scaled(fraction) <= NANOS_RANGE
    ensures Value(fraction) <= NANOS_RANGE
  {
    var v, p, k := Value(fraction), Pow10(|fraction|), 9 - |fraction|;
    ValueBelow(fraction);
    PowSum(|fraction|, k);
    PowersOfTen();
    hide Pow10;
    ScaleBound(v, p, Pow10(k));
  }

  lemma ScaleBound(v: nat, p: nat, q: nat)
    requires v < p && p * q == 1_000_000_000 && q >= 1
    ensures v * q < 1_000_000_000 && v < 1_000_000_000
  {
    assert (v + 1) * q <= p * q;
    assert v * q + q == (v + 1) * q;
    assert v <= v * q;
  }

  /** Whatever is accepted is a valid duration, although only the digits were checked. */
  lemma ParsedIsValid(t: Text)
    ensures Parsed(t).Some? ==> Valid(Parsed(t).value)
  {
    var m := MatchDuration(t);
    if m.Some? {
      ScaledBelow(m.value.fraction);
    }
  }

  /** The parser checks the range of the digits as they stand, then scales and signs them. */
  method Parse(t: Text) returns (r: Option<Duration>)
    ensures r == Parsed(t)
  {
    hide Value, Pow10;
    var m := MatchDuration(t);
    if m.None? {
      return None;
    }
    ScaledBelow(m.value.fraction);
    var seconds: int, nanos: int := Value(m.value.whole), Value(m.value.fraction);
    if !Valid(Duration(seconds, nanos)) {
      return None;
    }
    if nanos != 0 {
      nanos := nanos * Pow10(9 - |m.value.fraction|);
    }
    if m.value.negative {
      seconds, nanos := -seconds, -nanos;
    }
    return Some(Duration(seconds, nanos));
  }

  // ---------- round trip ----------

  lemma {:induction false} RunOf(ds: Text, rest: Text)
    requires AllDigits(ds) && (rest == [] || !IsDigit(rest[0]))
    ensures Run(ds + rest) == |ds|
    decreases |ds|
  {
    if ds == [] {
      assert ds + rest == rest;
    } else {
      assert (ds + rest)[1..] == ds[1..] + rest;
      RunOf(ds[1..], rest);
    }
  }

  lemma {:induction false} DecimalValue(n: nat)
    ensures Value(Decimal(n)) == n
  {
    if n >= 10 {
      DecimalValue(n / 10);
      assert Decimal(n)[..|Decimal(n)| - 1] == Decimal(n / 10);
    } else {
      assert Decimal(n)[..0] == [];
    }
  }

  lemma {:induction false} DecimalSize(n: nat, k: nat)
    requires k >= 1 && n < Pow10(k)
    ensures |Decimal(n)| <= k
    decreases k
  {
    if n >= 10 {
      assert k > 1 by {
        assert Pow10(1) == 10;
      }
      DecimalSize(n / 10, k - 1);
    }
  }

  lemma {:induction false} PaddedValue(n: nat, k: nat)
    requires n < Pow10(k)
    ensures Value(Padded(n, k)) == n
    decreases k
  {
    if k > 0 {
      PaddedValue(n / 10, k - 1);
      assert Padded(n, k)[..k - 1] == Padded(n / 10, k - 1);
    }
  }

  lemma {:induction false} TrimmedValue(t: Text)
    requires AllDigits(t)
    ensures Value(Trimmed(t)) * Pow10(|t| - |Trimmed(t)|) == Value(t)
    decreases |t|
  {
    if t != [] && t[|t| - 1] == '0' {
      var front := t[..|t| - 1];
      assert Value(t) == 10 * Value(front) && Trimmed(t) == Trimmed(front);
      TrimmedValue(front);
      hide Value, Trimmed;
      var v, p := Value(Trimmed(front)), Pow10(|front| - |Trimmed(front)|);
      Reassociate(v, p);
    }
  }

  lemma EmptyValue()
    ensures Value([]) == 0
  {
  }

  /** The digits behind the point give the nanoseconds back, and the last of them is not a zero. */
  lemma FractionValue(nanos: nat)
    requires 0 < nanos <= NANOS_RANGE
    ensures var ds := Trimmed(Padded(nanos, 9));
            1 <= |ds| <= 9 && AllDigits(ds) && Scaled(ds) == nanos && ds[|ds| - 1] != '0'
  {
    hide Padded, Trimmed;
    PowersOfTen();
    PaddedValue(nanos, 9);
    TrimmedValue(Padded(nanos, 9));
    var ds := Trimmed(Padded(nanos, 9));
    EmptyValue();
  }

  lemma WholeDigits(seconds: nat)
    requires seconds <= SECONDS_RANGE
    ensures 1 <= |Decimal(seconds)| <= 12 && Value(Decimal(seconds)) == seconds
  {
    hide Decimal;
    PowersOfTen();
    PowSum(9, 3);
    assert Pow10(3) == 1000;
    DecimalValue(seconds);
    DecimalSize(seconds, 12);
  }

  /** The text of a fraction and of what follows it. */
  function Tail(fraction: Text): Text {
    (if fraction == [] then [] else ['.'] + fraction) + ['s']
  }

  /** What may stand behind the text. */
  predicate Ending(end: Text) {
    end == [] || end == ['\n']
  }

  lemma MatchTail(fraction: Text, end: Text)
    requires AllDigits(fraction) && |fraction| <= 9 && Ending(end)
    ensures MatchFraction(Tail(fraction) + end) == Some(fraction)
  {
    hide Run;
    var tail := ['s'] + end;
    assert tail == if end == [] then "s" else "s\n";
    if fraction == [] {
      assert Tail(fraction) + end == tail;
    } else {
      assert (Tail(fraction) + end)[1..] == fraction + tail;
      RunOf(fraction, tail);
      assert (fraction + tail)[..|fraction|] == fraction && (fraction + tail)[|fraction|..] == tail;
    }
  }

  /** A sign, digits, and a fraction if there is one, with the unit behind. */
  function Spelled(negative: bool, whole: Text, fraction: Text): Text {
    (if negative then ['-'] else []) + (whole + Tail(fraction))
  }

  /** The forms of a duration: at most twelve digits and nine behind the point. */
  predicate Form(whole: Text, fraction: Text) {
    AllDigits(whole) && AllDigits(fraction) && 1 <= |whole| <= 12 && |fraction| <= 9
  }

  lemma MatchSpelled(negative: bool, whole: Text, fraction: Text, end: Text)
    requires Form(whole, fraction) && Ending(end)
    ensures MatchDuration(Spelled(negative, whole, fraction) + end) == Some(Match(negative, whole, fraction))
  {
    hide Run, MatchFraction;
    var rest := whole + (Tail(fraction) + end);
    var t := Spelled(negative, whole, fraction) + end;
    RunOf(whole, Tail(fraction) + end);
    MatchTail(fraction, end);
    assert rest[..|whole|] == whole && rest[|whole|..] == Tail(fraction) + end;
    assert rest[0] == whole[0];
    if negative {
      assert t[1..] == rest;
    } else {
      assert t == rest;
    }
  }

  lemma MatchedFraction(t: Text) returns (end: Text)
    requires MatchFraction(t).Some?
    ensures Ending(end) && t == Tail(MatchFraction(t).value) + end
  {
    end := if t[|t| - 1] == 's' then [] else ['\n'];
    if !Ends(t) {
      var n := Run(t[1..]);
      var u := t[1..][n..];
      assert u == ['s'] + end;
      assert t == ['.'] + (t[1..][..n] + u);
    } else {
      assert t == ['s'] + end;
    }
  }

  lemma MatchedNumber(negative: bool, t: Text) returns (end: Text)
    requires MatchNumber(negative, t).Some?
    ensures var m := MatchNumber(negative, t).value;
            && m.negative == negative && Form(m.whole, m.fraction)
            && Ending(end) && t == m.whole + (Tail(m.fraction) + end)
  {
    hide MatchFraction, Run, Tail, Ending;
    end := MatchedFraction(t[Run(t)..]);
    assert t == t[..Run(t)] + t[Run(t)..];
  }

  lemma MatchedIsSpelled(t: Text) returns (end: Text)
    requires MatchDuration(t).Some?
    ensures var m := MatchDuration(t).value;
            Ending(end) && Form(m.whole, m.fraction) && t == Spelled(m.negative, m.whole, m.fraction) + end
  {
    hide MatchNumber, Tail, Ending, Form;
    var negative := t != [] && t[0] == '-';
    var u := if negative then t[1..] else t;
    end := MatchedNumber(negative, u);
    var m := MatchDuration(t).value;
    var sign := if negative then ['-'] else [];
    assert t == sign + u;
    assert sign + (m.whole + (Tail(m.fraction) + end)) == sign + (m.whole + Tail(m.fraction)) + end;
  }

  /** The sign goes to the seconds and to the nanoseconds. */
  predicate Stands(d: Duration, negative: bool, seconds: int, nanos: int) {
    d == if negative then Duration(-seconds, -nanos) else Duration(seconds, nanos)
  }

  /** A text is accepted exactly when it spells a number of seconds within the range, in any of its forms,
      leading and trailing zeros and a final newline included, and it stands for that number. */
  lemma ParsedIff(t: Text, d: Duration)
    ensures Parsed(t) == Some(d)
            <==> exists negative: bool, whole: Text, fraction: Text, end: Text ::
                   Form(whole, fraction) && Ending(end) && t == Spelled(negative, whole, fraction) + end
                   && Value(whole) <= SECONDS_RANGE
                   && Stands(d, negative, Value(whole), Scaled(fraction))
  {
    hide MatchDuration, Value, Spelled, Scaled;
    if Parsed(t) == Some(d) {
      var m := MatchDuration(t).value;
      var end := MatchedIsSpelled(t);
      assert t == Spelled(m.negative, m.whole, m.fraction) + end;
    }
    if negative: bool, whole: Text, fraction: Text, end: Text :|
      Form(whole, fraction) && Ending(end) && t == Spelled(negative, whole, fraction) + end
      && Value(whole) <= SECONDS_RANGE
      && Stands(d, negative, Value(whole), Scaled(fraction))
    {
      MatchSpelled(negative, whole, fraction, end);
    }
  }

  /** The digits of a fraction count from the left: behind a point, trailing zeros add nothing. */
  lemma ScaledDigits(fraction: Text)
    requires AllDigits(fraction) && |fraction| < 9
    ensures Scaled(fraction + ['0']) == Scaled(fraction)
  {
    var more := fraction + ['0'];
    assert more[..|fraction|] == fraction;
    assert Pow10(9 - |fraction|) == 10 * Pow10(8 - |fraction|);
    Reassociate(Value(fraction), Pow10(8 - |fraction|));
  }

  /** The digits that are printed behind the point. */
  function FractionDigits(nanos: nat): Text {
    if nanos == 0 then [] else Trimmed(Padded(nanos, 9))
  }

  lemma PrintedIsSpelled(d: Duration)
    requires Valid(d)
    ensures Printed(d)
            == Spelled(d.seconds < 0 || d.nanos < 0, Decimal(Abs(d.seconds)), FractionDigits(Abs(d.nanos)))
  {
    hide Decimal, Padded, Trimmed, Scaled, Value;
    if d.nanos != 0 {
      FractionValue(Abs(d.nanos));
    }
    assert Fraction(Abs(d.nanos)) + ['s'] == Tail(FractionDigits(Abs(d.nanos)));
  }

  lemma PrintedForm(d: Duration)
    requires Valid(d)
    ensures Form(Decimal(Abs(d.seconds)), FractionDigits(Abs(d.nanos)))
    ensures Value(Decimal(Abs(d.seconds))) == Abs(d.seconds)
    ensures Scaled(FractionDigits(Abs(d.nanos))) == Abs(d.nanos)
    ensures var fraction := FractionDigits(Abs(d.nanos)); fraction != [] ==> fraction[|fraction| - 1] != '0'
  {
    hide Decimal, Padded, Trimmed, Value, Scaled;
    WholeDigits(Abs(d.seconds));
    NoFraction();
    if d.nanos != 0 {
      FractionValue(Abs(d.nanos));
    }
  }

  /** Parsing the printed form of a valid duration gives it back, sub-second negatives included. */
  lemma RoundTrip(d: Duration)
    requires Valid(d)
    ensures Parsed(Printed(d)) == Some(d)
    ensures |Printed(d)| <= MAX_TEXT_SIZE
  {
    hide Decimal, FractionDigits, Printed, MatchDuration, Value, Scaled;
    var negative, whole, fraction := d.seconds < 0 || d.nanos < 0, Decimal(Abs(d.seconds)),
                                     FractionDigits(Abs(d.nanos));
    PrintedIsSpelled(d);
    PrintedForm(d);
    MatchSpelled(negative, whole, fraction, []);
    assert Spelled(negative, whole, fraction) + [] == Spelled(negative, whole, fraction);
  }

  lemma NoFraction()
    ensures Scaled([]) == 0
  {
  }

  lemma {:induction false} DecimalLeads(n: nat)
    ensures |Decimal(n)| > 1 ==> Decimal(n)[0] != '0'
  {
    if n >= 10 {
      DecimalLeads(n / 10);
      assert Decimal(n)[0] == Decimal(n / 10)[0];
      if n < 100 {
        assert Decimal(n / 10) == [Digit(n / 10)];
      }
    }
  }

  /** The printed text has no zero too many: none in front of another digit, none at the end of the
      fraction, and no sign but that of the duration. */
  lemma PrintedIsTight(d: Duration)
    requires Valid(d)
    ensures exists whole: Text, fraction: Text ::
              && Form(whole, fraction) && Printed(d) == Spelled(d.seconds < 0 || d.nanos < 0, whole, fraction)
              && (|whole| > 1 ==> whole[0] != '0') && (fraction != [] ==> fraction[|fraction| - 1] != '0')
  {
    hide Decimal, FractionDigits, Printed, Spelled, Form, Value, Scaled;
    PrintedIsSpelled(d);
    PrintedForm(d);
    DecimalLeads(Abs(d.seconds));
  }

  /** Distinct valid durations have distinct texts. */
  lemma PrintedOnce(d: Duration, e: Duration)
    requires Valid(d) && Valid(e) && Printed(d) == Printed(e)
    ensures d == e
  {
    RoundTrip(d);
    RoundTrip(e);
  }
}
