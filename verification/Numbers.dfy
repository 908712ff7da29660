/** Which number the scanner reads, from the digits that are written. */
module Numbers {
  import opened Prelude
  import opened Text
  import opened SpendScanner

  predicate Digital(d: string) {
    forall c | c in d :: IsDigit(c)
  }

  predicate DigitAt(s: string, i: nat) {
    i < |s| && IsDigit(s[i])
  }

  /** The digits `d` stand at `i`, and neither a digit nor a fraction follows. */
  predicate Whole(s: string, i: nat, d: string) {
    && d != "" && Digital(d) && At(s, d, i)
    && !DigitAt(s, i + |d|) && !(i + |d| < |s| && s[i + |d|] == '.' && DigitAt(s, i + |d| + 1))
  }

  /** The digits `a`, a dot and the digits `b` stand at `i`, and no digit follows; `a` may be
      empty. */
  predicate Fraction(s: string, i: nat, a: string, b: string) {
    && Digital(a) && b != "" && Digital(b) && At(s, a + "." + b, i)
    && !DigitAt(s, i + |a| + 1 + |b|)
  }

  /** A number stands at `i`: the digits `a`, and after a dot the digits `b` if there are any. */
  predicate Spelled(s: string, i: nat, a: string, b: string) {
    if b == "" then Whole(s, i, a) else Fraction(s, i, a, b)
  }

  function Width(a: string, b: string): nat {
    if b == "" then |a| else |a| + 1 + |b|
  }

  /** `v` is `n` divided by `p`. */
  predicate Ratio(v: real, n: nat, p: nat) {
    v * p as real == n as real
  }

  /** The number `v` has the digits `d`, the last `places` of them behind the dot. */
  predicate Denotes(v: real, d: string, places: nat) {
    Digital(d) && Ratio(v, DecimalValue(d), Pow10(places))
  }

  // ── Digits ────────────────────────────────────────────────────────────────

  lemma {:induction false} DigitsAreDecimal(d: string)
    requires Digital(d)
    ensures Digits(d) == DecimalValue(d)
  {
    if d != "" {
      assert d[|d| - 1] in d;
      DigitsAreDecimal(d[..|d| - 1]);
    }
  }

  lemma {:induction false} DigitsJoin(a: string, b: string)
    ensures Digits(a + b) == Digits(a) * Pow10(|b|) + Digits(b)
  {
    if b == "" {
      assert a + b == a;
    } else {
      var front, last := b[..|b| - 1], b[|b| - 1];
      DigitsJoin(a, front);
      assert (a + b)[..|a + b| - 1] == a + front && (a + b)[|a + b| - 1] == last;
      TenTimes(Digits(a), Pow10(|front|), Digits(front));
    }
  }

  lemma TenTimes(a: nat, p: nat, b: nat)
    ensures 10 * (a * p + b) == a * (10 * p) + 10 * b
  {
  }

  lemma {:induction false} EndPastDigits(s: string, i: nat, j: nat, seenDot: bool)
    requires i <= j <= |s| && forall k | i <= k < j :: IsDigit(s[k])
    ensures NumberEnd(s, i, seenDot) == NumberEnd(s, j, seenDot)
    decreases j - i
  {
    if i < j { EndPastDigits(s, i + 1, j, seenDot); }
  }

  lemma AtDigits(s: string, d: string, i: nat)
    requires At(s, d, i) && Digital(d)
    ensures forall k | i <= k < i + |d| :: IsDigit(s[k])
  {
    forall k | i <= k < i + |d| ensures IsDigit(s[k]) {
      assert s[k] == s[i..i + |d|][k - i] == d[k - i];
    }
  }

  // ── The number read is the number written ─────────────────────────────────

  /** Digits alone are read as a whole number. */
  lemma WholeIsRead(s: string, i: nat, d: string)
    requires i <= |s| && Whole(s, i, d)
    ensures var n := ReadNumber(s, i); n.Some? && n.value.end == i + |d| && n.value.value == DecimalValue(d) as real
  {
    var end := WholeEnds(s, i, d);
    WholeIsValue(s, i, end, d);
  }

  lemma WholeEnds(s: string, i: nat, d: string) returns (end: nat)
    requires i <= |s| && Whole(s, i, d)
    ensures end == i + |d| && i < end <= |s| && NumberEnd(s, i, false) == end && s[i..end] == d && Digital(d)
  {
    end := i + |d|;
    AtDigits(s, d, i);
    EndPastDigits(s, i, end, false);
  }

  lemma WholeIsValue(s: string, i: nat, end: nat, d: string)
    requires i < end <= |s| && NumberEnd(s, i, false) == end && s[i..end] == d && Digital(d)
    ensures ReadNumber(s, i) == Some(Number(DecimalValue(d) as real, end))
  {
    ReadingOfWhole(d);
    ReadIs(s, i, end, d, DecimalValue(d) as real);
  }

  lemma ReadIs(s: string, i: nat, end: nat, t: string, v: real)
    requires i < end <= |s| && NumberEnd(s, i, false) == end && s[i..end] == t && Reading(t) == v
    ensures ReadNumber(s, i) == Some(Number(v, end))
  {
  }

  lemma ReadingOfWhole(d: string)
    requires Digital(d)
    ensures Reading(d) == DecimalValue(d) as real
  {
    assert '.' !in d;
    NoSymbolNoCut(d, ".");
    DigitsAreDecimal(d);
  }

  /** Digits, a dot and digits are read as the decimal fraction they write. */
  lemma FractionIsRead(s: string, i: nat, a: string, b: string)
    requires i <= |s| && Fraction(s, i, a, b)
    ensures ReadNumber(s, i).Some? && ReadNumber(s, i).value.end == i + |a| + 1 + |b|
    ensures Denotes(ReadNumber(s, i).value.value, a + b, |b|)
  {
    FractionPieces(s, i, a, b);
    FractionEnds(s, i, i + |a|, i + |a| + 1 + |b|);
    ReadingOfFraction(a, b);
    ReadIs(s, i, i + |a| + 1 + |b|, a + "." + b, Reading(a + "." + b));
  }

  lemma FractionPieces(s: string, i: nat, a: string, b: string)
    requires Fraction(s, i, a, b)
    ensures var dot, end := i + |a|, i + |a| + 1 + |b|;
            && end <= |s| && s[i..end] == a + "." + b && s[dot] == '.'
            && (forall k | i <= k < dot :: IsDigit(s[k])) && forall k | dot < k < end :: IsDigit(s[k])
  {
    var t, dot, end := a + "." + b, i + |a|, i + |a| + 1 + |b|;
    assert s[i..end] == t;
    assert s[dot] == t[|a|];
    forall k | i <= k < dot ensures IsDigit(s[k]) { assert s[k] == t[k - i] == a[k - i]; }
    forall k | dot < k < end ensures IsDigit(s[k]) { assert s[k] == t[k - i] == b[k - dot - 1]; }
  }

  lemma FractionEnds(s: string, i: nat, dot: nat, end: nat)
    requires i <= dot < dot + 1 < end <= |s| && s[dot] == '.' && !DigitAt(s, end)
    requires (forall k | i <= k < dot :: IsDigit(s[k])) && forall k | dot < k < end :: IsDigit(s[k])
    ensures NumberEnd(s, i, false) == end
  {
    EndPastDigits(s, i, dot, false);
    EndPastDigits(s, dot + 1, end, true);
  }

  lemma ReadingOfFraction(a: string, b: string)
    requires Digital(a) && Digital(b)
    ensures Denotes(Reading(a + "." + b), a + b, |b|)
  {
    ReadAroundDot(a, b);
    JoinIsDecimal(a, b);
    SumDenotes(Reading(a + "." + b), a + b, |b|, Pow10(|b|), Digits(a), Digits(b));
  }

  lemma SumDenotes(v: real, d: string, places: nat, p: nat, x: nat, y: nat)
    requires Digital(d) && p == Pow10(places) && SumOf(v, x, y, p) && DecimalValue(d) == x * p + y
    ensures Denotes(v, d, places)
  {
    Scaled(v, x, y, p, DecimalValue(d));
  }

  predicate SumOf(v: real, a: nat, b: nat, p: nat) {
    p > 0 && v == a as real + b as real / p as real
  }

  lemma JoinIsDecimal(a: string, b: string)
    requires Digital(a) && Digital(b)
    ensures Digital(a + b) && DecimalValue(a + b) == Digits(a) * Pow10(|b|) + Digits(b)
  {
    DigitsAreDecimal(a + b);
    DigitsJoin(a, b);
  }

  lemma ReadAroundDot(a: string, b: string)
    requires Digital(a)
    ensures SumOf(Reading(a + "." + b), Digits(a), Digits(b), Pow10(|b|))
  {
    Regroup(a, ".", b);
    assert '.' !in a;
    CutAtSymbol(a, '.', b);
  }

  lemma Scaled(v: real, a: nat, b: nat, p: nat, n: nat)
    requires SumOf(v, a, b, p) && n == a * p + b
    ensures Ratio(v, n, p)
  {
    var q := b as real / p as real;
    assert q * p as real == b as real;
    assert v * p as real == a as real * p as real + q * p as real;
  }

  lemma WholeDenotes(s: string, i: nat, d: string)
    requires i <= |s| && Whole(s, i, d)
    ensures ReadNumber(s, i).Some? && ReadNumber(s, i).value.end == i + |d|
    ensures Denotes(ReadNumber(s, i).value.value, d, 0)
  {
    WholeIsRead(s, i, d);
    WholeRatio(DecimalValue(d));
  }

  lemma WholeRatio(n: nat)
    ensures Ratio(n as real, n, Pow10(0))
  {
  }

  /** So every number is read as it is spelled. */
  lemma SpelledIsRead(s: string, i: nat, a: string, b: string)
    requires i <= |s| && Spelled(s, i, a, b)
    ensures ReadNumber(s, i).Some? && ReadNumber(s, i).value.end == i + Width(a, b)
    ensures Denotes(ReadNumber(s, i).value.value, a + b, |b|)
  {
    if b == "" {
      WholeDenotes(s, i, a);
      assert a + b == a;
    } else {
      FractionIsRead(s, i, a, b);
    }
  }

  /** And nothing else is read as a number: what is read is spelled so. */
  lemma NumberIsSpelled(s: string, i: nat) returns (a: string, b: string)
    requires i <= |s| && ReadNumber(s, i).Some?
    ensures Spelled(s, i, a, b) && ReadNumber(s, i).value.end == i + Width(a, b)
  {
    var dot := DigitsTo(s, i);
    a := s[i..dot];
    if dot + 1 < |s| && s[dot] == '.' && IsDigit(s[dot + 1]) {
      var end := DigitsTo(s, dot + 1);
      FractionEnds(s, i, dot, end);
      IsFraction(s, i, dot, end);
      b := s[dot + 1..end];
    } else {
      EndPastDigits(s, i, dot, false);
      b := "";
    }
  }

  lemma IsFraction(s: string, i: nat, dot: nat, end: nat)
    requires i <= dot < dot + 1 < end <= |s| && s[dot] == '.' && !DigitAt(s, end)
    requires (forall k | i <= k < dot :: IsDigit(s[k])) && forall k | dot < k < end :: IsDigit(s[k])
    ensures Fraction(s, i, s[i..dot], s[dot + 1..end])
  {
    assert s[i..end] == s[i..dot] + "." + s[dot + 1..end];
  }

  /** Where the digits from `i` on end. */
  lemma {:induction false} DigitsTo(s: string, i: nat) returns (j: nat)
    requires i <= |s|
    ensures i <= j <= |s| && (forall k | i <= k < j :: IsDigit(s[k])) && !DigitAt(s, j)
    decreases |s| - i
  {
    j := i;
    if DigitAt(s, i) { j := DigitsTo(s, i + 1); }
  }
}
