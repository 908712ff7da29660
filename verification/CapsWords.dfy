/** Which caps the words of a message mean: amounts, durations and limits that are not caps. */
module CapsWords {
  import opened Prelude
  import opened Text
  import opened SpendScanner
  import opened Numbers
  import opened Amounts
  import opened TimeZone
  import opened Deadline
  import opened Caps

  // ── Rounding ──────────────────────────────────────────────────────────────

  /** The nearest integer, half away from zero. */
  predicate Nearest(n: int, x: real) {
    && -0.5 <= n as real - x <= 0.5
    && (n as real - x == 0.5 ==> x > 0.0) && (n as real - x == -0.5 ==> x < 0.0)
  }

  lemma RoundIsNearest(x: real)
    ensures Nearest(Round(x), x)
  {
  }

  /** Micro-dollars are the nearest to the amount, held within 64 bits. */
  lemma MicroIsNearest(usd: real)
    ensures -I64_MAX - 1 < UsdToMicro(usd) < I64_MAX ==> Nearest(UsdToMicro(usd), usd * 1_000_000.0)
    ensures UsdToMicro(usd) == I64_MAX ==> usd * 1_000_000.0 >= I64_MAX as real - 0.5
    ensures UsdToMicro(usd) == -I64_MAX - 1 ==> usd * 1_000_000.0 <= -(I64_MAX as real) - 0.5
  {
    RoundIsNearest(usd * 1_000_000.0);
  }

  /** The digits `d` with `places` of them behind the dot are exactly `micro` millionths. */
  predicate Millionths(micro: int, d: string, places: nat) {
    Digital(d) && places <= 6 && micro == DecimalValue(d) * Pow10(6 - places)
  }

  lemma Powers()
    ensures Pow10(0) == 1 && Pow10(1) == 10 && Pow10(2) == 100 && Pow10(3) == 1000
    ensures Pow10(4) == 10_000 && Pow10(5) == 100_000 && Pow10(6) == 1_000_000
  {
    assert Pow10(1) == 10 * Pow10(0) && Pow10(2) == 10 * Pow10(1) && Pow10(3) == 10 * Pow10(2);
    assert Pow10(4) == 10 * Pow10(3) && Pow10(5) == 10 * Pow10(4) && Pow10(6) == 10 * Pow10(5);
  }

  lemma PowersMakeMillion(k: nat)
    requires k <= 6
    ensures Pow10(k) * Pow10(6 - k) == 1_000_000
  {
    Powers();
    match k {
      case 0 =>
      case 1 =>
      case 2 =>
      case 3 =>
      case 4 =>
      case 5 =>
      case _ => assert k == 6;
    }
  }

  /** Up to six places, a spend is exactly the amount that is written. */
  lemma MicroOfDigits(v: real, d: string, places: nat, micro: nat)
    requires Denotes(v, d, places) && Millionths(micro, d, places) && micro <= I64_MAX
    ensures UsdToMicro(v) == micro
  {
    PowersMakeMillion(places);
    Scale(v, DecimalValue(d), Pow10(places), Pow10(6 - places));
    RoundOfWhole(micro);
  }

  lemma Scale(v: real, n: nat, p: nat, q: nat)
    requires Ratio(v, n, p) && p * q == 1_000_000
    ensures v * 1_000_000.0 == (n * q) as real
  {
    assert v * p as real * q as real == n as real * q as real;
    assert p as real * q as real == (p * q) as real;
    assert v * (p as real * q as real) == v * p as real * q as real;
  }

  lemma RoundOfWhole(n: nat)
    ensures Round(n as real) == n
  {
    RoundIsNearest(n as real);
  }

  // ── The spend of a message ────────────────────────────────────────────────

  /** A spend cap that is not "no limit" is, up to six places, exactly the number that stands
      with `$`, `usd` or a unit in the message; beyond that, the nearest micro-dollar. */
  lemma SpendIsTheDigits(text: string, now: int, z: Zone) returns (m: Amount, at: nat, a: string, b: string)
    requires var p := CapsOf(text, now, z); p.Parsed? && p.caps.spend.Some? && p.caps.spend.value != UNLIMITED
    ensures var lower, micro := Lower(text), CapsOf(text, now, z).caps.spend.value;
            && Scan(lower, 0) == [m] && m.at <= at && AmountAt(lower, m.kind, m.at, at, a, b, m.end)
            && Denotes(m.value, a + b, |b|)
            && (forall exact: nat | Millionths(exact, a + b, |b|) && exact <= I64_MAX :: micro == exact)
            && (micro < I64_MAX ==> Nearest(micro, m.value * 1_000_000.0))
  {
    var lower := Lower(text);
    SpendIsWhatWasWritten(text, now, z);
    m := Scan(lower, 0)[0];
    at, a, b := AmountIsWritten(lower, m);
    PositiveIsUnsigned(lower, m, at, a, b);
    MicroIsNearest(m.value);
    PositiveAmountsRoundToNonNegative(m.value);
    forall exact: nat | Millionths(exact, a + b, |b|) && exact <= I64_MAX
      ensures UsdToMicro(m.value) == exact
    {
      MicroOfDigits(m.value, a + b, |b|, exact);
    }
  }

  lemma PositiveIsUnsigned(s: string, m: Amount, at: nat, a: string, b: string)
    requires m.at <= |s| && m.value > 0.0 && Tells(s, m, m.kind, m.at, a, b, m.end)
    ensures Denotes(m.value, a + b, |b|)
  {
    if Denotes(-m.value, a + b, |b|) { NegativeIsNoNumber(-m.value, a + b, |b|); }
  }

  lemma NegativeIsNoNumber(v: real, d: string, places: nat)
    requires Denotes(v, d, places)
    ensures v >= 0.0
  {
    if v < 0.0 { NegativeTimes(v, Pow10(places)); }
  }

  lemma NegativeTimes(v: real, p: nat)
    requires v < 0.0 && p > 0
    ensures v * p as real < 0.0
  {
  }

  /** "$1.99": a dollar amount with nothing else that looks like an amount, and no phrase about
      spending, is the spend of the message. */
  lemma DollarsAreSpent(lower: string, i: nat, at: nat, a: string, b: string, micro: nat)
    requires i <= at && AmountAt(lower, Dollar, i, at, a, b, at + Width(a, b)) && !PrecedingMinus(lower, i)
    requires forall k | 0 <= k < i || at + Width(a, b) <= k < |lower| :: Quiet(lower, k)
    requires !ContainsAny(lower, NO_SPEND_PHRASES) && !ContainsAny(lower, UNLIMITED_PHRASES)
    requires Millionths(micro, a + b, |b|) && 0 < micro <= I64_MAX
    ensures SpendOf(lower, Scan(lower, 0)) == Micro(micro)
  {
    SpelledBounds(lower, at, a, b);
    DollarIsRead(lower, i, at, a, b);
    var m := Step(lower, i).0.value;
    OnlyAmount(lower, i, m);
    MicroOfDigits(m.value, a + b, |b|, micro);
    MicroIsPositive(m.value, a + b, |b|, micro);
  }

  lemma MicroIsPositive(v: real, d: string, places: nat, micro: nat)
    requires Denotes(v, d, places) && Millionths(micro, d, places) && micro > 0
    ensures v > 0.0
  {
    NegativeIsNoNumber(v, d, places);
    assert DecimalValue(d) > 0;
    NotZero(v, DecimalValue(d), Pow10(places));
  }

  lemma NotZero(v: real, n: nat, p: nat)
    requires Ratio(v, n, p) && n > 0
    ensures v != 0.0
  {
  }

  /** What is written decides whether a spend is set, and which: nothing that is found is
      dropped without a question. */
  lemma SpendIsNotDropped(text: string, now: int, z: Zone)
    ensures var p, lower := CapsOf(text, now, z), Lower(text);
            var found, wish := Scan(lower, 0), ContainsAny(lower, UNLIMITED_PHRASES);
            && (ContainsAny(lower, NO_SPEND_PHRASES) ==> p.Ask?)
            && (!wish && |found| >= 2 ==> p.Ask?)
            && (!wish && |found| == 1 && found[0].value <= 0.0 ==> p.Ask?)
            && (p.Parsed? ==>
                  p.caps.spend == (if wish then Some(UNLIMITED)
                                   else if |found| == 1 then Some(UsdToMicro(found[0].value)) else None))
  {
  }

  /** Every message is parsed exactly when nothing in it needs an answer and something in it
      is a cap; then its caps are what was read. */
  lemma ParsedExactly(text: string, now: int, z: Zone)
    ensures var p, lower := CapsOf(text, now, z), Lower(text);
            var spend, due := SpendOf(lower, Scan(lower, 0)), ParseDue(lower, now, z);
            && (p.Parsed? <==>
                  && !spend.Unclear? && spend != Micro(0) && !(due.Some? && due.value.Err?)
                  && NonDenomination(lower).None?
                  && !(spend.NoSpend? && LatencyOf(lower).None? && due.None?))
            && (p.Parsed? ==> p.caps.latency == LatencyOf(lower) && (p.caps.due.Some? <==> due.Some?)
                              && (due.Some? ==> p.caps.due == Some(due.value.value)))
  {
    var lower := Lower(text);
    SpendIsNonNegative(lower, Scan(lower, 0));
  }

  lemma SpendIsNonNegative(lower: string, found: seq<Amount>)
    ensures SpendOf(lower, found).Micro? ==> SpendOf(lower, found).micro >= 0
  {
    if |found| == 1 && found[0].value > 0.0 { PositiveAmountsRoundToNonNegative(found[0].value); }
  }

  /** Every question that was found is asked, spend before deadline before limits. */
  lemma EveryQuestionIsAsked(text: string, now: int, z: Zone, q: Question)
    ensures var p, lower := CapsOf(text, now, z), Lower(text);
            var spend, due, other := SpendOf(lower, Scan(lower, 0)), ParseDue(lower, now, z), NonDenomination(lower);
            (spend == Unclear(q) || due == Some(Err(q)) || other == Some(q)) ==> p.Ask? && q in p.questions
  {
  }

  // ── Durations ─────────────────────────────────────────────────────────────

  /** A number of milliseconds is cut to whole ones once rounded to microseconds; any other
      unit is rounded to the nearest millisecond, and takes more than zero. */
  lemma DurationIsNearest(value: real, u: TimeUnit)
    requires value >= 0.0
    ensures var d, ms := DurationOf(value, u), value * u.seconds as real * 1000.0;
            if StartsWith(u.word, "millisecond") then
              d.Some? && (value <= 1_000_000_000_000.0 ==> -0.0005 <= value - d.value as real < 1.0)
            else
              && (d.None? <==> value * u.seconds as real == 0.0)
              && (d.Some? && d.value < U64_MAX ==> Nearest(d.value, ms))
              && (d == Some(U64_MAX) ==> ms >= U64_MAX as real - 0.5)
  {
    if StartsWith(u.word, "millisecond") {
      ThousandthsAreCut(value);
    } else {
      RoundIsNearest(value * u.seconds as real * 1000.0);
    }
  }

  lemma ThousandthsAreCut(value: real)
    requires value >= 0.0
    ensures value <= 1_000_000_000_000.0 ==> -0.0005 <= value - (ToU64(value * 1000.0) / 1000) as real < 1.0
  {
    var n := ToU64(value * 1000.0);
    RoundIsNearest(value * 1000.0);
    assert n == 1000 * (n / 1000) + n % 1000;
    assert n as real == 1000.0 * (n / 1000) as real + (n % 1000) as real;
  }

  /** A whole number of a unit lasts that many of it. */
  lemma WholeDuration(n: nat, u: TimeUnit)
    requires n * u.seconds * 1000 <= U64_MAX && n * 1000 <= U64_MAX
    ensures DurationOf(n as real, u)
            == if StartsWith(u.word, "millisecond") then Some(n)
               else if n * u.seconds == 0 then None else Some(n * u.seconds * 1000)
  {
    if StartsWith(u.word, "millisecond") {
      ThousandTimes(n);
    } else {
      RealProduct(n, u.seconds);
      assert InSeconds(n as real, u) == (n * u.seconds) as real;
      WholeMillis(n * u.seconds);
    }
  }

  lemma WholeMillis(m: nat)
    requires m * 1000 <= U64_MAX
    ensures MillisOf(m as real) == if m == 0 then None else Some(m * 1000)
  {
    ThousandTimes(m);
  }

  lemma ThousandTimes(m: nat)
    requires m * 1000 <= U64_MAX
    ensures ToU64(m as real * 1000.0) == m * 1000
  {
    assert m as real * 1000.0 == (m * 1000) as real;
    RoundOfWhole(m * 1000);
  }

  lemma {:induction false} RealProduct(n: nat, k: nat)
    ensures n as real * k as real == (n * k) as real
  {
    if n > 0 {
      RealProduct(n - 1, k);
      assert n * k == (n - 1) * k + k;
      assert n as real * k as real == (n - 1) as real * k as real + k as real;
    }
  }

  predicate LetteredUnits(units: seq<TimeUnit>) {
    forall k | 0 <= k < |units| :: Lettered(units[k].word)
  }

  lemma TimeUnitsAreLettered()
    ensures LetteredUnits(TIME_UNITS)
  {
    assert forall k, j | 0 <= k < |TIME_UNITS| && 0 <= j < |TIME_UNITS[k].word| :: IsAlpha(TIME_UNITS[k].word[j]);
    assert forall k | 0 <= k < |TIME_UNITS| :: TIME_UNITS[k].word != "";
  }

  /** The unit that stands at `i` is the one taken, whatever shorter words it begins with. */
  lemma {:induction false} StandingUnit(s: string, i: nat, units: seq<TimeUnit>, k: nat)
    requires k < |units| && LetteredUnits(units) && StartsWord(s, i, units[k].word)
    requires forall j | 0 <= j < k :: units[j].word != units[k].word
    ensures LongestUnit(s, i, units, None) == Some(units[k])
    decreases k
  {
    var more := units[1..];
    assert forall j | 0 <= j < |more| :: more[j] == units[j + 1];
    if k == 0 {
      StandingStays(s, i, more, units[0]);
    } else {
      if StartsWord(s, i, units[0].word) { OneWordStands(s, i, units[0].word, units[k].word); }
      StandingUnit(s, i, more, k - 1);
    }
  }

  lemma {:induction false} StandingStays(s: string, i: nat, units: seq<TimeUnit>, best: TimeUnit)
    requires LetteredUnits(units) && Lettered(best.word) && StartsWord(s, i, best.word)
    ensures LongestUnit(s, i, units, Some(best)) == Some(best)
  {
    if units != [] {
      var more := units[1..];
      assert forall j | 0 <= j < |more| :: more[j] == units[j + 1];
      if StartsWord(s, i, units[0].word) { OneWordStands(s, i, units[0].word, best.word); }
      StandingStays(s, i, more, best);
    }
  }

  /** A filler before the number, with the spaces behind it. */
  ghost predicate Filled(s: string, i: nat, p: nat) {
    i == p || exists f | f in FILLERS :: At(s, f, i) && Gap(s, i + |f|, p)
  }

  lemma {:induction false} NoFillerThere(s: string, i: nat, fillers: seq<string>)
    requires i < |s| && (IsDigit(s[i]) || s[i] == '.') && forall f | f in fillers :: f != "" && f[0] in "tn"
    ensures SkipFillers(s, i, fillers) == i
    decreases |fillers|, |s|
  {
    if fillers != [] {
      assert fillers[0] in fillers && forall f | f in fillers[1..] :: f in fillers;
      NotAtOtherLetter(s, fillers[0], i, 0);
      NoFillerThere(s, i, fillers[1..]);
    }
  }

  /** A filler is passed over, with the spaces behind it. */
  lemma FillerIsSkipped(s: string, i: nat, p: nat, fillers: seq<string>)
    requires fillers == FILLERS && Filled(s, i, p) && p < |s| && (IsDigit(s[p]) || s[p] == '.')
    ensures i <= p && SkipFillers(s, i, fillers) == p
  {
    FillersStart(fillers);
    if i == p {
      NoFillerThere(s, p, fillers);
    } else {
      var f :| f in fillers && At(s, f, i) && Gap(s, i + |f|, p);
      GapIsSkipped(s, i + |f|, p);
      FillerAt(s, i, p, fillers, f);
    }
  }

  lemma FillersStart(fillers: seq<string>)
    requires fillers == FILLERS
    ensures |fillers| == 3 && fillers[0] == "the next " && fillers[1] == "next " && fillers[2] == "the "
    ensures forall f | f in fillers :: f != "" && f[0] in "tn"
  {
  }

  lemma FillerAt(s: string, i: nat, p: nat, fillers: seq<string>, f: string)
    requires |fillers| == 3 && fillers[0] == "the next " && fillers[1] == "next " && fillers[2] == "the "
    requires f in fillers && At(s, f, i) && SkipSpaces(s, i + |f|) == p && p < |s| && (IsDigit(s[p]) || s[p] == '.')
    ensures SkipFillers(s, i, fillers) == p
  {
    var rest, last := fillers[1..], fillers[2..];
    assert rest[0] == "next " && rest[1..] == last && last[0] == "the " && last[1..] == [];
    if f == "the next " {
      FillersStepOver(s, i, p, fillers, rest, f);
    } else if f == "next " {
      AtLetter(s, f, i, 0);
      NotAtOtherLetter(s, "the next ", i, 0);
      FillersStepOver(s, i, p, rest, last, f);
    } else {
      AtLetter(s, f, i, 0);
      NotAtOtherLetter(s, "next ", i, 0);
      TheNumber(s, i, p);
      FillersStepOver(s, i, p, last, [], f);
    }
  }

  lemma FillersStepOver(s: string, i: nat, p: nat, fillers: seq<string>, more: seq<string>, f: string)
    requires fillers != [] && fillers[0] == f && fillers[1..] == more && forall g | g in more :: g != "" && g[0] in "tn"
    requires At(s, f, i) && SkipSpaces(s, i + |f|) == p && p < |s| && (IsDigit(s[p]) || s[p] == '.')
    ensures SkipFillers(s, i, fillers) == p
  {
    NoFillerThere(s, p, more);
  }

  /** "the" before a number is not "the next". */
  lemma TheNumber(s: string, i: nat, p: nat)
    requires i + 4 <= p < |s| && SkipSpaces(s, i + 4) == p && (IsDigit(s[p]) || s[p] == '.')
    ensures !At(s, "the next ", i)
  {
    NotAtOtherLetter(s, "the next ", i, 4);
  }

  /** What is written behind a trigger is the duration read: spaces, a filler or none, a number,
      spaces and the unit that stands there. */
  lemma DurationIsWritten(s: string, from: nat, i: nat, p: nat, a: string, b: string, q: nat, k: nat)
    requires Gap(s, from, i) && (i < |s| ==> s[i] != ' ') && Filled(s, i, p) && Spelled(s, p, a, b)
    requires Gap(s, p + Width(a, b), q) && k < |TIME_UNITS| && StartsWord(s, q, TIME_UNITS[k].word)
    requires forall j | 0 <= j < k :: TIME_UNITS[j].word != TIME_UNITS[k].word
    ensures ReadNumber(s, p).Some? && Denotes(ReadNumber(s, p).value.value, a + b, |b|)
    ensures ReadDuration(s, from) == DurationOf(ReadNumber(s, p).value.value, TIME_UNITS[k])
  {
    TimeUnitsAreLettered();
    SpelledFront(s, p, a, b);
    FillerIsSkipped(s, i, p, FILLERS);
    DurationWrittenBy(s, from, i, p, a, b, q, k, FILLERS, TIME_UNITS);
  }

  lemma SpelledFront(s: string, p: nat, a: string, b: string)
    requires Spelled(s, p, a, b)
    ensures p < |s| && (IsDigit(s[p]) || s[p] == '.')
  {
    if b == "" {
      AtLetter(s, a, p, 0);
      assert a[0] in a;
    } else {
      AtLetter(s, a + "." + b, p, 0);
      assert a != "" ==> a[0] in a;
    }
  }

  lemma DurationWrittenBy(s: string, from: nat, i: nat, p: nat, a: string, b: string, q: nat, k: nat,
                          fillers: seq<string>, units: seq<TimeUnit>)
    requires Gap(s, from, i) && (i < |s| ==> s[i] != ' ') && Spelled(s, p, a, b)
    requires SkipFillers(s, i, fillers) == p
    requires Gap(s, p + Width(a, b), q) && k < |units| && LetteredUnits(units) && StartsWord(s, q, units[k].word)
    requires forall j | 0 <= j < k :: units[j].word != units[k].word
    ensures ReadNumber(s, p).Some? && Denotes(ReadNumber(s, p).value.value, a + b, |b|)
    ensures ReadDurationBy(s, from, fillers, units) == DurationOf(ReadNumber(s, p).value.value, units[k])
  {
    SpelledIsRead(s, p, a, b);
    GapIsSkipped(s, from, i);
    AtLetter(s, units[k].word, q, 0);
    GapIsSkipped(s, p + Width(a, b), q);
    StandingUnit(s, q, units, k);
    DurationParts(s, from, i, p, q, ReadNumber(s, p).value, fillers, units, units[k]);
  }

  lemma DurationParts(s: string, from: nat, i: nat, p: nat, q: nat, n: Number,
                      fillers: seq<string>, units: seq<TimeUnit>, u: TimeUnit)
    requires from <= |s| && SkipSpaces(s, from) == i && SkipFillers(s, i, fillers) == p && ReadNumber(s, p) == Some(n)
    requires SkipSpaces(s, n.end) == q && LongestUnit(s, q, units, None) == Some(u)
    ensures ReadDurationBy(s, from, fillers, units) == DurationOf(n.value, u)
  {
  }

  // ── Limits that are not caps ──────────────────────────────────────────────

  /** The occurrence at `k` is one of those met from left to right without overlap. */
  predicate Met(s: string, t: string, k: nat)
    decreases k
  {
    At(s, t, k) && forall j: nat | j < k < j + |t| :: !Met(s, t, j)
  }

  /** One of the nouns lies wholly within the forty characters from `after` on. */
  predicate NounWithin(s: string, after: nat, nouns: seq<string>) {
    exists n | n in nouns :: LiesWithin(s, after, n)
  }

  predicate LiesWithin(s: string, after: nat, n: string) {
    exists j | after <= j <= |s| :: At(s, n, j) && j + |n| <= after + 40
  }

  lemma AtInSlice(s: string, from: nat, end: nat, n: string, j: nat)
    requires from <= j && j + |n| <= end <= |s|
    ensures At(s, n, j) <==> At(s[from..end], n, j - from)
  {
    SliceOfSlice(s, from, end, j - from, j + |n| - from);
  }

  lemma SliceOfSlice(s: string, from: nat, end: nat, i: nat, j: nat)
    requires from + i <= from + j <= end <= |s|
    ensures s[from..end][i..j] == s[from + i..from + j]
  {
    var x, y := s[from..end][i..j], s[from + i..from + j];
    forall k | 0 <= k < |x| ensures x[k] == y[k] { assert x[k] == s[from..end][i + k]; }
  }

  lemma WindowContains(s: string, after: nat, n: string)
    requires after <= |s|
    ensures Contains(Window(s, after), n) <==> LiesWithin(s, after, n)
  {
    var end := if |s| - after <= 40 then |s| else after + 40;
    if Contains(Window(s, after), n) { AtInSlice(s, after, end, n, after + Find(Window(s, after), n).value); }
    if LiesWithin(s, after, n) {
      var j :| after <= j <= |s| && At(s, n, j) && j + |n| <= after + 40;
      AtInSlice(s, after, end, n, j);
      FindIsFirst(Window(s, after), n, j - after);
    }
  }

  lemma WindowHolds(s: string, after: nat, nouns: seq<string>)
    requires after <= |s|
    ensures ContainsAny(Window(s, after), nouns) <==> NounWithin(s, after, nouns)
  {
    forall n | n in nouns ensures Contains(Window(s, after), n) <==> LiesWithin(s, after, n) {
      WindowContains(s, after, n);
    }
  }

  /** A phrase asks exactly when a noun follows one of its occurrences closely. */
  ghost predicate Limits(s: string, t: string, from: nat, nouns: seq<string>) {
    exists k | from <= k <= |s| :: Met(s, t, k) && NounWithin(s, k + |t|, nouns)
  }

  /** No occurrence met before reaches past `from`. */
  ghost predicate CleanFrom(s: string, t: string, from: nat) {
    forall j: nat | j < from < j + |t| :: !Met(s, t, j)
  }

  lemma {:induction false} NounExactly(s: string, t: string, search: nat, nouns: seq<string>)
    requires t != "" && search <= |s| && CleanFrom(s, t, search)
    ensures NounAfter(s, t, search, nouns).Some? <==> Limits(s, t, search, nouns)
    decreases |s| - search
  {
    FindFromIsFirst(s, t, search);
    var found := FindFrom(s, t, search);
    if found.Some? {
      FirstIsMet(s, t, search, found.value);
      NounExactly(s, t, found.value + |t|, nouns);
      NounOnwards(s, t, search, found.value, nouns);
    } else {
      NoneMet(s, t, search, nouns);
    }
  }

  lemma NounOnwards(s: string, t: string, search: nat, at: nat, nouns: seq<string>)
    requires t != "" && search <= at <= |s| && FindFrom(s, t, search) == Some(at) && Met(s, t, at)
    requires forall k | search <= k < at :: !At(s, t, k)
    requires NounAfter(s, t, at + |t|, nouns).Some? <==> Limits(s, t, at + |t|, nouns)
    ensures NounAfter(s, t, search, nouns).Some? <==> Limits(s, t, search, nouns)
  {
    WindowHolds(s, at + |t|, nouns);
    NounStep(s, t, search, at, nouns);
    if !NounWithin(s, at + |t|, nouns) { LimitsFurther(s, t, search, at, nouns); }
  }

  lemma NoneMet(s: string, t: string, search: nat, nouns: seq<string>)
    requires t != "" && search <= |s| && FindFrom(s, t, search).None? && forall k | search <= k :: !At(s, t, k)
    ensures !Limits(s, t, search, nouns) && NounAfter(s, t, search, nouns).None?
  {
  }

  lemma NounStep(s: string, t: string, search: nat, at: nat, nouns: seq<string>)
    requires t != "" && search <= |s| && FindFrom(s, t, search) == Some(at)
    ensures if ContainsAny(Window(s, at + |t|), nouns) then NounAfter(s, t, search, nouns).Some?
            else NounAfter(s, t, search, nouns) == NounAfter(s, t, at + |t|, nouns)
  {
  }

  lemma MetApart(s: string, t: string, a: nat, b: nat)
    requires Met(s, t, a) && a < b < a + |t|
    ensures !Met(s, t, b)
  {
  }

  lemma FirstIsMet(s: string, t: string, search: nat, at: nat)
    requires t != "" && search <= at && CleanFrom(s, t, search) && At(s, t, at)
    requires forall k | search <= k < at :: !At(s, t, k)
    ensures Met(s, t, at) && CleanFrom(s, t, at + |t|)
  {
    forall j: nat | j < at < j + |t| ensures !Met(s, t, j) {
      assert j < search ==> j < search < j + |t| || search == at;
    }
    forall j: nat | j < at + |t| < j + |t| ensures !Met(s, t, j) { MetApart(s, t, at, j); }
  }

  lemma LimitsFurther(s: string, t: string, search: nat, at: nat, nouns: seq<string>)
    requires t != "" && search <= at && Met(s, t, at) && !NounWithin(s, at + |t|, nouns)
    requires forall k | search <= k < at :: !At(s, t, k)
    ensures Limits(s, t, search, nouns) <==> Limits(s, t, at + |t|, nouns)
  {
    if Limits(s, t, search, nouns) {
      var k: nat :| search <= k <= |s| && Met(s, t, k) && NounWithin(s, k + |t|, nouns);
      if at < k < at + |t| { MetApart(s, t, at, k); }
    }
  }

  lemma {:induction false} FirstNounExactly(s: string, triggers: seq<string>, nouns: seq<string>)
    requires forall t | t in triggers :: t != ""
    ensures FirstNoun(s, triggers, nouns).Some? <==> exists t | t in triggers :: Limits(s, t, 0, nouns)
  {
    if triggers != [] {
      assert triggers[0] in triggers && forall t | t in triggers :: t == triggers[0] || t in triggers[1..];
      assert forall t | t in triggers[1..] :: t in triggers;
      NounExactly(s, triggers[0], 0, nouns);
      FirstNounExactly(s, triggers[1..], nouns);
    }
  }

  /** A message is asked about a limit that is not a cap exactly when it holds a limit phrase
      with such a noun within the forty characters behind it, or a word for depth: "at most
      3 agents" asks. */
  lemma LimitsAskExactly(lower: string)
    ensures NonDenomination(lower).Some? <==>
            || (exists t | t in LIMIT_TRIGGERS :: Limits(lower, t, 0, NOUNS))
            || Contains(lower, "depth") || Contains(lower, "levels deep")
  {
    FirstNounExactly(lower, LIMIT_TRIGGERS, NOUNS);
  }
}
