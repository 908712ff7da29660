/** The scanner that finds spend amounts in a lower-cased ASCII message. Numbers are read
    as exact reals. */
module SpendScanner {
  import opened Prelude
  import opened Text

  // ── Reading one number ────────────────────────────────────────────────────

  /** Where the longest decimal number from `i` ends; a dot belongs to it only once, and
      only when a digit follows. */
  function NumberEnd(s: string, i: nat, seenDot: bool): (end: nat)
    requires i <= |s|
    ensures i <= end <= |s|
    ensures forall k | i <= k < end :: IsDigit(s[k]) || s[k] == '.'
    ensures end > i ==> IsDigit(s[end - 1])
    decreases |s| - i
  {
    if i == |s| then i
    else if IsDigit(s[i]) then NumberEnd(s, i + 1, seenDot)
    else if s[i] == '.' && !seenDot && i + 1 < |s| && IsDigit(s[i + 1]) then NumberEnd(s, i + 1, true)
    else i
  }

  function Pow10(n: nat): (r: nat)
    ensures r > 0
  {
    if n == 0 then 1 else 10 * Pow10(n - 1)
  }

  /** The digits of `t` as a number. */
  function Digits(t: string): nat {
    if t == "" then 0
    else
      var c := t[|t| - 1];
      10 * Digits(t[..|t| - 1]) + if IsDigit(c) then DigitValue(c) else 0
  }

  function Reading(t: string): (v: real)
    ensures v >= 0.0
  {
    match CutOnce(t, ".")
    case None => Digits(t) as real
    case Some(c) => Digits(c.before) as real + Digits(c.after) as real / Pow10(|c.after|) as real
  }

  datatype Number = Number(value: real, end: nat)

  function ReadNumber(s: string, start: nat): (r: Option<Number>)
    requires start <= |s|
    ensures r.Some? ==> start < r.value.end <= |s| && r.value.value >= 0.0
  {
    var end := NumberEnd(s, start, false);
    if end == start then None else Some(Number(Reading(s[start..end]), end))
  }

  /** A number can be read exactly at a digit, or at a dot with a digit after it. */
  lemma ReadableExactly(s: string, i: nat)
    requires i <= |s|
    ensures ReadNumber(s, i).Some? <==>
            i < |s| && (IsDigit(s[i]) || (s[i] == '.' && i + 1 < |s| && IsDigit(s[i + 1])))
  {
  }

  method ReadNumberAt(s: string, start: nat) returns (r: Option<Number>)
    requires start <= |s|
    ensures r == ReadNumber(s, start)
  {
    var i, seenDigit, seenDot := start, false, false;
    while i < |s|
      invariant start <= i <= |s|
      invariant NumberEnd(s, i, seenDot) == NumberEnd(s, start, false)
      invariant seenDigit <==> exists k | start <= k < i :: IsDigit(s[k])
      invariant i > start && !IsDigit(s[i - 1]) ==> i < |s| && IsDigit(s[i])
    {
      if IsDigit(s[i]) {
        seenDigit := true;
        i := i + 1;
      } else if s[i] == '.' && !seenDot {
        if i + 1 < |s| && IsDigit(s[i + 1]) {
          seenDot := true;
          i := i + 1;
        } else {
          break;
        }
      } else {
        break;
      }
    }
    if !seenDigit {
      return None;
    }
    r := Some(Number(Reading(s[start..i]), i));
  }

  // ── Tokens around a number ────────────────────────────────────────────────

  function SkipSpaces(s: string, i: nat): (j: nat)
    requires i <= |s|
    ensures i <= j <= |s|
    ensures forall k | i <= k < j :: s[k] == ' '
    ensures j < |s| ==> s[j] != ' '
    decreases |s| - i
  {
    if i < |s| && s[i] == ' ' then SkipSpaces(s, i + 1) else i
  }

  /** A minus sign stands before `i`, spaces aside. */
  predicate PrecedingMinus(s: string, i: nat)
    requires i <= |s|
  {
    i > 0 && (s[i - 1] == '-' || (s[i - 1] == ' ' && PrecedingMinus(s, i - 1)))
  }

  method SkipSpacesFrom(s: string, start: nat) returns (i: nat)
    requires start <= |s|
    ensures i == SkipSpaces(s, start)
  {
    i := start;
    while i < |s| && s[i] == ' '
      invariant start <= i <= |s| && SkipSpaces(s, i) == SkipSpaces(s, start)
    {
      i := i + 1;
    }
  }

  method MinusBefore(s: string, i: nat) returns (minus: bool)
    requires i <= |s|
    ensures minus == PrecedingMinus(s, i)
  {
    var j: nat := i;
    while j > 0 && s[j - 1] == ' '
      invariant j <= i && PrecedingMinus(s, j) == PrecedingMinus(s, i)
    {
      j := j - 1;
    }
    minus := j > 0 && s[j - 1] == '-';
  }

  predicate MidToken(s: string, i: nat)
    requires i <= |s|
  {
    i > 0 && (IsAlphanumeric(s[i - 1]) || s[i - 1] == '-' || s[i - 1] == '.')
  }

  /** `word` starts at `i`; a digit before it is a boundary, a letter is not. */
  predicate StartsWord(s: string, i: nat, word: string) {
    && At(s, word, i)
    && !(0 < i <= |s| && IsAlpha(s[i - 1]))
    && !(i + |word| < |s| && IsAlphanumeric(s[i + |word|]))
  }

  const UNITS := ["dollars", "dollar", "usd", "bucks"]

  /** Length of the first unit that starts at `i`. */
  function UnitAt(s: string, i: nat, units: seq<string>): (r: Option<nat>)
    ensures r.Some? ==> exists u | u in units :: r.value == |u| && StartsWord(s, i, u)
  {
    if units == [] then None
    else if StartsWord(s, i, units[0]) then Some(|units[0]|)
    else UnitAt(s, i, units[1..])
  }

  // ── The scan ──────────────────────────────────────────────────────────────

  datatype Kind = Dollar | Prefix | Unit

  /** An amount written at `at`, shown to the sender as the text of [start, end). */
  datatype Amount = Amount(kind: Kind, at: nat, start: nat, end: nat, value: real)

  function Signed(s: string, kind: Kind, i: nat, end: nat, value: real): Amount
    requires i <= |s|
  {
    if PrecedingMinus(s, i) then Amount(kind, i, i - 1, end, -value) else Amount(kind, i, i, end, value)
  }

  /** `$5`, with an optional minus before it. */
  function DollarAmount(s: string, i: nat): (r: Option<Amount>)
    requires i < |s|
    ensures r.Some? ==> i < r.value.end <= |s| && r.value.at == i && r.value.kind.Dollar?
  {
    match ReadNumber(s, SkipSpaces(s, i + 1))
    case None => None
    case Some(n) => Some(Signed(s, Dollar, i, n.end, n.value))
  }

  /** `usd 5`. */
  function PrefixAmount(s: string, i: nat): (r: Option<Amount>)
    requires i < |s|
    ensures r.Some? ==> i + 3 < r.value.end <= |s| && r.value.at == i && r.value.kind.Prefix?
  {
    if !StartsWord(s, i, "usd") then None else
    match ReadNumber(s, SkipSpaces(s, i + 3))
    case None => None
    case Some(n) => Some(Amount(Prefix, i, i, n.end, n.value))
  }

  /** `5 dollars`: the amount, if a unit follows the number, and where the scan goes on. */
  function NumberAmount(s: string, i: nat, units: seq<string>): (r: (Option<Amount>, nat))
    requires i < |s| && IsDigit(s[i])
    ensures i < r.1 <= |s|
    ensures r.0.Some? ==> r.0.value.end == r.1 && r.0.value.at == i && r.0.value.kind.Unit?
  {
    ReadableExactly(s, i);
    var n := ReadNumber(s, i).value;
    var after := SkipSpaces(s, n.end);
    match UnitAt(s, after, units)
    case None => (None, n.end)
    case Some(len) => (Some(Signed(s, Unit, i, after + len, n.value)), after + len)
  }

  function Found(a: Option<Amount>, i: nat): (Option<Amount>, nat) {
    (a, if a.Some? then a.value.end else i + 1)
  }

  /** What the loop finds at `i`: an amount, or nothing, and where it goes on. */
  function Step(s: string, i: nat): (r: (Option<Amount>, nat))
    requires i < |s|
    ensures i < r.1 <= |s|
  {
    if s[i] == '$' then Found(DollarAmount(s, i), i)
    else if PrefixAmount(s, i).Some? then Found(PrefixAmount(s, i), i)
    else if IsDigit(s[i]) && !MidToken(s, i) then NumberAmount(s, i, UNITS)
    else (None, i + 1)
  }

  function Scan(s: string, i: nat): seq<Amount>
    requires i <= |s|
    decreases |s| - i
  {
    if i == |s| then []
    else
      var (found, next) := Step(s, i);
      (if found.Some? then [found.value] else []) + Scan(s, next)
  }

  lemma ScanUnfolds(s: string, i: nat, found: seq<Amount>)
    requires i < |s|
    ensures var (amount, next) := Step(s, i);
            found + Scan(s, i) == (if amount.Some? then found + [amount.value] else found) + Scan(s, next)
  {
    var (amount, next) := Step(s, i);
    Regroup(found, if amount.Some? then [amount.value] else [], Scan(s, next));
    assert found + [] == found;
  }

  method FindSpendAmounts(lower: string) returns (found: seq<Amount>)
    ensures found == Scan(lower, 0)
  {
    ghost var whole := Scan(lower, 0);
    found := [];
    var i := 0;
    while i < |lower|
      invariant i <= |lower| && found + Scan(lower, i) == whole
    {
      ghost var before := found;
      var amount, next := ScanOne(lower, i);
      ScanUnfolds(lower, i, found);
      if amount.Some? {
        found := found + [amount.value];
      }
      i := next;
    }
  }

  /** One turn of the scanning loop. */
  method ScanOne(lower: string, i: nat) returns (amount: Option<Amount>, next: nat)
    requires i < |lower|
    ensures (amount, next) == Step(lower, i)
  {
    if lower[i] == '$' {
      var after := SkipSpacesFrom(lower, i + 1);
      var number := ReadNumberAt(lower, after);
      if number.Some? {
        amount := SignedAt(lower, Dollar, i, number.value.end, number.value.value);
        return amount, number.value.end;
      }
      return None, i + 1;
    }
    if StartsWord(lower, i, "usd") {
      var after := SkipSpacesFrom(lower, i + 3);
      var number := ReadNumberAt(lower, after);
      if number.Some? {
        return Some(Amount(Prefix, i, i, number.value.end, number.value.value)), number.value.end;
      }
    }
    if IsDigit(lower[i]) && !MidToken(lower, i) {
      amount, next := ScanNumber(lower, i, UNITS);
      return;
    }
    return None, i + 1;
  }

  method ScanNumber(lower: string, i: nat, units: seq<string>) returns (amount: Option<Amount>, next: nat)
    requires i < |lower| && IsDigit(lower[i])
    ensures (amount, next) == NumberAmount(lower, i, units)
  {
    ReadableExactly(lower, i);
    var number := ReadNumberAt(lower, i);
    var after := SkipSpacesFrom(lower, number.value.end);
    var unit := UnitAt(lower, after, units);
    if unit.None? {
      return None, number.value.end;
    }
    amount := SignedAt(lower, Unit, i, after + unit.value, number.value.value);
    next := after + unit.value;
  }

  method SignedAt(lower: string, kind: Kind, i: nat, end: nat, value: real) returns (amount: Option<Amount>)
    requires i <= |lower|
    ensures amount == Some(Signed(lower, kind, i, end, value))
  {
    var negative := MinusBefore(lower, i);
    var start := if negative then i - 1 else i;
    amount := Some(Amount(kind, i, start, end, if negative then -value else value));
  }

  // ── What the scan guarantees ──────────────────────────────────────────────

  /** A `$` that, spaces aside, is followed by a number. */
  predicate DollarAt(s: string, i: nat)
    requires i < |s|
  {
    s[i] == '$' && ReadNumber(s, SkipSpaces(s, i + 1)).Some?
  }

  ghost predicate WellEnded(s: string, i: nat, next: nat)
    requires i < next <= |s|
  {
    IsAlphanumeric(s[next - 1]) && forall k | i < k < next :: s[k] != '$'
  }

  lemma DollarEnds(s: string, i: nat)
    requires i < |s| && DollarAmount(s, i).Some?
    ensures WellEnded(s, i, DollarAmount(s, i).value.end)
  {
  }

  lemma PrefixEnds(s: string, i: nat)
    requires i < |s| && PrefixAmount(s, i).Some?
    ensures WellEnded(s, i, PrefixAmount(s, i).value.end)
  {
    WordIsLetters(s, i, "usd");
  }

  lemma WordIsLetters(s: string, i: nat, u: string)
    requires At(s, u, i) && forall k | 0 <= k < |u| :: IsAlpha(u[k])
    ensures forall k | i <= k < i + |u| :: IsAlpha(s[k])
  {
    forall k | i <= k < i + |u| ensures IsAlpha(s[k]) {
      assert s[k] == s[i..i + |u|][k - i] == u[k - i];
    }
  }

  lemma NumberEnds(s: string, i: nat)
    requires i < |s| && IsDigit(s[i])
    ensures var (found, next) := NumberAmount(s, i, UNITS); WellEnded(s, i, next)
  {
    UnitsAreLetters();
    NumberEndsBy(s, i, UNITS);
  }

  lemma NumberEndsBy(s: string, i: nat, units: seq<string>)
    requires i < |s| && IsDigit(s[i])
    requires forall u | u in units :: u != "" && forall k | 0 <= k < |u| :: IsAlpha(u[k])
    ensures var (found, next) := NumberAmount(s, i, units); WellEnded(s, i, next)
  {
    ReadableExactly(s, i);
    var end := ReadNumber(s, i).value.end;
    var after := SkipSpaces(s, end);
    if UnitAt(s, after, units).Some? {
      var u :| u in units && UnitAt(s, after, units).value == |u| && StartsWord(s, after, u);
      WordIsLetters(s, after, u);
    }
  }

  /** What a step covers ends in a digit or a letter and hides no further `$`. */
  lemma StepEnds(s: string, i: nat)
    requires i < |s|
    ensures var (found, next) := Step(s, i);
            && (found.Some? ==> found.value.end == next && found.value.at == i)
            && (found.Some? && found.value.kind.Dollar? <==> DollarAt(s, i))
            && (next == i + 1 || WellEnded(s, i, next))
            && (found.Some? ==> WellEnded(s, i, next))
  {
    if s[i] == '$' {
      if DollarAmount(s, i).Some? { DollarEnds(s, i); }
    } else if PrefixAmount(s, i).Some? {
      PrefixEnds(s, i);
    } else if IsDigit(s[i]) {
      NumberEnds(s, i);
    }
  }

  lemma UnitsAreLetters()
    ensures forall u | u in UNITS :: u != "" && forall k | 0 <= k < |u| :: IsAlpha(u[k])
  {
  }

  /** Amounts lie between `base` and the end of the text, apart and from left to right. */
  ghost predicate Apart(found: seq<Amount>, base: nat, end: nat) {
    && (forall k | 0 <= k < |found| :: base <= found[k].start < found[k].end <= end)
    && (forall j, k | 0 <= j < k < |found| :: found[j].end <= found[k].start)
  }

  lemma ApartCons(a: Amount, more: seq<Amount>, base: nat, end: nat)
    requires base <= a.start < a.end <= end && Apart(more, a.end, end)
    ensures Apart([a] + more, base, end)
  {
    var all := [a] + more;
    forall j, k | 0 <= j < k < |all| ensures all[j].end <= all[k].start {
      assert all[k] == more[k - 1];
    }
  }

  /** Amounts lie in the text, apart from each other and from left to right. */
  lemma {:induction false} SpansAreDisjoint(s: string, i: nat, base: nat)
    requires base <= i <= |s|
    requires i == base > 0 ==> IsAlphanumeric(s[base - 1])
    ensures Apart(Scan(s, i), base, |s|)
    decreases |s| - i
  {
    if i < |s| {
      StepEnds(s, i);
      var (found, next) := Step(s, i);
      ScanOnce(s, i);
      if found.Some? {
        SpansAreDisjoint(s, next, next);
        StepStarts(s, i);
        ApartCons(found.value, Scan(s, next), base, |s|);
      } else {
        SpansAreDisjoint(s, next, base);
      }
    }
  }

  lemma ScanOnce(s: string, i: nat)
    requires i < |s|
    ensures var (found, next) := Step(s, i);
            Scan(s, i) == if found.Some? then [found.value] + Scan(s, next) else Scan(s, next)
  {
  }

  lemma StepStarts(s: string, i: nat)
    requires i < |s| && Step(s, i).0.Some?
    ensures var a := Step(s, i).0.value;
            && a.start < a.end && i - 1 <= a.start <= i
            && (i > 0 && IsAlphanumeric(s[i - 1]) ==> a.start == i)
  {
    StepEnds(s, i);
    StepSpan(s, i);
  }

  lemma StepSpan(s: string, i: nat)
    requires i < |s| && Step(s, i).0.Some?
    ensures var a := Step(s, i).0.value;
            a.start == if PrecedingMinus(s, i) && !a.kind.Prefix? then i - 1 else i
  {
    if s[i] == '$' {
      assert Step(s, i).0 == DollarAmount(s, i);
    } else if PrefixAmount(s, i).Some? {
      assert Step(s, i).0 == PrefixAmount(s, i);
    } else {
      assert Step(s, i) == NumberAmount(s, i, UNITS);
    }
  }

  /** All such positions from `i` on. */
  function DollarsFrom(s: string, i: nat): seq<nat>
    requires i <= |s|
    decreases |s| - i
  {
    if i == |s| then []
    else (if DollarAt(s, i) then [i] else []) + DollarsFrom(s, i + 1)
  }

  function DollarPositions(found: seq<Amount>): seq<nat> {
    if found == [] then []
    else (if found[0].kind.Dollar? then [found[0].at] else []) + DollarPositions(found[1..])
  }

  lemma {:induction false} NoDollarsBetween(s: string, i: nat, j: nat)
    requires i <= j <= |s| && forall k | i <= k < j :: s[k] != '$'
    ensures DollarsFrom(s, i) == DollarsFrom(s, j)
    decreases j - i
  {
    if i < j { NoDollarsBetween(s, i + 1, j); }
  }

  /** Every `$` amount of the text is reported, once, in order, and nothing else is
      reported as one. */
  lemma {:induction false} DollarsAreReportedOnce(s: string, i: nat)
    requires i <= |s|
    ensures DollarPositions(Scan(s, i)) == DollarsFrom(s, i)
    decreases |s| - i
  {
    if i < |s| {
      StepEnds(s, i);
      var (found, next) := Step(s, i);
      DollarsAreReportedOnce(s, next);
      NoDollarsBetween(s, i + 1, next);
      PositionsCons(found, Scan(s, next));
    }
  }

  lemma PositionsCons(found: Option<Amount>, rest: seq<Amount>)
    ensures DollarPositions((if found.Some? then [found.value] else []) + rest)
            == (if found.Some? && found.value.kind.Dollar? then [found.value.at] else []) + DollarPositions(rest)
  {
    if found.Some? {
      assert ([found.value] + rest)[1..] == rest;
    } else {
      assert [] + rest == rest;
    }
  }

  /** A minus before a `$` amount or an amount with a unit is never lost: such an amount
      is not positive, and only such an amount is negative. */
  lemma {:induction false} MinusIsNeverLost(s: string, i: nat, a: Amount)
    requires i <= |s| && a in Scan(s, i)
    ensures i <= a.at < |s|
    ensures !a.kind.Prefix? && PrecedingMinus(s, a.at) ==> a.value <= 0.0
    ensures a.value < 0.0 ==> !a.kind.Prefix? && PrecedingMinus(s, a.at)
    decreases |s| - i
  {
    var (found, next) := Step(s, i);
    StepEnds(s, i);
    if found != Some(a) { MinusIsNeverLost(s, next, a); }
  }

  lemma {:induction false} AtLeastTheDollars(found: seq<Amount>)
    ensures |found| >= |DollarPositions(found)|
  {
    if found != [] { AtLeastTheDollars(found[1..]); }
  }
}
