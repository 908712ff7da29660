/** Which amounts a message holds, from what is written in it. */
module Amounts {
  import opened Prelude
  import opened Text
  import opened SpendScanner
  import opened Numbers

  // ── Spaces, minus signs and words ─────────────────────────────────────────

  /** Nothing but spaces lie between the two offsets. */
  predicate Gap(s: string, i: nat, j: nat) {
    i <= j <= |s| && forall k | i <= k < j :: s[k] == ' '
  }

  /** A gap is skipped up to the first character behind it. */
  lemma {:induction false} GapIsSkipped(s: string, i: nat, j: nat)
    requires Gap(s, i, j) && (j == |s| || s[j] != ' ')
    ensures SkipSpaces(s, i) == j
    decreases j - i
  {
    if i < j { GapIsSkipped(s, i + 1, j); }
  }

  lemma SkippedIsGap(s: string, i: nat)
    requires i <= |s|
    ensures Gap(s, i, SkipSpaces(s, i))
  {
  }

  predicate DashBefore(s: string, j: nat, i: nat) {
    j < |s| && s[j] == '-' && Gap(s, j + 1, i)
  }

  /** A minus before an amount counts exactly when only spaces lie between. */
  lemma {:induction false} MinusExactly(s: string, i: nat)
    requires i <= |s|
    ensures PrecedingMinus(s, i) <==> exists j: nat | j < i :: DashBefore(s, j, i)
  {
    if i > 0 && s[i - 1] == '-' {
      assert DashBefore(s, i - 1, i);
    } else if i > 0 && s[i - 1] == ' ' {
      MinusExactly(s, i - 1);
      var k: nat := i - 1;
      if PrecedingMinus(s, k) {
        var j: nat :| j < k && DashBefore(s, j, k);
        assert DashBefore(s, j, i);
      }
      if j: nat :| j < i && DashBefore(s, j, i) { assert DashBefore(s, j, k); }
    }
  }

  /** A word stands in a text unless a letter comes directly before or a letter or digit
      directly after it; a digit may come before. */
  lemma WordInText(x: string, w: string, y: string)
    ensures StartsWord(x + w + y, |x|, w) <==>
            (x != "" ==> !IsAlpha(x[|x| - 1])) && (y != "" ==> !IsAlphanumeric(y[0]))
  {
    var s := x + w + y;
    assert s[|x|..|x| + |w|] == w;
    if x != "" { assert s[|x| - 1] == x[|x| - 1]; }
    if y != "" { assert s[|x| + |w|] == y[0]; }
  }

  predicate Lettered(w: string) {
    w != "" && forall k | 0 <= k < |w| :: IsAlpha(w[k])
  }

  /** Two words made of letters cannot stand at the same place. */
  lemma OneWordStands(s: string, i: nat, u: string, v: string)
    requires Lettered(u) && Lettered(v) && StartsWord(s, i, u) && StartsWord(s, i, v)
    ensures u == v
  {
    if |u| < |v| {
      LongerWordBlocks(s, i, u, v);
    } else if |v| < |u| {
      LongerWordBlocks(s, i, v, u);
    } else {
      assert u == s[i..i + |u|] == v;
    }
  }

  lemma LongerWordBlocks(s: string, i: nat, u: string, v: string)
    requires Lettered(v) && At(s, v, i) && |u| < |v|
    ensures !StartsWord(s, i, u)
  {
    assert s[i + |u|] == s[i..i + |v|][|u|] == v[|u|];
  }

  lemma {:induction false} UnitIsFound(s: string, i: nat, units: seq<string>, u: string)
    requires (forall v | v in units :: Lettered(v)) && u in units && StartsWord(s, i, u)
    ensures UnitAt(s, i, units) == Some(|u|)
  {
    assert units[0] in units && forall v | v in units[1..] :: v in units;
    if StartsWord(s, i, units[0]) {
      OneWordStands(s, i, u, units[0]);
    } else {
      UnitIsFound(s, i, units[1..], u);
    }
  }

  lemma UnitsAreLettered()
    ensures forall u | u in UNITS :: Lettered(u)
  {
    UnitsAreLetters();
  }

  // ── The three ways to write an amount ─────────────────────────────────────

  /** Directly before a number these make it part of a larger token, as in "claude-3". */
  predicate Joins(c: char) {
    'a' <= c <= 'z' || 'A' <= c <= 'Z' || '0' <= c <= '9' || c == '-' || c == '.'
  }

  /** A number that is part of a larger token is no amount. */
  lemma JoinedIsNoAmount(s: string, i: nat)
    requires 0 < i < |s| && IsDigit(s[i]) && Joins(s[i - 1])
    ensures Step(s, i) == (None, i + 1)
  {
    NotAtOtherLetter(s, "usd", i, 0);
  }

  lemma AloneIsLookedAt(s: string, i: nat)
    requires i < |s| && IsDigit(s[i]) && (0 < i ==> !Joins(s[i - 1]))
    ensures Step(s, i) == NumberAmount(s, i, UNITS)
  {
    NotAtOtherLetter(s, "usd", i, 0);
  }

  /** What is written at `i`: the digits `a` and `b` of a number at `p`, the whole ending at
      `end`. */
  ghost predicate AmountAt(s: string, kind: Kind, i: nat, p: nat, a: string, b: string, end: nat) {
    && i <= p && Spelled(s, p, a, b)
    && match kind
       case Dollar => i < |s| && s[i] == '$' && Gap(s, i + 1, p) && end == p + Width(a, b)
       case Prefix => StartsWord(s, i, "usd") && Gap(s, i + 3, p) && end == p + Width(a, b)
       case Unit =>
         && i == p && a != "" && (0 < i <= |s| ==> !Joins(s[i - 1]))
         && exists u, q: nat | u in UNITS :: Gap(s, p + Width(a, b), q) && StartsWord(s, q, u) && end == q + |u|
  }

  /** The amount has the digits that are written, and the sign: a prefixed one has none. */
  ghost predicate Tells(s: string, m: Amount, kind: Kind, i: nat, a: string, b: string, end: nat)
    requires i <= |s|
  {
    var minus := !kind.Prefix? && PrecedingMinus(s, i);
    && m.kind == kind && m.at == i && m.start == (if minus then i - 1 else i) && m.end == end
    && Denotes(if minus then -m.value else m.value, a + b, |b|)
  }

  lemma SpelledBounds(s: string, p: nat, a: string, b: string)
    requires Spelled(s, p, a, b)
    ensures p < p + Width(a, b) <= |s| && s[p] != ' ' && s[p] != '$' && s[p] != 'u'
    ensures a != "" ==> IsDigit(s[p])
  {
    if b == "" {
      AtLetter(s, a, p, 0);
      assert a[0] in a;
    } else {
      AtLetter(s, a + "." + b, p, 0);
      assert a != "" ==> a[0] in a;
    }
  }

  lemma SignedTells(s: string, kind: Kind, i: nat, a: string, b: string, end: nat, v: real)
    requires i <= |s| && !kind.Prefix? && Denotes(v, a + b, |b|)
    ensures Tells(s, Signed(s, kind, i, end, v), kind, i, a, b, end)
  {
  }

  lemma DollarStep(s: string, i: nat, p: nat, n: Number)
    requires i < |s| && s[i] == '$' && SkipSpaces(s, i + 1) == p && ReadNumber(s, p) == Some(n)
    ensures Step(s, i) == (Some(Signed(s, Dollar, i, n.end, n.value)), n.end)
  {
  }

  /** `$`, spaces and a number are read as that amount of dollars. */
  lemma DollarIsRead(s: string, i: nat, p: nat, a: string, b: string)
    requires AmountAt(s, Dollar, i, p, a, b, p + Width(a, b))
    ensures Step(s, i).0.Some? && Step(s, i).1 == p + Width(a, b)
    ensures Tells(s, Step(s, i).0.value, Dollar, i, a, b, p + Width(a, b))
  {
    SpelledBounds(s, p, a, b);
    GapIsSkipped(s, i + 1, p);
    SpelledIsRead(s, p, a, b);
    var n := ReadNumber(s, p).value;
    DollarStep(s, i, p, n);
    SignedTells(s, Dollar, i, a, b, n.end, n.value);
  }

  /** So are `usd`, spaces and a number. */
  lemma PrefixIsRead(s: string, i: nat, p: nat, a: string, b: string)
    requires AmountAt(s, Prefix, i, p, a, b, p + Width(a, b))
    ensures Step(s, i).0.Some? && Step(s, i).1 == p + Width(a, b)
    ensures Tells(s, Step(s, i).0.value, Prefix, i, a, b, p + Width(a, b))
  {
    SpelledBounds(s, p, a, b);
    GapIsSkipped(s, i + 3, p);
    SpelledIsRead(s, p, a, b);
    AtLetter(s, "usd", i, 0);
  }

  lemma UnitStep(s: string, i: nat, n: Number, q: nat, units: seq<string>, length: nat)
    requires i < |s| && IsDigit(s[i]) && ReadNumber(s, i) == Some(n) && SkipSpaces(s, n.end) == q
    requires UnitAt(s, q, units) == Some(length)
    ensures NumberAmount(s, i, units) == (Some(Signed(s, Unit, i, q + length, n.value)), q + length)
  {
    ReadableExactly(s, i);
  }

  /** And a number that stands alone, spaces and a unit. */
  lemma UnitIsRead(s: string, i: nat, a: string, b: string, end: nat)
    requires AmountAt(s, Unit, i, i, a, b, end)
    ensures i < |s| && Step(s, i).0.Some? && Step(s, i).1 == end
    ensures Tells(s, Step(s, i).0.value, Unit, i, a, b, end)
  {
    SpelledBounds(s, i, a, b);
    var u, q: nat :| u in UNITS && Gap(s, i + Width(a, b), q) && StartsWord(s, q, u) && end == q + |u|;
    UnitsAreLettered();
    UnitIsReadBy(s, i, a, b, UNITS, u, q);
    AloneIsLookedAt(s, i);
  }

  lemma UnitIsReadBy(s: string, i: nat, a: string, b: string, units: seq<string>, u: string, q: nat)
    requires Spelled(s, i, a, b) && i < |s| && IsDigit(s[i])
    requires (forall v | v in units :: Lettered(v)) && u in units
    requires Gap(s, i + Width(a, b), q) && StartsWord(s, q, u)
    ensures var (found, next) := NumberAmount(s, i, units);
            found.Some? && next == q + |u| && Tells(s, found.value, Unit, i, a, b, q + |u|)
  {
    SpelledIsRead(s, i, a, b);
    var n := ReadNumber(s, i).value;
    UnitBehind(s, n.end, units, u, q);
    UnitStep(s, i, n, q, units, |u|);
    SignedTells(s, Unit, i, a, b, q + |u|, n.value);
  }

  lemma UnitBehind(s: string, from: nat, units: seq<string>, u: string, q: nat)
    requires (forall v | v in units :: Lettered(v)) && u in units
    requires Gap(s, from, q) && StartsWord(s, q, u)
    ensures SkipSpaces(s, from) == q && UnitAt(s, q, units) == Some(|u|)
  {
    AtLetter(s, u, q, 0);
    GapIsSkipped(s, from, q);
    UnitIsFound(s, q, units, u);
  }

  // ── Every amount found is written so ──────────────────────────────────────

  /** An amount of the scan is what the loop finds where it stands. */
  lemma {:induction false} AmountIsStep(s: string, i: nat, m: Amount)
    requires i <= |s| && m in Scan(s, i)
    ensures i <= m.at < |s| && Step(s, m.at) == (Some(m), m.end)
    decreases |s| - i
  {
    var (found, next) := Step(s, i);
    StepEnds(s, i);
    if found != Some(m) {
      AmountIsStep(s, next, m);
    }
  }

  /** Every amount of a message has the digits written there after `$` or `usd`, or before a
      unit. */
  lemma AmountIsWritten(s: string, m: Amount) returns (p: nat, a: string, b: string)
    requires m in Scan(s, 0)
    ensures m.at <= p && m.at < |s| && AmountAt(s, m.kind, m.at, p, a, b, m.end)
    ensures Tells(s, m, m.kind, m.at, a, b, m.end)
  {
    AmountIsStep(s, 0, m);
    match m.kind {
      case Dollar => p, a, b := DollarIsWritten(s, m.at, m);
      case Prefix => p, a, b := PrefixIsWritten(s, m.at, m);
      case Unit =>
        p := m.at;
        a, b := UnitIsWritten(s, m.at, m);
    }
  }

  lemma DollarIsWritten(s: string, i: nat, m: Amount) returns (p: nat, a: string, b: string)
    requires i < |s| && Step(s, i) == (Some(m), m.end) && m.kind.Dollar?
    ensures i <= p && AmountAt(s, Dollar, i, p, a, b, m.end) && Tells(s, m, Dollar, i, a, b, m.end)
  {
    p := SkipSpaces(s, i + 1);
    assert s[i] == '$' && ReadNumber(s, p).Some?;
    a, b := SpelledThere(s, i + 1, p);
    var n := ReadNumber(s, p).value;
    DollarStep(s, i, p, n);
    SignedTells(s, Dollar, i, a, b, n.end, n.value);
  }

  lemma PrefixIsWritten(s: string, i: nat, m: Amount) returns (p: nat, a: string, b: string)
    requires i < |s| && Step(s, i) == (Some(m), m.end) && m.kind.Prefix?
    ensures i <= p && AmountAt(s, Prefix, i, p, a, b, m.end) && Tells(s, m, Prefix, i, a, b, m.end)
  {
    assert StartsWord(s, i, "usd") && PrefixAmount(s, i) == Some(m);
    p := SkipSpaces(s, i + 3);
    a, b := SpelledThere(s, i + 3, p);
  }

  lemma UnitIsWritten(s: string, i: nat, m: Amount) returns (a: string, b: string)
    requires i < |s| && Step(s, i) == (Some(m), m.end) && m.kind.Unit?
    ensures AmountAt(s, Unit, i, i, a, b, m.end) && Tells(s, m, Unit, i, a, b, m.end)
  {
    UnitIsNumber(s, i, m);
    var u, q, n := UnitParts(s, i, UNITS, m);
    a, b := SpelledThere(s, i, i);
    SignedTells(s, Unit, i, a, b, m.end, n.value);
    SpelledStart(s, i, a, b);
    NumberWithUnit(s, i, a, b, u, q);
  }

  lemma NumberWithUnit(s: string, i: nat, a: string, b: string, u: string, q: nat)
    requires i <= |s| && Spelled(s, i, a, b) && a != "" && !MidToken(s, i)
    requires Gap(s, i + Width(a, b), q) && u in UNITS && StartsWord(s, q, u)
    ensures AmountAt(s, Unit, i, i, a, b, q + |u|)
  {
  }

  lemma UnitIsNumber(s: string, i: nat, m: Amount)
    requires i < |s| && Step(s, i) == (Some(m), m.end) && m.kind.Unit?
    ensures IsDigit(s[i]) && !MidToken(s, i) && SkipSpaces(s, i) == i
    ensures NumberAmount(s, i, UNITS) == (Some(m), m.end)
  {
  }

  lemma UnitParts(s: string, i: nat, units: seq<string>, m: Amount) returns (u: string, q: nat, n: Number)
    requires i < |s| && IsDigit(s[i]) && NumberAmount(s, i, units) == (Some(m), m.end)
    ensures ReadNumber(s, i) == Some(n) && Gap(s, n.end, q) && u in units && StartsWord(s, q, u)
    ensures m == Signed(s, Unit, i, q + |u|, n.value) && m.end == q + |u|
  {
    ReadableExactly(s, i);
    n := ReadNumber(s, i).value;
    q := SkipSpaces(s, n.end);
    SkippedIsGap(s, n.end);
    u :| u in units && UnitAt(s, q, units).value == |u| && StartsWord(s, q, u);
    UnitStep(s, i, n, q, units, |u|);
  }

  /** The number read behind a gap, digit by digit. */
  lemma SpelledThere(s: string, from: nat, p: nat) returns (a: string, b: string)
    requires from <= |s| && SkipSpaces(s, from) == p && ReadNumber(s, p).Some?
    ensures Gap(s, from, p) && Spelled(s, p, a, b)
    ensures ReadNumber(s, p).value.end == p + Width(a, b) && Denotes(ReadNumber(s, p).value.value, a + b, |b|)
  {
    SkippedIsGap(s, from);
    a, b := NumberIsSpelled(s, p);
    SpelledIsRead(s, p, a, b);
  }

  /** A number that starts with a digit has digits before the dot. */
  lemma SpelledStart(s: string, p: nat, a: string, b: string)
    requires Spelled(s, p, a, b) && p < |s| && IsDigit(s[p])
    ensures a != ""
  {
    if b != "" { AtLetter(s, a + "." + b, p, 0); }
  }

  // ── Stretches without an amount ───────────────────────────────────────────

  /** No amount begins here. */
  predicate Quiet(s: string, k: nat) {
    k < |s| && s[k] != '$' && !IsDigit(s[k]) && !(k + 1 < |s| && s[k] == 'u' && s[k + 1] == 's')
  }

  lemma QuietStep(s: string, k: nat)
    requires Quiet(s, k)
    ensures Step(s, k) == (None, k + 1)
  {
    if s[k] != 'u' {
      NotAtOtherLetter(s, "usd", k, 0);
    } else if k + 1 < |s| {
      NotAtOtherLetter(s, "usd", k, 1);
    }
  }

  lemma QuietScan(s: string, k: nat)
    requires Quiet(s, k)
    ensures Scan(s, k) == Scan(s, k + 1)
  {
    QuietStep(s, k);
    ScanOnce(s, k);
  }

  lemma {:induction false} QuietStretch(s: string, i: nat, j: nat)
    requires i <= j <= |s| && forall k | i <= k < j :: Quiet(s, k)
    ensures Scan(s, i) == Scan(s, j)
    decreases j - i
  {
    if i < j {
      QuietScan(s, i);
      QuietStretch(s, i + 1, j);
    }
  }

  /** A text with one amount and nothing else that looks like one. */
  lemma OnlyAmount(s: string, i: nat, m: Amount)
    requires i < m.end <= |s| && Step(s, i) == (Some(m), m.end)
    requires forall k | 0 <= k < i || m.end <= k < |s| :: Quiet(s, k)
    ensures Scan(s, 0) == [m]
  {
    QuietStretch(s, 0, i);
    QuietStretch(s, m.end, |s|);
    OneAmount(s, i, m.end, m);
  }

  lemma OneAmount(s: string, i: nat, next: nat, a: Amount)
    requires i < |s| && Step(s, i) == (Some(a), next) && next <= |s| && Scan(s, next) == []
    ensures Scan(s, i) == [a]
  {
    ScanOnce(s, i);
  }

  /** Nothing that can be read is overlooked: an amount at `i` is reported, unless what was
      read before it reaches past `i`. */
  lemma {:induction false} NothingIsOverlooked(s: string, k: nat, i: nat)
    requires k <= i < |s| && Step(s, i).0.Some?
    ensures (exists m | m in Scan(s, k) :: m.at == i) || exists j | k <= j < i :: Step(s, j).1 > i
    decreases i - k
  {
    ScanOnce(s, k);
    StepEnds(s, k);
    var (found, next) := Step(s, k);
    if k == i {
      assert found.value in Scan(s, k);
    } else if next <= i {
      NothingIsOverlooked(s, next, i);
    }
  }
}
