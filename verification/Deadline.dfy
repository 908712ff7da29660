/** Reading a deadline out of a message: which wall time it names, and when that is. */
module Deadline {
  import opened Prelude
  import opened Text
  import opened TimeZone
  import SpendScanner

  datatype Question =
    | NoCapFound
    | Ambiguous(fragment: string, readings: seq<string>)
    | NotADenomination(fragment: string)
    | UnusableSpend(fragment: string)

  datatype DayPart = DayPart(name: string, hour: nat, minute: nat)

  const DAY_PARTS := [
    DayPart("tonight", 23, 59), DayPart("this evening", 23, 59), DayPart("end of day", 23, 59),
    DayPart("eod", 23, 59), DayPart("midnight", 23, 59), DayPart("morning", 9, 0),
    DayPart("noon", 12, 0), DayPart("midday", 12, 0), DayPart("afternoon", 17, 0),
    DayPart("evening", 23, 59)]

  const WEEKDAYS := ["monday", "tuesday", "wednesday", "thursday", "friday", "saturday", "sunday"]

  const TRIGGERS := ["by ", "before ", "due ", "deadline ", "done by "]

  /** How a deadline was named. */
  datatype Form = Tomorrow | Today | Weekday(index: nat) | PartOfDay | Clock

  /** A wall time: a day counted from the epoch, an hour and a minute. */
  datatype Wall = Wall(form: Form, day: int, hour: nat, minute: nat) {
    predicate Valid() {
      hour < 24 && minute < 60
    }

    function OfDay(): int {
      60 * hour + minute
    }

    function At(): int {
      day * DAY + OfDay() * MINUTE
    }
  }

  /** The local clock, down to the minute. */
  datatype Now = Now(day: int, hour: nat, minute: nat)

  function LocalNow(z: Zone, now: int): (r: Now)
    ensures r.hour < 24 && r.minute < 60
  {
    var local := Local(z, now);
    var m := (local % DAY) / MINUTE;
    Now(local / DAY, m / 60, m % 60)
  }

  /** Day 0 of the epoch was a Thursday; Monday counts as 0. */
  function WeekdayOf(day: int): nat {
    (day + 3) % 7
  }

  // ── Words ─────────────────────────────────────────────────────────────────

  /** Past `trigger`, at its first occurrence from `search` on that no letter or digit
      precedes. */
  function FindTrigger(s: string, trigger: string, search: nat): (r: Option<nat>)
    requires trigger != "" && search <= |s|
    ensures r.Some? ==> r.value <= |s|
    decreases |s| - search
  {
    var found := FindFrom(s, trigger, search);
    if found.None? then None
    else if StandsFree(s, found.value) then Some(found.value + |trigger|)
    else FindTrigger(s, trigger, found.value + |trigger|)
  }

  predicate StandsFree(s: string, at: nat)
    requires at <= |s|
  {
    at == 0 || !IsAlphanumeric(s[at - 1])
  }

  /** `trigger` occurs at `k` with no letter or digit before it. */
  predicate FreeAt(s: string, trigger: string, k: nat) {
    At(s, trigger, k) && StandsFree(s, k)
  }

  /** `r` is the end of the first free occurrence at or after `from`, if there is one. */
  ghost predicate EndsFirstFree(s: string, trigger: string, from: nat, r: Option<nat>) {
    match r
    case None => forall k: nat | from <= k :: !FreeAt(s, trigger, k)
    case Some(end) =>
      && from + |trigger| <= end && FreeAt(s, trigger, end - |trigger|)
      && forall k: nat | from <= k < end - |trigger| :: !FreeAt(s, trigger, k)
  }

  /** The search may skip occurrences that overlap one it rejects; for a trigger that cannot
      overlap itself it finds the first free one. */
  lemma {:induction false} TriggerIsFirstFree(s: string, trigger: string, search: nat)
    requires trigger != "" && search <= |s| && NoEcho(trigger)
    ensures EndsFirstFree(s, trigger, search, FindTrigger(s, trigger, search))
    decreases |s| - search
  {
    var found := FindFrom(s, trigger, search);
    if found.Some? && !StandsFree(s, found.value) {
      TriggerIsFirstFree(s, trigger, found.value + |trigger|);
      RejectedStep(s, trigger, search, found.value);
    } else {
      FoundStep(s, trigger, search);
    }
  }

  lemma RejectedStep(s: string, trigger: string, search: nat, at: nat)
    requires trigger != "" && search <= |s| && NoEcho(trigger)
    requires FindFrom(s, trigger, search) == Some(at) && !StandsFree(s, at)
    requires EndsFirstFree(s, trigger, at + |trigger|, FindTrigger(s, trigger, at + |trigger|))
    ensures EndsFirstFree(s, trigger, search, FindTrigger(s, trigger, search))
  {
    var r := FindTrigger(s, trigger, at + |trigger|);
    assert FindTrigger(s, trigger, search) == r by { FindTriggerStep(s, trigger, search); }
    RejectedFirst(s, trigger, search, at, r);
  }

  lemma FoundStep(s: string, trigger: string, search: nat)
    requires trigger != "" && search <= |s|
    requires var found := FindFrom(s, trigger, search); found.Some? ==> StandsFree(s, found.value)
    ensures EndsFirstFree(s, trigger, search, FindTrigger(s, trigger, search))
  {
    FoundFirst(s, trigger, search);
    FindTriggerStep(s, trigger, search);
  }

  lemma FoundFirst(s: string, trigger: string, search: nat)
    requires search <= |s|
    requires var found := FindFrom(s, trigger, search); found.Some? ==> StandsFree(s, found.value)
    ensures var found := FindFrom(s, trigger, search);
            EndsFirstFree(s, trigger, search, if found.None? then None else Some(found.value + |trigger|))
  {
    FindFromIsFirst(s, trigger, search);
    var found := FindFrom(s, trigger, search);
    if found.Some? { FirstFreeHere(s, trigger, search, found.value); }
  }

  lemma RejectedFirst(s: string, trigger: string, search: nat, at: nat, r: Option<nat>)
    requires search <= |s| && NoEcho(trigger) && FindFrom(s, trigger, search) == Some(at) && !StandsFree(s, at)
    requires EndsFirstFree(s, trigger, at + |trigger|, r)
    ensures EndsFirstFree(s, trigger, search, r)
  {
    FindFromIsFirst(s, trigger, search);
    NoneFreeBetween(s, trigger, search, at);
    FirstFreeFromBefore(s, trigger, search, at + |trigger|, r);
  }

  lemma FirstFreeHere(s: string, trigger: string, search: nat, at: nat)
    requires search <= at && FreeAt(s, trigger, at)
    requires forall k | search <= k < at :: !At(s, trigger, k)
    ensures EndsFirstFree(s, trigger, search, Some(at + |trigger|))
  {
  }

  lemma FirstFreeFromBefore(s: string, trigger: string, from: nat, next: nat, r: Option<nat>)
    requires from <= next && EndsFirstFree(s, trigger, next, r)
    requires forall k: nat | from <= k < next :: !FreeAt(s, trigger, k)
    ensures EndsFirstFree(s, trigger, from, r)
  {
  }

  lemma NoneFreeBetween(s: string, trigger: string, search: nat, at: nat)
    requires NoEcho(trigger) && At(s, trigger, at) && !StandsFree(s, at) && search <= at
    requires forall k | search <= k < at :: !At(s, trigger, k)
    ensures forall k: nat | search <= k < at + |trigger| :: !FreeAt(s, trigger, k)
  {
    forall k: nat | search <= k < at + |trigger| ensures !FreeAt(s, trigger, k) {
      if at < k && At(s, trigger, k) { NoOverlap(s, trigger, at, k); }
    }
  }

  lemma FindTriggerStep(s: string, trigger: string, search: nat)
    requires trigger != "" && search <= |s|
    ensures var found := FindFrom(s, trigger, search);
            FindTrigger(s, trigger, search) ==
            if found.None? then None
            else if StandsFree(s, found.value) then Some(found.value + |trigger|)
            else FindTrigger(s, trigger, found.value + |trigger|)
  {
  }

  /** The end of the first occurrence of `trigger` on a word boundary. */
  method FindTriggerFrom(s: string, trigger: string) returns (r: Option<nat>)
    requires trigger != ""
    ensures r == FindTrigger(s, trigger, 0)
  {
    ghost var whole := FindTrigger(s, trigger, 0);
    var search := 0;
    while true
      invariant search <= |s| && FindTrigger(s, trigger, search) == whole
      decreases |s| - search
    {
      var found := FindFrom(s, trigger, search);
      FindTriggerStep(s, trigger, search);
      if found.None? {
        return None;
      }
      if StandsFree(s, found.value) {
        return Some(found.value + |trigger|);
      }
      search := found.value + |trigger|;
    }
  }

  function FindByTrigger(s: string, triggers: seq<string>): (r: Option<nat>)
    requires forall t | t in triggers :: t != ""
    ensures r.Some? ==> r.value <= |s|
  {
    if triggers == [] then None
    else
      assert triggers[0] in triggers && forall t | t in triggers[1..] :: t in triggers;
      var r := FindTrigger(s, triggers[0], 0);
      if r.Some? then r else FindByTrigger(s, triggers[1..])
  }

  /** Earlier triggers come first, wherever they stand; of one trigger, its first free
      occurrence counts. */
  ghost predicate EndsFirstTrigger(s: string, triggers: seq<string>, r: Option<nat>) {
    if r.None? then forall k | 0 <= k < |triggers| :: EndsFirstFree(s, triggers[k], 0, None)
    else
      exists k | 0 <= k < |triggers| ::
        EndsFirstFree(s, triggers[k], 0, r) && forall j | 0 <= j < k :: EndsFirstFree(s, triggers[j], 0, None)
  }

  /** Where the text of a deadline begins. */
  method FindDeadline(s: string, triggers: seq<string>) returns (r: Option<nat>)
    requires forall t | t in triggers :: t != ""
    ensures r == FindByTrigger(s, triggers)
  {
    for k := 0 to |triggers|
      invariant forall t | t in triggers[k..] :: t in triggers
      invariant FindByTrigger(s, triggers[k..]) == FindByTrigger(s, triggers)
    {
      assert triggers[k] in triggers && forall t | t in triggers[k + 1..] :: t in triggers;
      assert triggers[k..][0] == triggers[k] && triggers[k..][1..] == triggers[k + 1..];
      r := FindTriggerFrom(s, triggers[k]);
      if r.Some? {
        return;
      }
    }
    r := None;
  }

  lemma {:induction false} DeadlineIsFirstTrigger(s: string, triggers: seq<string>)
    requires forall t | t in triggers :: t != "" && NoEcho(t)
    ensures EndsFirstTrigger(s, triggers, FindByTrigger(s, triggers))
  {
    if triggers != [] {
      var more := triggers[1..];
      assert triggers[0] in triggers && forall t | t in more :: t in triggers;
      TriggerIsFirstFree(s, triggers[0], 0);
      if FindTrigger(s, triggers[0], 0).None? {
        DeadlineIsFirstTrigger(s, more);
        TriggersBehind(s, triggers, FindByTrigger(s, more));
      }
    }
  }

  lemma TriggersBehind(s: string, triggers: seq<string>, r: Option<nat>)
    requires triggers != [] && EndsFirstFree(s, triggers[0], 0, None) && EndsFirstTrigger(s, triggers[1..], r)
    ensures EndsFirstTrigger(s, triggers, r)
  {
    var more := triggers[1..];
    if r.None? {
      NoneOfThese(s, triggers, |more|);
    } else {
      var k :| 0 <= k < |more| && EndsFirstFree(s, more[k], 0, r)
               && forall j | 0 <= j < k :: EndsFirstFree(s, more[j], 0, None);
      NoneOfThese(s, triggers, k);
      assert EndsFirstFree(s, triggers[k + 1], 0, r);
    }
  }

  lemma NoneOfThese(s: string, triggers: seq<string>, n: nat)
    requires triggers != [] && EndsFirstFree(s, triggers[0], 0, None) && n < |triggers|
    requires forall j | 0 <= j < n :: EndsFirstFree(s, triggers[1..][j], 0, None)
    ensures forall j | 0 <= j < n + 1 :: EndsFirstFree(s, triggers[j], 0, None)
  {
    forall j | 0 <= j < n + 1 ensures EndsFirstFree(s, triggers[j], 0, None) {
      if j > 0 { assert triggers[1..][j - 1] == triggers[j]; }
    }
  }

  /** The triggers of a deadline cannot overlap themselves. */
  lemma TriggersDoNotEcho()
    ensures forall t | t in TRIGGERS :: t != "" && NoEcho(t)
  {
    assert NoEcho("by ") && NoEcho("before ") && NoEcho("due ") && NoEcho("deadline ") && NoEcho("done by ");
  }

  /** What follows `word` at the front, on a token boundary. */
  function StripPrefixWord(s: string, word: string): Option<string> {
    if !StartsWith(s, word) then None
    else
      var rest := s[|word|..];
      if rest != "" && IsAlphanumeric(rest[0]) then None else Some(Text.TrimStart(rest))
  }

  /** The longest part of the day named anywhere in `s`. */
  function LongestPart(s: string, parts: seq<DayPart>, best: Option<DayPart>): Option<DayPart> {
    if parts == [] then best
    else
      var p := parts[0];
      LongestPart(s, parts[1..],
                  if Contains(s, p.name) && (best.None? || |p.name| > |best.value.name|) then Some(p) else best)
  }

  /** The part of the day named in `s`, or the end of the day. */
  function TimeIn(s: string, parts: seq<DayPart>): (nat, nat) {
    match LongestPart(s, parts, None)
    case None => (23, 59)
    case Some(p) => (p.hour, p.minute)
  }

  // ── Which wall time is named ──────────────────────────────────────────────

  /** Days from a weekday to the next such weekday: never today. */
  function DaysAhead(target: nat, current: nat): int
    requires target < 7 && current < 7
  {
    var n := (target + 7 - current) % 7;
    if n == 0 then 7 else n
  }

  function WeekdayWall(rest: string, index: nat, parts: seq<DayPart>, now: Now): Option<Wall>
    requires index <= 7
    decreases 7 - index
  {
    if index == 7 then None
    else
      match StripPrefixWord(rest, WEEKDAYS[index])
      case None => WeekdayWall(rest, index + 1, parts, now)
      case Some(after) =>
        var (h, m) := TimeIn(after, parts);
        Some(Wall(Weekday(index), now.day + DaysAhead(index, WeekdayOf(now.day)), h, m))
  }

  /** The named minute is not after the clock's. */
  predicate Reached(now: Now, hour: nat, minute: nat) {
    now.hour > hour || (now.hour == hour && now.minute >= minute)
  }

  function PartWall(rest: string, parts: seq<DayPart>, now: Now): Option<Wall> {
    if parts == [] then None
    else
      var p := parts[0];
      if StripPrefixWord(rest, p.name).Some?
      then Some(Wall(PartOfDay, now.day + (if Reached(now, p.hour, p.minute) then 1 else 0), p.hour, p.minute))
      else PartWall(rest, parts[1..], now)
  }

  /** The number behind a colon. */
  function MinutesBehind(rest: string, end: nat): Option<SpendScanner.Number> {
    if end < |rest| && rest[end] == ':' then SpendScanner.ReadNumber(rest, end + 1) else None
  }

  /** The hour and minute written at the front, and whether minutes were written. */
  function ReadClock(rest: string): Option<(nat, nat, nat, bool)> {
    match SpendScanner.ReadNumber(rest, 0)
    case None => None
    case Some(n) =>
      if n.value.Floor as real != n.value then None
      else
        match MinutesBehind(rest, n.end)
        case None => Some((n.value.Floor, 0, n.end, false))
        case Some(m) => Some((n.value.Floor, m.value.Floor, m.end, true))
  }

  function ClockWall(rest: string, now: Now): Option<Result<Wall, Question>> {
    match ReadClock(rest)
    case None => None
    case Some((written, minute, end, hasMinutes)) =>
      if end > |rest| then None else ClockFrom(rest, written, minute, end, hasMinutes, now)
  }

  /** The hour and minute read, and the half of the day written behind them at `end`. */
  function ClockFrom(rest: string, written: nat, minute: nat, end: nat, hasMinutes: bool, now: Now): Option<Result<Wall, Question>>
    requires end <= |rest|
  {
    var after := SpendScanner.SkipSpaces(rest, end);
    var pm := SpendScanner.StartsWord(rest, after, "pm") || SpendScanner.StartsWord(rest, after, "p.m");
    var am := SpendScanner.StartsWord(rest, after, "am") || SpendScanner.StartsWord(rest, after, "a.m");
    if !pm && !am && written < 13 && !hasMinutes then
      Some(Err(Ambiguous("by " + Decimal(written), [Decimal(written) + "am", Decimal(written) + "pm"])))
    else
      var afternoon := if pm && written < 12 then written + 12 else written;
      var hour := if am && afternoon == 12 then 0 else afternoon;
      if hour > 23 || minute > 59 then None
      else Some(Ok(Wall(Clock, now.day + (if Reached(now, hour, minute) then 1 else 0), hour, minute)))
  }

  /** The wall time named just after a trigger. */
  function NamedWall(rest: string, parts: seq<DayPart>, now: Now): Option<Result<Wall, Question>> {
    var tomorrow, today := StripPrefixWord(rest, "tomorrow"), StripPrefixWord(rest, "today");
    if tomorrow.Some? then
      var (h, m) := TimeIn(tomorrow.value, parts);
      Some(Ok(Wall(Tomorrow, now.day + 1, h, m)))
    else if today.Some? then
      var (h, m) := TimeIn(today.value, parts);
      Some(Ok(Wall(Today, now.day, h, m)))
    else if WeekdayWall(rest, 0, parts, now).Some? then Some(Ok(WeekdayWall(rest, 0, parts, now).value))
    else if PartWall(rest, parts, now).Some? then Some(Ok(PartWall(rest, parts, now).value))
    else ClockWall(rest, now)
  }

  function Named(lower: string, now: int, z: Zone): Option<Result<Wall, Question>> {
    match FindByTrigger(lower, TRIGGERS)
    case None => None
    case Some(at) => NamedWall(Text.TrimStart(lower[at..]), DAY_PARTS, LocalNow(z, now))
  }

  const GAP_QUESTION := Ambiguous("", ["a time that exists in your timezone"])

  function ParseDue(lower: string, now: int, z: Zone): Option<Result<int, Question>> {
    match Named(lower, now, z)
    case None => None
    case Some(Err(q)) => Some(Err(q))
    case Some(Ok(wall)) =>
      match Resolve(z, wall.At())
      case Some(t) => Some(Ok(t))
      case None => Some(Err(GAP_QUESTION))
  }

  // ── Which deadline is heard ───────────────────────────────────────────────

  /** No occurrence of the trigger stands free. */
  ghost predicate NeverFree(s: string, trigger: string) {
    forall p: nat :: !FreeAt(s, trigger, p)
  }

  /** The occurrence at `m` is the first that stands free. */
  ghost predicate FirstFree(s: string, trigger: string, m: nat) {
    FreeAt(s, trigger, m) && forall p: nat | p < m :: !FreeAt(s, trigger, p)
  }

  /** The occurrence at `m` of the `k`th trigger is the one that counts: no earlier trigger of
      the list stands free anywhere, and this one not before. */
  ghost predicate Wins(s: string, triggers: seq<string>, k: nat, m: nat) {
    k < |triggers| && FirstFree(s, triggers[k], m) && forall j | 0 <= j < k :: NeverFree(s, triggers[j])
  }

  lemma FirstFreeIsFound(s: string, trigger: string, m: nat)
    requires trigger != "" && NoEcho(trigger) && FirstFree(s, trigger, m)
    ensures FindTrigger(s, trigger, 0) == Some(m + |trigger|)
  {
    TriggerIsFirstFree(s, trigger, 0);
  }

  lemma FoundIsFirstFree(s: string, trigger: string)
    requires trigger != "" && NoEcho(trigger)
    ensures match FindTrigger(s, trigger, 0)
            case None => NeverFree(s, trigger)
            case Some(end) => end >= |trigger| && FirstFree(s, trigger, end - |trigger|)
  {
    TriggerIsFirstFree(s, trigger, 0);
  }

  lemma {:induction false} WinnerIsFound(s: string, triggers: seq<string>, k: nat, m: nat)
    requires (forall t | t in triggers :: t != "" && NoEcho(t)) && Wins(s, triggers, k, m)
    ensures FindByTrigger(s, triggers) == Some(m + |triggers[k]|)
    decreases k
  {
    var more := triggers[1..];
    assert triggers[0] in triggers && forall t | t in more :: t in triggers;
    if k == 0 {
      FirstFreeIsFound(s, triggers[0], m);
    } else {
      assert NeverFree(s, triggers[0]);
      NeverFreeIsNotFound(s, triggers[0]);
      WinsBehind(s, triggers, k, m);
      WinnerIsFound(s, more, k - 1, m);
    }
  }

  lemma NeverFreeIsNotFound(s: string, trigger: string)
    requires trigger != "" && NoEcho(trigger) && NeverFree(s, trigger)
    ensures FindTrigger(s, trigger, 0) == None
  {
    FoundIsFirstFree(s, trigger);
  }

  lemma WinsBehind(s: string, triggers: seq<string>, k: nat, m: nat)
    requires 0 < k && Wins(s, triggers, k, m)
    ensures triggers[1..][k - 1] == triggers[k] && Wins(s, triggers[1..], k - 1, m)
  {
    assert forall j | 0 <= j < k :: triggers[1..][j] == triggers[j + 1];
  }

  lemma {:induction false} FoundIsWinner(s: string, triggers: seq<string>) returns (k: nat, m: nat)
    requires (forall t | t in triggers :: t != "" && NoEcho(t)) && FindByTrigger(s, triggers).Some?
    ensures Wins(s, triggers, k, m)
  {
    var more := triggers[1..];
    assert triggers[0] in triggers && forall t | t in more :: t in triggers;
    FoundIsFirstFree(s, triggers[0]);
    if FindTrigger(s, triggers[0], 0).Some? {
      k, m := 0, FindTrigger(s, triggers[0], 0).value - |triggers[0]|;
    } else {
      k, m := FoundIsWinner(s, more);
      WinsInFront(s, triggers, k, m);
      k := k + 1;
    }
  }

  lemma WinsInFront(s: string, triggers: seq<string>, k: nat, m: nat)
    requires triggers != [] && NeverFree(s, triggers[0]) && Wins(s, triggers[1..], k, m)
    ensures Wins(s, triggers, k + 1, m)
  {
    assert forall j | 0 < j <= k + 1 :: triggers[j] == triggers[1..][j - 1];
  }

  /** What the text from `end` on names. */
  function NamedAfter(lower: string, end: nat, now: int, z: Zone): Option<Result<Wall, Question>>
    requires end <= |lower|
  {
    NamedWall(Text.TrimStart(lower[end..]), DAY_PARTS, LocalNow(z, now))
  }

  /** A deadline is heard exactly when the winning trigger is followed by one. A deadline
      behind any other trigger is not looked at, and not asked about. */
  lemma HeardExactly(lower: string, now: int, z: Zone)
    ensures Named(lower, now, z).Some? <==>
            exists k: nat, m: nat | Wins(lower, TRIGGERS, k, m) ::
              NamedAfter(lower, m + |TRIGGERS[k]|, now, z).Some?
    ensures forall k: nat, m: nat | Wins(lower, TRIGGERS, k, m) ::
              Named(lower, now, z) == NamedAfter(lower, m + |TRIGGERS[k]|, now, z)
  {
    TriggersDoNotEcho();
    forall k: nat, m: nat | Wins(lower, TRIGGERS, k, m)
      ensures Named(lower, now, z) == NamedAfter(lower, m + |TRIGGERS[k]|, now, z)
    {
      WinnerIsFound(lower, TRIGGERS, k, m);
    }
    if Named(lower, now, z).Some? {
      var k, m := FoundIsWinner(lower, TRIGGERS);
    }
  }

  // ── Every named wall time is well placed ──────────────────────────────────

  /** Where a deadline stands against the local clock. */
  ghost predicate WellPlaced(w: Wall, now: Now) {
    w.Valid() &&
    match w.form
    case Tomorrow => w.day == now.day + 1
    case Today => w.day == now.day
    case Weekday(k) => k < 7 && now.day + 1 <= w.day <= now.day + 7 && WeekdayOf(w.day) == k
    case _ => w.day == now.day + (if Reached(now, w.hour, w.minute) then 1 else 0)
  }

  predicate ValidParts(parts: seq<DayPart>) {
    forall p | p in parts :: p.hour < 24 && p.minute < 60
  }

  lemma DayPartsAreValid()
    ensures ValidParts(DAY_PARTS)
  {
  }

  lemma {:induction false} LongestIsValid(s: string, parts: seq<DayPart>, best: Option<DayPart>)
    requires ValidParts(parts) && (best.Some? ==> best.value.hour < 24 && best.value.minute < 60)
    ensures var r := LongestPart(s, parts, best); r.Some? ==> r.value.hour < 24 && r.value.minute < 60
  {
    if parts != [] {
      var p := parts[0];
      assert p in parts && forall q | q in parts[1..] :: q in parts;
      LongestIsValid(s, parts[1..],
                     if Contains(s, p.name) && (best.None? || |p.name| > |best.value.name|) then Some(p) else best);
    }
  }

  lemma TimeIsValid(s: string, parts: seq<DayPart>)
    requires ValidParts(parts)
    ensures TimeIn(s, parts).0 < 24 && TimeIn(s, parts).1 < 60
  {
    LongestIsValid(s, parts, None);
  }

  lemma DaysAheadReachesTarget(target: nat, day: int)
    requires target < 7
    ensures var n := DaysAhead(target, WeekdayOf(day)); 1 <= n <= 7 && WeekdayOf(day + n) == target
  {
  }

  lemma {:induction false} WeekdayIsPlaced(rest: string, index: nat, parts: seq<DayPart>, now: Now)
    requires index <= 7 && ValidParts(parts)
    ensures var w := WeekdayWall(rest, index, parts, now);
            w.Some? ==> w.value.form.Weekday? && WellPlaced(w.value, now)
    decreases 7 - index
  {
    if index < 7 {
      match StripPrefixWord(rest, WEEKDAYS[index])
      case None => WeekdayIsPlaced(rest, index + 1, parts, now);
      case Some(after) =>
        TimeIsValid(after, parts);
        DaysAheadReachesTarget(index, now.day);
    }
  }

  lemma {:induction false} PartIsPlaced(rest: string, parts: seq<DayPart>, now: Now)
    requires ValidParts(parts)
    ensures var w := PartWall(rest, parts, now); w.Some? ==> w.value.form.PartOfDay? && WellPlaced(w.value, now)
  {
    if parts != [] {
      assert parts[0] in parts && forall q | q in parts[1..] :: q in parts;
      PartIsPlaced(rest, parts[1..], now);
    }
  }

  lemma ClockIsPlaced(rest: string, now: Now)
    ensures var r := ClockWall(rest, now);
            r.Some? && r.value.Ok? ==> r.value.value.form.Clock? && WellPlaced(r.value.value, now)
  {
  }

  lemma NamedIsPlaced(rest: string, parts: seq<DayPart>, now: Now)
    requires ValidParts(parts)
    ensures var r := NamedWall(rest, parts, now); r.Some? && r.value.Ok? ==> WellPlaced(r.value.value, now)
  {
    var tomorrow, today := StripPrefixWord(rest, "tomorrow"), StripPrefixWord(rest, "today");
    if tomorrow.Some? {
      TimeIsValid(tomorrow.value, parts);
    } else if today.Some? {
      TimeIsValid(today.value, parts);
    } else {
      WeekdayIsPlaced(rest, 0, parts, now);
      PartIsPlaced(rest, parts, now);
      ClockIsPlaced(rest, now);
    }
  }

  /** The wall time a message names is well placed. */
  lemma NamedInMessage(lower: string, now: int, z: Zone)
    requires Named(lower, now, z).Some? && Named(lower, now, z).value.Ok?
    ensures WellPlaced(Named(lower, now, z).value.value, LocalNow(z, now))
  {
    DayPartsAreValid();
    NamedIsPlaced(Text.TrimStart(lower[FindByTrigger(lower, TRIGGERS).value..]), DAY_PARTS, LocalNow(z, now));
  }

  /** Comparing a wall time with the local clock by day and minute. */
  lemma CompareWithClock(z: Zone, now: int, w: Wall)
    requires w.Valid()
    ensures var n := LocalNow(z, now);
            Local(z, now) < w.At() <==> w.day > n.day || (w.day == n.day && !Reached(n, w.hour, w.minute))
    ensures w.At() % MINUTE == 0
  {
    var local, n := Local(z, now), LocalNow(z, now);
    var m := (local % DAY) / MINUTE;
    assert local == n.day * DAY + local % DAY;
    assert m * MINUTE <= local % DAY < (m + 1) * MINUTE;
    assert m == 60 * n.hour + n.minute;
    assert Reached(n, w.hour, w.minute) <==> m >= w.OfDay();
    assert w.At() == (w.day * 1440 + w.OfDay()) * MINUTE;
    if w.day > n.day {
      assert w.day * DAY >= (n.day + 1) * DAY;
    } else if w.day < n.day {
      assert w.day * DAY + DAY <= n.day * DAY;
    }
  }

  // ── The main results ──────────────────────────────────────────────────────

  /** In a zone that only jumps forward, by at most three hours, a named deadline resolves
      exactly when its minute or one of the next 180 is not skipped, so always when changes
      lie a minute apart; and every deadline but "today" then lies strictly ahead. */
  lemma DeadlinesAreAhead(lower: string, now: int, z: Zone, w: Wall)
    requires ForwardOnly(z) && Named(lower, now, z) == Some(Ok(w))
    ensures ParseDue(lower, now, z).Some?
    ensures ParseDue(lower, now, z).value.Ok? <==> exists n: nat | n <= 180 :: ShownAfter(z, w.At(), n)
    ensures Spaced(z) ==> ParseDue(lower, now, z).value.Ok?
    ensures ParseDue(lower, now, z).value.Ok? && !w.form.Today? ==> ParseDue(lower, now, z).value.value > now
  {
    NamedInMessage(lower, now, z);
    CompareWithClock(z, now, w);
    ResolvesExactly(z, w.At());
    if Spaced(z) { ResolvedShows(z, w.At()); }
    if !w.form.Today? { AheadStaysAhead(z, w.At(), now); }
  }

  /** A "today" deadline is ahead exactly when the local clock has not reached the minute it
      resolves to: its own minute, unless a gap that does not end on a whole minute skips
      it. */
  lemma TodayIsAheadExactly(lower: string, now: int, z: Zone, w: Wall)
    requires ForwardOnly(z) && Spaced(z) && Named(lower, now, z) == Some(Ok(w)) && w.form.Today?
    ensures ParseDue(lower, now, z).Some? && ParseDue(lower, now, z).value.Ok?
    ensures var due := ParseDue(lower, now, z).value.value;
            && (due > now <==> Local(z, now) < ShownFrom(z, w.At()))
            && (MinuteAligned(z) || !Skipped(z, w.At()) ==>
                  (due > now <==> !Reached(LocalNow(z, now), w.hour, w.minute)))
  {
    NamedInMessage(lower, now, z);
    CompareWithClock(z, now, w);
    AheadExactly(z, w.At(), now);
    if MinuteAligned(z) { MinuteAheadExactly(z, w.At(), now); }
  }

  /** The change that skips the wall time takes the clock past the last minute of its day. */
  predicate SkippedPastItsDay(z: Zone, w: Wall) {
    exists k: nat | k < |z.changes| :: Skips(z, k, w.At()) && End(z, k) > (w.day + 1) * DAY - MINUTE
  }

  /** A weekday deadline names that weekday, one to seven days ahead. It lands on it exactly
      when no change skips both its minute and the last minute of that day; otherwise on the
      day after. */
  lemma WeekdayLandsOnItsDay(lower: string, now: int, z: Zone, w: Wall)
    requires ForwardOnly(z) && Spaced(z) && Named(lower, now, z) == Some(Ok(w)) && w.form.Weekday?
    ensures WeekdayOf(w.day) == w.form.index
    ensures LocalNow(z, now).day + 1 <= w.day <= LocalNow(z, now).day + 7
    ensures ParseDue(lower, now, z).Some? && ParseDue(lower, now, z).value.Ok?
    ensures LocalNow(z, ParseDue(lower, now, z).value.value).day == w.day + if SkippedPastItsDay(z, w) then 1 else 0
  {
    NamedInMessage(lower, now, z);
    WallLandsOnItsDay(z, w);
  }

  lemma WallLandsOnItsDay(z: Zone, w: Wall)
    requires ForwardOnly(z) && Spaced(z) && w.Valid()
    ensures Resolve(z, w.At()).Some?
    ensures LocalNow(z, Resolve(z, w.At()).value).day == w.day + if SkippedPastItsDay(z, w) then 1 else 0
  {
    var wall := w.At();
    AtIsOnDay(w);
    ResolvedShows(z, wall);
    var shown := Local(z, Resolve(z, wall).value);
    if SkippedPastItsDay(z, w) {
      var k: nat :| k < |z.changes| && Skips(z, k, wall) && End(z, k) > (w.day + 1) * DAY - MINUTE;
      LandsPastGap(z, w, k);
    } else if Skipped(z, wall) {
      var k: nat :| k < |z.changes| && Skips(z, k, wall);
      LandsPastGap(z, w, k);
    } else {
      ShownIfNotSkipped(z, wall);
      DayOf(shown, w.day);
    }
  }

  lemma LandsPastGap(z: Zone, w: Wall, k: nat)
    requires ForwardOnly(z) && Spaced(z) && w.Valid() && Skips(z, k, w.At())
    ensures Resolve(z, w.At()).Some?
    ensures LocalNow(z, Resolve(z, w.At()).value).day
            == w.day + if End(z, k) > (w.day + 1) * DAY - MINUTE then 1 else 0
  {
    SkipsAtItsChange(z, k, w.At());
    GapResolvesWithinAMinute(z, w.At(), k);
    DayPastGap(w, End(z, k));
  }

  lemma DayPastGap(w: Wall, end: int)
    requires w.Valid() && w.At() < end <= w.At() + LONGEST_JUMP
    ensures UpTo(w.At(), end) / DAY == w.day + if end > (w.day + 1) * DAY - MINUTE then 1 else 0
  {
    UpToWithinDay(w, end);
    DayOf(UpTo(w.At(), end), w.day);
    if UpTo(w.At(), end) >= (w.day + 1) * DAY { DayOf(UpTo(w.At(), end), w.day + 1); }
  }

  /** Minutes counted from a whole minute stay in its day up to the last one. */
  lemma UpToWithinDay(w: Wall, end: int)
    requires w.Valid() && w.At() < end <= w.At() + LONGEST_JUMP
    ensures w.day * DAY <= UpTo(w.At(), end) < (w.day + 2) * DAY
    ensures UpTo(w.At(), end) < (w.day + 1) * DAY <==> end <= (w.day + 1) * DAY - MINUTE
  {
    AtIsOnDay(w);
    UpToIsNext(w.At(), end);
    MinutesFit(end - w.At(), 1439 - w.OfDay());
    assert (w.day + 1) * DAY - MINUTE == w.At() + (1439 - w.OfDay()) * MINUTE;
  }

  lemma MinutesFit(d: int, j: int)
    requires d > 0
    ensures Minutes(d) * MINUTE <= j * MINUTE <==> d <= j * MINUTE
  {
    assert (Minutes(d) - 1) * MINUTE < d <= Minutes(d) * MINUTE;
  }

  // ── Two zones in which a deadline goes wrong ──────────────────────────────

  /** "by friday" names 23:59 on the next friday. */
  lemma FridayIsNamed(now: int, z: Zone, day: int)
    requires WeekdayOf(day) == 4 && LocalNow(z, now).day < day <= LocalNow(z, now).day + 7
    ensures Named("by friday", now, z) == Some(Ok(Wall(Weekday(4), day, 23, 59)))
  {
    ByIsFound("friday", TRIGGERS);
    assert "by friday" == "by " + "friday" && "by friday"[3..] == "friday";
    assert Text.TrimStart("friday") == "friday";
    FridayWall(DAY_PARTS, LocalNow(z, now), day);
  }

  lemma ByIsFound(rest: string, triggers: seq<string>)
    requires triggers != [] && triggers[0] == "by " && forall t | t in triggers :: t != ""
    ensures FindByTrigger("by " + rest, triggers) == Some(3)
  {
    var s := "by " + rest;
    assert s[0..] == s && s[..3] == "by ";
    assert FindFrom(s, "by ", 0) == Some(0);
  }

  lemma FridayWall(parts: seq<DayPart>, now: Now, day: int)
    requires WeekdayOf(day) == 4 && now.day < day <= now.day + 7
    requires forall p | p in parts :: p.name != ""
    ensures NamedWall("friday", parts, now) == Some(Ok(Wall(Weekday(4), day, 23, 59)))
  {
    assert StripPrefixWord("friday", "tomorrow").None? && StripPrefixWord("friday", "today").None? by {
      assert "friday"[..5][0] == 'f' && "today"[0] == 't';
    }
    FridayIsTheFifth(parts, now);
    NoPartInNothing(parts, None);
  }

  lemma FridayIsTheFifth(parts: seq<DayPart>, now: Now)
    ensures var (h, m) := TimeIn("", parts);
            WeekdayWall("friday", 0, parts, now)
            == Some(Wall(Weekday(4), now.day + DaysAhead(4, WeekdayOf(now.day)), h, m))
  {
    assert StripPrefixWord("friday", "monday").None? by {
      assert "friday"[..6][0] == 'f' && "monday"[0] == 'm';
    }
    assert StripPrefixWord("friday", "friday") == Some("") by {
      assert "friday"[..6] == "friday" && "friday"[6..] == "";
    }
    assert WeekdayWall("friday", 4, parts, now).Some?;
    assert WeekdayWall("friday", 3, parts, now) == WeekdayWall("friday", 4, parts, now);
    assert WeekdayWall("friday", 2, parts, now) == WeekdayWall("friday", 3, parts, now);
    assert WeekdayWall("friday", 1, parts, now) == WeekdayWall("friday", 2, parts, now);
  }

  lemma {:induction false} NoPartInNothing(parts: seq<DayPart>, best: Option<DayPart>)
    requires forall p | p in parts :: p.name != ""
    ensures LongestPart("", parts, best) == best
  {
    if parts != [] {
      assert parts[0] in parts && forall p | p in parts[1..] :: p in parts;
      NoPartInNothing(parts[1..], best);
    }
  }

  /** A zone with one jump, from 23:30 of the given day to 00:30. */
  function LateJump(day: int): Zone {
    Zone(0, [Change((day * 1440 + 1410) * MINUTE, 60 * MINUTE)])
  }

  /** A zone with two jumps of 179 minutes, one nanosecond apart, from 23:58:30 on. */
  function TwinJumps(day: int): Zone {
    var at := (day * 1440 + 1438) * MINUTE + MINUTE / 2;
    Zone(0, [Change(at, 179 * MINUTE), Change(at + 1, 358 * MINUTE)])
  }

  /** In the week before the friday of the first zone's jump, "by friday" lands on saturday. */
  lemma SomeGapsCrossMidnight(day: int, now: int)
    requires WeekdayOf(day) == 4 && (day - 7) * DAY <= now < day * DAY
    ensures ForwardOnly(LateJump(day)) && MinuteAligned(LateJump(day))
    ensures var due := ParseDue("by friday", now, LateJump(day));
            due.Some? && due.value.Ok? && LocalNow(LateJump(day), due.value.value).day == day + 1
  {
    LateJumpIsForward(day);
    LateJumpSkips(day);
    EarlierDay(LateJump(day), now, day);
    FridayIsNamed(now, LateJump(day), day);
    WeekdayLandsOnItsDay("by friday", now, LateJump(day), Wall(Weekday(4), day, 23, 59));
  }

  lemma LateJumpSkips(day: int)
    ensures SkippedPastItsDay(LateJump(day), Wall(Weekday(4), day, 23, 59)) && day * DAY <= LateJump(day).changes[0].at
  {
    LateArithmetic(day);
    assert Skips(LateJump(day), 0, Wall(Weekday(4), day, 23, 59).At());
  }

  lemma LateArithmetic(day: int)
    ensures var at, wall := (day * 1440 + 1410) * MINUTE, Wall(Weekday(4), day, 23, 59).At();
            at <= wall < at + 60 * MINUTE && at + 60 * MINUTE > (day + 1) * DAY - MINUTE
  {
  }

  lemma LateJumpIsForward(day: int)
    ensures ForwardOnly(LateJump(day)) && Spaced(LateJump(day)) && MinuteAligned(LateJump(day))
  {
    assert Later(LateJump(day)).changes == [];
    assert ForwardOnly(Later(LateJump(day)));
    OnTheMinute(day * 1440 + 1410);
  }

  lemma OnTheMinute(k: int)
    ensures (k * MINUTE) % MINUTE == 0
  {
  }

  /** Before the first change of a zone at offset zero, the day is that of the instant. */
  lemma EarlierDay(z: Zone, now: int, day: int)
    requires z.first == 0 && z.changes != [] && day * DAY <= z.changes[0].at && (day - 7) * DAY <= now < day * DAY
    ensures LocalNow(z, now).day < day <= LocalNow(z, now).day + 7
  {
    assert Local(z, now) == now;
  }

  /** In the second zone the same message names no time at all: the deadline is asked for
      again. */
  lemma CloseJumpsLoseTheDeadline(day: int, now: int)
    requires WeekdayOf(day) == 4 && (day - 7) * DAY <= now < day * DAY
    ensures ForwardOnly(TwinJumps(day)) && ParseDue("by friday", now, TwinJumps(day)) == Some(Err(GAP_QUESTION))
  {
    var z, w := TwinJumps(day), Wall(Weekday(4), day, 23, 59);
    TwinJumpsAreForward(day);
    EarlierDay(z, now, day);
    FridayIsNamed(now, z, day);
    forall n: nat | n <= 180 ensures !ShownAfter(z, w.At(), n) { TwinJumpsSkip(day, n); }
    ResolvesExactly(z, w.At());
  }

  lemma TwinJumpsAreForward(day: int)
    ensures ForwardOnly(TwinJumps(day)) && day * DAY <= TwinJumps(day).changes[0].at
  {
    var z := TwinJumps(day);
    assert Later(z).changes == [z.changes[1]] && Later(Later(z)).changes == [];
    assert ForwardOnly(Later(Later(z)));
    assert ForwardOnly(Later(z));
  }

  lemma TwinJumpsSkip(day: int, n: nat)
    requires n <= 180
    ensures Skipped(TwinJumps(day), Wall(Weekday(4), day, 23, 59).At() + n * MINUTE)
  {
    var z, at := TwinJumps(day), (day * 1440 + 1438) * MINUTE + MINUTE / 2;
    var wall := Wall(Weekday(4), day, 23, 59).At() + n * MINUTE;
    assert wall == at + MINUTE / 2 + n * MINUTE;
    assert Skips(z, if n < 179 then 0 else 1, wall);
  }

  lemma AtIsOnDay(w: Wall)
    requires w.Valid()
    ensures w.At() % MINUTE == 0 && w.day * DAY <= w.At() < (w.day + 1) * DAY
  {
    assert w.At() == (w.day * 1440 + w.OfDay()) * MINUTE;
  }

  lemma DayOf(local: int, day: int)
    requires day * DAY <= local
    ensures local / DAY == day <==> local < (day + 1) * DAY
  {
    if local < (day + 1) * DAY {
      var rest := local - day * DAY;
      assert local == day * DAY + rest && 0 <= rest < DAY;
    }
  }
}
