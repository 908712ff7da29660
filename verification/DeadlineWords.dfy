/** Which time the words of a deadline mean. */
module DeadlineWords {
  import opened Prelude
  import opened Text
  import opened SpendScanner
  import opened Numbers
  import opened Amounts
  import opened TimeZone
  import opened Deadline

  // ── The word at the front ─────────────────────────────────────────────────

  /** A word is taken off exactly when it stands at the front, with what follows it. */
  lemma StripExactly(s: string, word: string)
    ensures StripPrefixWord(s, word)
            == if StartsWord(s, 0, word) then Some(Text.TrimStart(s[|word|..])) else None
  {
    if |word| <= |s| { assert s[0..|word|] == s[..|word|]; }
    if |word| < |s| { assert s[|word|..][0] == s[|word|]; }
  }

  lemma OtherWordBlocks(s: string, u: string, v: string)
    requires Lettered(u) && Lettered(v) && u != v && StartsWord(s, 0, u)
    ensures StripPrefixWord(s, v) == None
  {
    if StartsWord(s, 0, v) { OneWordStands(s, 0, u, v); }
    StripExactly(s, v);
  }

  lemma DayWordsAreLettered()
    ensures Lettered("tomorrow") && Lettered("today") && forall k | 0 <= k < 7 :: Lettered(WEEKDAYS[k])
    ensures forall j, k | 0 <= j < k < 7 :: WEEKDAYS[j] != WEEKDAYS[k]
    ensures forall k | 0 <= k < 7 :: WEEKDAYS[k] != "tomorrow" && WEEKDAYS[k] != "today"
  {
    forall k | 0 <= k < 7 ensures Lettered(WEEKDAYS[k]) && WEEKDAYS[k] != "tomorrow" && WEEKDAYS[k] != "today" {
      assert |WEEKDAYS[k]| == 8 ==> WEEKDAYS[k][1] != 'o';
      assert |WEEKDAYS[k]| != 5;
    }
    forall j, k | 0 <= j < k < 7 ensures WEEKDAYS[j] != WEEKDAYS[k] {
      assert |WEEKDAYS[j]| == |WEEKDAYS[k]| ==> WEEKDAYS[j][0] != WEEKDAYS[k][0];
    }
  }

  // ── The time of day that is named ─────────────────────────────────────────

  /** `w` stands somewhere from `from` on, as a word or within one. */
  predicate Occurs(s: string, from: nat, w: string) {
    exists k | from <= k <= |s| :: At(s, w, k)
  }

  /** The longest part of the day that occurs from `from` on, of equally long ones the first
      listed, sets the time; without any it is the end of the day. */
  ghost predicate TimeMeant(s: string, from: nat, parts: seq<DayPart>, hour: nat, minute: nat) {
    if forall k | 0 <= k < |parts| :: !Occurs(s, from, parts[k].name) then hour == 23 && minute == 59
    else exists k | 0 <= k < |parts| :: LongestThere(s, from, parts, k) && hour == parts[k].hour && minute == parts[k].minute
  }

  ghost predicate LongestThere(s: string, from: nat, parts: seq<DayPart>, k: nat)
    requires k < |parts|
  {
    && Occurs(s, from, parts[k].name)
    && forall j | 0 <= j < |parts| && Occurs(s, from, parts[j].name) ::
         |parts[j].name| <= |parts[k].name| && (j < k ==> |parts[j].name| < |parts[k].name|)
  }

  lemma ContainsExactly(s: string, w: string)
    ensures Contains(s, w) <==> Occurs(s, 0, w)
  {
    if k: nat :| k <= |s| && At(s, w, k) { FindIsFirst(s, w, k); }
  }

  /** Blanks at the front hide no word. */
  lemma {:induction false} TrimHidesNothing(s: string, from: nat, w: string)
    requires from <= |s| && w != "" && !IsWhitespace(w[0])
    ensures Contains(Text.TrimStart(s[from..]), w) <==> Occurs(s, from, w)
    decreases |s| - from
  {
    if from < |s| && IsWhitespace(s[from]) {
      assert s[from..][1..] == s[from + 1..];
      TrimHidesNothing(s, from + 1, w);
      BlankStartsNothing(s, from, w);
    } else {
      ContainsExactly(s[from..], w);
      OccursInRest(s, from, w);
    }
  }

  lemma BlankStartsNothing(s: string, from: nat, w: string)
    requires from < |s| && w != "" && IsWhitespace(s[from]) && !IsWhitespace(w[0])
    ensures Occurs(s, from, w) <==> Occurs(s, from + 1, w)
  {
    NotAtOtherLetter(s, w, from, 0);
  }

  lemma OccursInRest(s: string, from: nat, w: string)
    requires from <= |s|
    ensures Occurs(s[from..], 0, w) <==> Occurs(s, from, w)
  {
    var rest := s[from..];
    forall k: nat | k <= |rest| ensures At(rest, w, k) <==> At(s, w, from + k) {
      if from + k + |w| <= |s| { assert rest[k..k + |w|] == s[from + k..from + k + |w|]; }
    }
    if k :| from <= k <= |s| && At(s, w, k) { assert At(rest, w, k - from); }
    if k: nat :| k <= |rest| && At(rest, w, k) { assert At(s, w, from + k); }
  }

  /** `best` is the longest of the first `i` parts that the text contains. */
  ghost predicate BestOf(s: string, parts: seq<DayPart>, i: nat, best: Option<DayPart>)
    requires i <= |parts|
  {
    match best
    case None => forall k | 0 <= k < i :: !Contains(s, parts[k].name)
    case Some(p) => exists k | 0 <= k < i :: parts[k] == p && BestAt(s, parts, i, k)
  }

  ghost predicate BestAt(s: string, parts: seq<DayPart>, i: nat, k: nat)
    requires k < i <= |parts|
  {
    && Contains(s, parts[k].name)
    && forall j | 0 <= j < i && Contains(s, parts[j].name) ::
         |parts[j].name| <= |parts[k].name| && (j < k ==> |parts[j].name| < |parts[k].name|)
  }

  function Better(s: string, p: DayPart, best: Option<DayPart>): Option<DayPart> {
    if Contains(s, p.name) && (best.None? || |p.name| > |best.value.name|) then Some(p) else best
  }

  lemma BestStep(s: string, parts: seq<DayPart>, i: nat, best: Option<DayPart>)
    requires i < |parts| && BestOf(s, parts, i, best)
    ensures BestOf(s, parts, i + 1, Better(s, parts[i], best))
  {
    if best.Some? {
      var k :| 0 <= k < i && parts[k] == best.value && BestAt(s, parts, i, k);
      if Better(s, parts[i], best) == best { BestKept(s, parts, i, k); } else { BestPassed(s, parts, i, k); }
    } else if Contains(s, parts[i].name) {
      assert BestAt(s, parts, i + 1, i);
    }
  }

  lemma BestKept(s: string, parts: seq<DayPart>, i: nat, k: nat)
    requires k < i < |parts| && BestAt(s, parts, i, k) && Better(s, parts[i], Some(parts[k])) == Some(parts[k])
    ensures BestAt(s, parts, i + 1, k)
  {
  }

  lemma BestPassed(s: string, parts: seq<DayPart>, i: nat, k: nat)
    requires k < i < |parts| && BestAt(s, parts, i, k) && Better(s, parts[i], Some(parts[k])) != Some(parts[k])
    ensures BestAt(s, parts, i + 1, i) && Better(s, parts[i], Some(parts[k])) == Some(parts[i])
  {
  }

  lemma {:induction false} LongestIsBest(s: string, parts: seq<DayPart>, i: nat, best: Option<DayPart>)
    requires i <= |parts| && BestOf(s, parts, i, best)
    ensures BestOf(s, parts, |parts|, LongestPart(s, parts[i..], best))
    decreases |parts| - i
  {
    if i < |parts| {
      assert parts[i..][0] == parts[i] && parts[i..][1..] == parts[i + 1..];
      BestStep(s, parts, i, best);
      LongestIsBest(s, parts, i + 1, Better(s, parts[i], best));
    }
  }

  predicate Spoken(parts: seq<DayPart>) {
    forall k | 0 <= k < |parts| :: parts[k].name != "" && !IsWhitespace(parts[k].name[0])
  }

  /** The time read behind a word for a day is the one its text means. */
  lemma TimeIsMeant(s: string, from: nat, parts: seq<DayPart>)
    requires from <= |s| && Spoken(parts)
    ensures var (hour, minute) := TimeIn(Text.TrimStart(s[from..]), parts); TimeMeant(s, from, parts, hour, minute)
  {
    var rest := Text.TrimStart(s[from..]);
    forall k | 0 <= k < |parts| ensures Contains(rest, parts[k].name) <==> Occurs(s, from, parts[k].name) {
      TrimHidesNothing(s, from, parts[k].name);
    }
    assert parts[0..] == parts;
    LongestIsBest(rest, parts, 0, None);
    var best := LongestPart(rest, parts, None);
    if best.Some? {
      var k :| 0 <= k < |parts| && parts[k] == best.value && BestAt(rest, parts, |parts|, k);
      assert LongestThere(s, from, parts, k);
    }
  }

  // ── Words for a day ───────────────────────────────────────────────────────

  /** "tomorrow" means the next day, at the time named behind it. */
  lemma TomorrowMeans(rest: string, parts: seq<DayPart>, now: Now)
    requires StartsWord(rest, 0, "tomorrow") && Spoken(parts)
    ensures var r := NamedWall(rest, parts, now);
            && r.Some? && r.value.Ok? && r.value.value.form.Tomorrow? && r.value.value.day == now.day + 1
            && TimeMeant(rest, 8, parts, r.value.value.hour, r.value.value.minute)
  {
    StripExactly(rest, "tomorrow");
    TimeIsMeant(rest, 8, parts);
  }

  /** "today" means this day, at the time named behind it. */
  lemma TodayMeans(rest: string, parts: seq<DayPart>, now: Now)
    requires StartsWord(rest, 0, "today") && Spoken(parts)
    ensures var r := NamedWall(rest, parts, now);
            && r.Some? && r.value.Ok? && r.value.value.form.Today? && r.value.value.day == now.day
            && TimeMeant(rest, 5, parts, r.value.value.hour, r.value.value.minute)
  {
    DayWordsAreLettered();
    OtherWordBlocks(rest, "today", "tomorrow");
    StripExactly(rest, "today");
    TimeIsMeant(rest, 5, parts);
  }

  /** A weekday means the first such day after this one, at the time named behind it. */
  lemma WeekdayMeans(rest: string, k: nat, parts: seq<DayPart>, now: Now)
    requires k < 7 && StartsWord(rest, 0, WEEKDAYS[k]) && Spoken(parts)
    ensures var r := NamedWall(rest, parts, now);
            && r.Some? && r.value.Ok? && r.value.value.form == Weekday(k)
            && FirstAfter(now.day, k, r.value.value.day)
            && TimeMeant(rest, |WEEKDAYS[k]|, parts, r.value.value.hour, r.value.value.minute)
  {
    DayWordsAreLettered();
    OtherWordBlocks(rest, WEEKDAYS[k], "tomorrow");
    OtherWordBlocks(rest, WEEKDAYS[k], "today");
    WeekdayIsFound(rest, 0, k, parts, now);
    TimeIsMeant(rest, |WEEKDAYS[k]|, parts);
    NextIsFirst(now.day, k);
  }

  /** The day is the first after today that falls on the weekday. */
  predicate FirstAfter(today: int, weekday: nat, day: int) {
    today < day && WeekdayOf(day) == weekday && forall d | today < d < day :: WeekdayOf(d) != weekday
  }

  lemma NextIsFirst(today: int, weekday: nat)
    requires weekday < 7
    ensures FirstAfter(today, weekday, today + DaysAhead(weekday, WeekdayOf(today)))
  {
    DaysAheadReachesTarget(weekday, today);
    var day := today + DaysAhead(weekday, WeekdayOf(today));
    forall d | today < d < day ensures WeekdayOf(d) != weekday { NotTwiceAWeek(d, day); }
  }

  lemma NotTwiceAWeek(a: int, b: int)
    requires a < b < a + 7
    ensures WeekdayOf(a) != WeekdayOf(b)
  {
  }

  /** The epoch began on a thursday, and the weekdays follow one another. */
  lemma WeekdaysFollow(day: int)
    ensures WEEKDAYS[WeekdayOf(0)] == "thursday" && WeekdayOf(day + 1) == (WeekdayOf(day) + 1) % 7
  {
  }

  lemma {:induction false} WeekdayIsFound(rest: string, index: nat, k: nat, parts: seq<DayPart>, now: Now)
    requires index <= k < 7 && StartsWord(rest, 0, WEEKDAYS[k])
    ensures var (h, m) := TimeIn(Text.TrimStart(rest[|WEEKDAYS[k]|..]), parts);
            WeekdayWall(rest, index, parts, now)
            == Some(Wall(Weekday(k), now.day + DaysAhead(k, WeekdayOf(now.day)), h, m))
    decreases k - index
  {
    StripExactly(rest, WEEKDAYS[index]);
    if index < k {
      DayWordsAreLettered();
      OtherWordBlocks(rest, WEEKDAYS[k], WEEKDAYS[index]);
      WeekdayIsFound(rest, index + 1, k, parts, now);
    }
  }

  // ── Parts of the day ──────────────────────────────────────────────────────

  /** No word for a day stands at the front. */
  predicate NoDayWord(rest: string) {
    !StartsWord(rest, 0, "tomorrow") && !StartsWord(rest, 0, "today")
    && forall k | 0 <= k < 7 :: !StartsWord(rest, 0, WEEKDAYS[k])
  }

  lemma {:induction false} NoWeekdayFound(rest: string, index: nat, parts: seq<DayPart>, now: Now)
    requires index <= 7 && NoDayWord(rest)
    ensures WeekdayWall(rest, index, parts, now) == None
    decreases 7 - index
  {
    if index < 7 {
      StripExactly(rest, WEEKDAYS[index]);
      NoWeekdayFound(rest, index + 1, parts, now);
    }
  }

  /** Without a word for a day, a part of the day or a clock time is read. */
  lemma WithoutDayWord(rest: string, parts: seq<DayPart>, now: Now)
    requires NoDayWord(rest)
    ensures NamedWall(rest, parts, now)
            == if PartWall(rest, parts, now).Some? then Some(Ok(PartWall(rest, parts, now).value)) else ClockWall(rest, now)
  {
    StripExactly(rest, "tomorrow");
    StripExactly(rest, "today");
    NoWeekdayFound(rest, 0, parts, now);
  }

  /** The wall time is the first of its hour and minute after the minute of the clock. */
  predicate Soonest(now: Now, w: Wall) {
    var clock, at := 1440 * now.day + 60 * now.hour + now.minute, 1440 * w.day + w.OfDay();
    clock < at <= clock + 1440
  }

  /** A part of the day means its own hour and minute, the next time they come; the first
      listed of those that stand at the front counts. */
  lemma PartMeans(rest: string, k: nat, parts: seq<DayPart>, now: Now)
    requires k < |parts| && StartsWord(rest, 0, parts[k].name) && NoDayWord(rest)
    requires forall j | 0 <= j < k :: !StartsWord(rest, 0, parts[j].name)
    requires ValidParts(parts) && now.hour < 24 && now.minute < 60
    ensures var r := NamedWall(rest, parts, now);
            && r.Some? && r.value.Ok? && r.value.value.form.PartOfDay?
            && r.value.value.hour == parts[k].hour && r.value.value.minute == parts[k].minute
            && Soonest(now, r.value.value)
  {
    WithoutDayWord(rest, parts, now);
    PartIsFound(rest, 0, k, parts, now);
    assert parts[0..] == parts && parts[k] in parts;
    ReachedIsSoonest(now, PartOfDay, parts[k].hour, parts[k].minute);
  }

  lemma ReachedIsSoonest(now: Now, form: Form, hour: nat, minute: nat)
    requires hour < 24 && minute < 60 && now.hour < 24 && now.minute < 60
    ensures Soonest(now, Wall(form, now.day + (if Reached(now, hour, minute) then 1 else 0), hour, minute))
  {
  }

  lemma {:induction false} PartIsFound(rest: string, i: nat, k: nat, parts: seq<DayPart>, now: Now)
    requires i <= k < |parts| && StartsWord(rest, 0, parts[k].name)
    requires forall j | i <= j < k :: !StartsWord(rest, 0, parts[j].name)
    ensures PartWall(rest, parts[i..], now)
            == Some(Wall(PartOfDay, now.day + (if Reached(now, parts[k].hour, parts[k].minute) then 1 else 0),
                         parts[k].hour, parts[k].minute))
    decreases k - i
  {
    assert parts[i..][0] == parts[i] && parts[i..][1..] == parts[i + 1..];
    StripExactly(rest, parts[i].name);
    if i < k { PartIsFound(rest, i + 1, k, parts, now); }
  }

  // ── Clock times ───────────────────────────────────────────────────────────

  datatype Half = Morning | Afternoon | Unsaid

  /** Behind the spaces from `from` on stands a word for the half of the day, or none. */
  ghost predicate HalfNamed(s: string, from: nat, half: Half) {
    match half
    case Morning => exists q :: Gap(s, from, q) && MorningAt(s, q)
    case Afternoon => exists q :: Gap(s, from, q) && AfternoonAt(s, q)
    case Unsaid => forall q | Gap(s, from, q) :: !MorningAt(s, q) && !AfternoonAt(s, q)
  }

  predicate MorningAt(s: string, q: nat) {
    StartsWord(s, q, "am") || StartsWord(s, q, "a.m")
  }

  predicate AfternoonAt(s: string, q: nat) {
    StartsWord(s, q, "pm") || StartsWord(s, q, "p.m")
  }

  lemma HalfIsBehindGap(s: string, from: nat, q: nat)
    requires Gap(s, from, q) && (MorningAt(s, q) || AfternoonAt(s, q))
    ensures SkipSpaces(s, from) == q && !(MorningAt(s, q) && AfternoonAt(s, q))
  {
    if MorningAt(s, q) {
      FirstLetter(s, q, "am", "a.m", 'a');
      if AfternoonAt(s, q) { FirstLetter(s, q, "pm", "p.m", 'p'); }
    } else {
      FirstLetter(s, q, "pm", "p.m", 'p');
    }
    GapIsSkipped(s, from, q);
  }

  lemma FirstLetter(s: string, q: nat, u: string, v: string, c: char)
    requires u != "" && v != "" && u[0] == v[0] == c && (StartsWord(s, q, u) || StartsWord(s, q, v))
    ensures q < |s| && s[q] == c
  {
    AtLetter(s, if StartsWord(s, q, u) then u else v, q, 0);
  }

  /** The half that is named is the one the parser sees. */
  lemma HalfIsSeen(s: string, from: nat, half: Half)
    requires from <= |s| && HalfNamed(s, from, half)
    ensures var after := SkipSpaces(s, from);
            (MorningAt(s, after) <==> half.Morning?) && (AfternoonAt(s, after) <==> half.Afternoon?)
  {
    SkippedIsGap(s, from);
    if !half.Unsaid? {
      var q :| Gap(s, from, q) && (if half.Morning? then MorningAt(s, q) else AfternoonAt(s, q));
      HalfIsBehindGap(s, from, q);
    }
  }

  /** A clock time at the front: the digits of the hour, those of the minute behind a colon if
      any, and the half of the day if it is said. */
  ghost predicate ClockText(s: string, hour: string, minute: Option<string>, half: Half) {
    && Whole(s, 0, hour)
    && (minute.None? ==> MinutesBehind(s, |hour|) == None && HalfNamed(s, |hour|, half))
    && (minute.Some? ==>
          && |hour| < |s| && s[|hour|] == ':' && Whole(s, |hour| + 1, minute.value)
          && HalfNamed(s, |hour| + 1 + |minute.value|, half))
  }

  /** The hour of the day that an hour of the clock means. */
  function HourMeant(written: nat, half: Half): nat {
    match half
    case Unsaid => written
    case Morning => if written <= 12 then written % 12 else written
    case Afternoon => if written <= 12 then written % 12 + 12 else written
  }

  /** A clock time means its hour in the half of the day that is said, and its minute, the
      next time they come. A bare hour below thirteen is asked about, in both readings, and
      what no clock shows is no time. */
  lemma ClockMeans(s: string, hour: string, minute: Option<string>, half: Half, now: Now)
    requires ClockText(s, hour, minute, half) && now.hour < 24 && now.minute < 60
    ensures var written := DecimalValue(hour);
            var h, m := HourMeant(written, half), if minute.Some? then DecimalValue(minute.value) else 0;
            var r := ClockWall(s, now);
            if half.Unsaid? && minute.None? && written < 13 then
              r == Some(Err(Ambiguous("by " + Decimal(written), [Decimal(written) + "am", Decimal(written) + "pm"])))
            else if h > 23 || m > 59 then r == None
            else
              && r.Some? && r.value.Ok? && r.value.value.form.Clock? && Soonest(now, r.value.value)
              && r.value.value.hour == h && r.value.value.minute == m
  {
    var written, m := DecimalValue(hour), if minute.Some? then DecimalValue(minute.value) else 0;
    var end := ClockIsRead(s, hour, minute, half);
    HalfIsSeen(s, end, half);
    ClockOf(s, now, written, m, end, minute.Some?, half);
    var h := HourMeant(written, half);
    if h <= 23 && m <= 59 { ReachedIsSoonest(now, Clock, h, m); }
  }

  lemma ClockIsRead(s: string, hour: string, minute: Option<string>, half: Half) returns (end: nat)
    requires ClockText(s, hour, minute, half)
    ensures end <= |s| && HalfNamed(s, end, half)
    ensures ReadClock(s) == Some((DecimalValue(hour), if minute.Some? then DecimalValue(minute.value) else 0, end, minute.Some?))
  {
    WholeIsRead(s, 0, hour);
    var h := ReadNumber(s, 0).value;
    WholeFloor(DecimalValue(hour));
    if minute.Some? {
      WholeIsRead(s, |hour| + 1, minute.value);
      var m := ReadNumber(s, |hour| + 1).value;
      WholeFloor(DecimalValue(minute.value));
      WithMinutes(s, h, m);
      end := m.end;
    } else {
      WithoutMinutes(s, h);
      end := h.end;
    }
  }

  lemma WithoutMinutes(s: string, h: Number)
    requires ReadNumber(s, 0) == Some(h) && h.value.Floor as real == h.value && MinutesBehind(s, h.end) == None
    ensures ReadClock(s) == Some((h.value.Floor, 0, h.end, false))
  {
  }

  lemma WithMinutes(s: string, h: Number, m: Number)
    requires ReadNumber(s, 0) == Some(h) && h.value.Floor as real == h.value
    requires MinutesBehind(s, h.end) == Some(m)
    ensures ReadClock(s) == Some((h.value.Floor, m.value.Floor, m.end, true))
  {
  }

  lemma WholeFloor(n: nat)
    ensures (n as real).Floor == n
  {
  }

  lemma ClockOf(s: string, now: Now, written: nat, minute: nat, end: nat, hasMinutes: bool, half: Half)
    requires end <= |s|
    requires var after := SkipSpaces(s, end);
             (MorningAt(s, after) <==> half.Morning?) && (AfternoonAt(s, after) <==> half.Afternoon?)
    ensures var h := HourMeant(written, half);
            ClockFrom(s, written, minute, end, hasMinutes, now) ==
            if half.Unsaid? && !hasMinutes && written < 13 then
              Some(Err(Ambiguous("by " + Decimal(written), [Decimal(written) + "am", Decimal(written) + "pm"])))
            else if h > 23 || minute > 59 then None
            else Some(Ok(Wall(Clock, now.day + (if Reached(now, h, minute) then 1 else 0), h, minute)))
  {
    MeantHour(written, half);
  }

  lemma MeantHour(written: nat, half: Half)
    ensures var afternoon := if half.Afternoon? && written < 12 then written + 12 else written;
            HourMeant(written, half) == if half.Morning? && afternoon == 12 then 0 else afternoon
  {
  }

  // ── In a message ──────────────────────────────────────────────────────────

  /** The local clock shows the minute of the instant. */
  lemma ClockShows(z: Zone, now: int)
    ensures var n, local := LocalNow(z, now), Local(z, now);
            var minute := (1440 * n.day + 60 * n.hour + n.minute) * MINUTE;
            n.hour < 24 && n.minute < 60 && minute <= local < minute + MINUTE
  {
    var n, local := LocalNow(z, now), Local(z, now);
    var m := (local % DAY) / MINUTE;
    assert local == n.day * DAY + local % DAY && m == 60 * n.hour + n.minute;
    assert m * MINUTE <= local % DAY < (m + 1) * MINUTE;
  }

  /** What stands directly behind a leading "by" is the deadline. */
  lemma BehindBy(rest: string, now: int, z: Zone)
    requires rest != "" && !IsWhitespace(rest[0])
    ensures Named("by " + rest, now, z) == NamedWall(rest, DAY_PARTS, LocalNow(z, now))
  {
    TriggersDoNotEcho();
    ByIsFound(rest, TRIGGERS);
    assert ("by " + rest)[3..] == rest;
  }

  lemma PartsAreWords()
    ensures forall p | p in DAY_PARTS :: p.name != "" && IsAlpha(p.name[0])
  {
    assert forall k | 0 <= k < |DAY_PARTS| :: DAY_PARTS[k].name != "" && IsAlpha(DAY_PARTS[k].name[0]);
  }

  lemma PartsAreSpoken()
    ensures Spoken(DAY_PARTS)
  {
    PartsAreWords();
    WordsAreSpoken(DAY_PARTS);
  }

  lemma WordsAreSpoken(parts: seq<DayPart>)
    requires forall p | p in parts :: p.name != "" && IsAlpha(p.name[0])
    ensures Spoken(parts)
  {
    forall k | 0 <= k < |parts| ensures parts[k].name != "" && !IsWhitespace(parts[k].name[0]) {
      assert parts[k] in parts;
    }
  }

  /** The wall time is the one that the word for a day at the front and the text behind it
      mean. */
  ghost predicate DayMeant(rest: string, now: Now, parts: seq<DayPart>, w: Wall) {
    match w.form
    case Tomorrow =>
      StartsWord(rest, 0, "tomorrow") && w.day == now.day + 1 && TimeMeant(rest, 8, parts, w.hour, w.minute)
    case Today =>
      StartsWord(rest, 0, "today") && w.day == now.day && TimeMeant(rest, 5, parts, w.hour, w.minute)
    case Weekday(k) =>
      && k < 7 && StartsWord(rest, 0, WEEKDAYS[k]) && FirstAfter(now.day, k, w.day)
      && TimeMeant(rest, |WEEKDAYS[k]|, parts, w.hour, w.minute)
    case _ => false
  }

  lemma DayIsMeant(rest: string, parts: seq<DayPart>, now: Now)
    requires !NoDayWord(rest) && Spoken(parts)
    ensures var r := NamedWall(rest, parts, now); r.Some? && r.value.Ok? && DayMeant(rest, now, parts, r.value.value)
  {
    if StartsWord(rest, 0, "tomorrow") {
      TomorrowMeans(rest, parts, now);
    } else if StartsWord(rest, 0, "today") {
      TodayMeans(rest, parts, now);
    } else {
      var k :| 0 <= k < 7 && StartsWord(rest, 0, WEEKDAYS[k]);
      WeekdayMeans(rest, k, parts, now);
    }
  }

  /** A word for a day directly behind a leading "by" sets the deadline. */
  lemma ByDayMeans(rest: string, now: int, z: Zone)
    requires !NoDayWord(rest)
    ensures var r := Named("by " + rest, now, z);
            r.Some? && r.value.Ok? && DayMeant(rest, LocalNow(z, now), DAY_PARTS, r.value.value)
  {
    DayWordIsText(rest);
    BehindBy(rest, now, z);
    PartsAreSpoken();
    DayIsMeant(rest, DAY_PARTS, LocalNow(z, now));
  }

  lemma DayWordIsText(rest: string)
    requires !NoDayWord(rest)
    ensures rest != "" && !IsWhitespace(rest[0])
  {
    DayWordsAreLettered();
    if StartsWord(rest, 0, "tomorrow") {
      AtLetter(rest, "tomorrow", 0, 0);
    } else if StartsWord(rest, 0, "today") {
      AtLetter(rest, "today", 0, 0);
    } else {
      var k :| 0 <= k < 7 && StartsWord(rest, 0, WEEKDAYS[k]);
      WordStartsText(rest, WEEKDAYS[k]);
    }
  }

  lemma WordStartsText(rest: string, w: string)
    requires Lettered(w) && StartsWord(rest, 0, w)
    ensures rest != "" && !IsWhitespace(rest[0])
  {
    AtLetter(rest, w, 0, 0);
  }

  lemma {:induction false} NoPartAtDigit(rest: string, parts: seq<DayPart>, now: Now)
    requires rest != "" && IsDigit(rest[0]) && forall p | p in parts :: p.name != "" && IsAlpha(p.name[0])
    ensures PartWall(rest, parts, now) == None
  {
    if parts != [] {
      assert parts[0] in parts && forall p | p in parts[1..] :: p in parts;
      NotAtOtherLetter(rest, parts[0].name, 0, 0);
      StripExactly(rest, parts[0].name);
      NoPartAtDigit(rest, parts[1..], now);
    }
  }

  lemma DigitIsNoDay(rest: string)
    requires rest != "" && IsDigit(rest[0])
    ensures NoDayWord(rest)
  {
    DayWordsAreLettered();
    NotAtOtherLetter(rest, "tomorrow", 0, 0);
    NotAtOtherLetter(rest, "today", 0, 0);
    forall k | 0 <= k < 7 ensures !StartsWord(rest, 0, WEEKDAYS[k]) { DigitIsNoWord(rest, WEEKDAYS[k]); }
  }

  lemma DigitIsNoWord(rest: string, w: string)
    requires rest != "" && IsDigit(rest[0]) && Lettered(w)
    ensures !StartsWord(rest, 0, w)
  {
    NotAtOtherLetter(rest, w, 0, 0);
  }

  /** A digit at the front is no word for a day and no part of one. */
  lemma DigitIsClock(rest: string, now: Now)
    requires rest != "" && IsDigit(rest[0])
    ensures NamedWall(rest, DAY_PARTS, now) == ClockWall(rest, now)
  {
    DigitIsNoDay(rest);
    PartsAreWords();
    NoPartAtDigit(rest, DAY_PARTS, now);
    WithoutDayWord(rest, DAY_PARTS, now);
  }

  /** "by 3pm": any hour and, directly or behind spaces, a word for the half of the day. */
  lemma ByClockMeans(hour: string, gap: string, word: string, now: int, z: Zone)
    requires hour != "" && Digital(hour) && Gap(gap, 0, |gap|) && (word == "am" || word == "pm")
    ensures var h := HourMeant(DecimalValue(hour), if word == "am" then Morning else Afternoon);
            var r := Named("by " + (hour + gap + word), now, z);
            if h > 23 then r == None
            else
              && r.Some? && r.value.Ok? && r.value.value.form.Clock? && Soonest(LocalNow(z, now), r.value.value)
              && r.value.value.hour == h && r.value.value.minute == 0
  {
    var rest, half := hour + gap + word, if word == "am" then Morning else Afternoon;
    HourIsWritten(hour, gap, word);
    assert rest[0] == hour[0] && hour[0] in hour;
    BehindBy(rest, now, z);
    DigitIsClock(rest, LocalNow(z, now));
    ClockMeans(rest, hour, None, half, LocalNow(z, now));
  }

  lemma HourIsWritten(hour: string, gap: string, word: string)
    requires hour != "" && Digital(hour) && Gap(gap, 0, |gap|) && (word == "am" || word == "pm")
    ensures ClockText(hour + gap + word, hour, None, if word == "am" then Morning else Afternoon)
  {
    var s, end, q := hour + gap + word, |hour|, |hour| + |gap|;
    assert s[0..end] == hour;
    assert s[end] == if gap == "" then word[0] else gap[0];
    forall k | end <= k < q ensures s[k] == ' ' { assert s[k] == gap[k - end]; }
    assert Gap(s, end, q);
    WordInText(hour + gap, word, "");
    assert s == hour + gap + word + "";
    DigitOrSpace(hour, gap);
  }

  lemma DigitOrSpace(hour: string, gap: string)
    requires hour != "" && Digital(hour) && Gap(gap, 0, |gap|)
    ensures !IsAlpha((hour + gap)[|hour + gap| - 1])
  {
    assert hour[|hour| - 1] in hour;
  }
}
