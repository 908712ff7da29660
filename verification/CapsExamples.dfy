/** Two messages read in full: a latency of zero, and a deadline nobody hears. */
module CapsExamples {
  import opened Prelude
  import opened Text
  import opened SpendScanner
  import opened Amounts
  import opened Deadline
  import opened TimeZone
  import opened Caps

  // ── Phrases a message cannot hold ─────────────────────────────────────────

  /** Every phrase has a letter, the one listed beside it, that the message lacks. */
  predicate LacksEach(s: string, phrases: seq<string>, letters: string) {
    |letters| == |phrases| && forall k | 0 <= k < |phrases| :: letters[k] in phrases[k] && letters[k] !in s
  }

  lemma NotContained(s: string, phrase: string, letter: char)
    requires letter in phrase && letter !in s
    ensures !Contains(s, phrase) && phrase != ""
  {
    var k :| 0 <= k < |phrase| && phrase[k] == letter;
    forall at: nat ensures !At(s, phrase, at) {
      if at + k < |s| {
        assert s[at + k] in s;
        NotAtOtherLetter(s, phrase, at, k);
      }
    }
  }

  lemma NoPhrase(s: string, phrases: seq<string>, letters: string)
    requires LacksEach(s, phrases, letters)
    ensures !ContainsAny(s, phrases)
  {
    forall p | p in phrases ensures !Contains(s, p) {
      var k :| 0 <= k < |phrases| && phrases[k] == p;
      NotContained(s, p, letters[k]);
    }
  }

  lemma LacksRest(s: string, phrases: seq<string>, letters: string)
    requires LacksEach(s, phrases, letters) && phrases != []
    ensures !Contains(s, phrases[0]) && LacksEach(s, phrases[1..], letters[1..])
    ensures FindFrom(s, phrases[0], 0).None?
  {
    NotContained(s, phrases[0], letters[0]);
    assert s[0..] == s;
  }

  lemma {:induction false} NoTriggerFound(s: string, triggers: seq<string>, letters: string)
    requires LacksEach(s, triggers, letters) && forall t | t in triggers :: t != ""
    ensures FindByTrigger(s, triggers) == None
  {
    if triggers != [] {
      assert forall t | t in triggers[1..] :: t in triggers;
      LacksRest(s, triggers, letters);
      NoTriggerFound(s, triggers[1..], letters[1..]);
    }
  }

  lemma {:induction false} NoLatencyRead(s: string, triggers: seq<string>, letters: string, read: nat -> Option<nat>)
    requires LacksEach(s, triggers, letters) && forall t | t in triggers :: t != ""
    ensures FirstLatency(s, triggers, read) == None
  {
    if triggers != [] {
      assert forall t | t in triggers[1..] :: t in triggers;
      LacksRest(s, triggers, letters);
      NoLatencyRead(s, triggers[1..], letters[1..], read);
    }
  }

  lemma {:induction false} NoNounFound(s: string, triggers: seq<string>, letters: string, nouns: seq<string>)
    requires LacksEach(s, triggers, letters) && forall t | t in triggers :: t != ""
    ensures FirstNoun(s, triggers, nouns) == None
  {
    if triggers != [] {
      assert forall t | t in triggers[1..] :: t in triggers;
      LacksRest(s, triggers, letters);
      NoNounFound(s, triggers[1..], letters[1..], nouns);
    }
  }

  // ── Numbers without a unit ────────────────────────────────────────────────

  lemma {:induction false} NoUnitHere(s: string, i: nat, units: seq<string>)
    requires i < |s| && forall u | u in units :: u != "" && u[0] != s[i]
    ensures UnitAt(s, i, units) == None
  {
    if units != [] {
      assert units[0] in units && forall u | u in units[1..] :: u in units;
      NotAtOtherLetter(s, units[0], i, 0);
      NoUnitHere(s, i, units[1..]);
    }
  }

  // ── "within 0 milliseconds" ───────────────────────────────────────────────

  /** The message is accepted, with a latency cap of zero and no question. */
  lemma ZeroLatencyIsAccepted(text: string, now: int, z: Zone)
    requires WithinZero(text)
    ensures CapsOf(text, now, z) == Parsed(RequestedCaps(None, Some(0), None), [])
  {
    ZeroIsLower(text);
    ZeroHasNoAmount(text);
    ZeroMillisecondsIsZero(text);
    ZeroSaysNothingElse(text, now, z);
  }

  lemma ZeroLetters(s: string)
    requires WithinZero(s)
    ensures s == "within 0 milliseconds"
    ensures forall c | c in "abfpuvy" :: c !in s
  {
    ZeroIsWritten(s);
  }

  lemma ZeroIsLower(s: string)
    requires WithinZero(s)
    ensures Lower(s) == s
  {
    ZeroLetters(s);
    assert forall k | 0 <= k < |s| :: LowerChar(s[k]) == s[k];
  }

  lemma ZeroHasNoAmount(s: string)
    requires WithinZero(s)
    ensures Scan(s, 0) == []
  {
    ZeroLetters(s);
    assert forall k | 0 <= k < 7 || 8 <= k < |s| :: Quiet(s, k);
    QuietStretch(s, 0, 7);
    ZeroIsNoAmount(s);
    ScanOnce(s, 7);
    QuietStretch(s, 8, |s|);
  }

  lemma ZeroIsNoAmount(s: string)
    requires WithinZero(s)
    ensures Step(s, 7) == (None, 8)
  {
    UnitsStart();
    ZeroHasNoUnit(s, UNITS);
    NotAtOtherLetter(s, "usd", 7, 0);
  }

  lemma UnitsStart()
    ensures forall u | u in UNITS :: u != "" && u[0] in "dub"
  {
  }

  lemma ZeroHasNoUnit(s: string, units: seq<string>)
    requires WithinZero(s) && forall u | u in units :: u != "" && u[0] in "dub"
    ensures NumberAmount(s, 7, units) == (None, 8)
  {
    ZeroIsNumber(s);
    AtLetter(s, "milliseconds", 9, 0);
    assert SkipSpaces(s, 8) == 9;
    NoUnitHere(s, 9, units);
  }

  lemma ZeroSaysNothingElse(s: string, now: int, z: Zone)
    requires WithinZero(s)
    ensures SpendOf(s, []) == NoSpend && ParseDue(s, now, z) == None && NonDenomination(s) == None
  {
    ZeroLetters(s);
    ZeroSpendsNothing(s);
    TriggersDoNotEcho();
    NoTriggerFound(s, TRIGGERS, "ybuab");
    ZeroLimitsNothing(s);
  }

  lemma ZeroSpendsNothing(s: string)
    requires forall c | c in "abfpuvy" :: c !in s
    ensures SpendOf(s, []) == NoSpend
  {
    NoPhrase(s, NO_SPEND_PHRASES, "pppupffy");
    NoPhrase(s, UNLIMITED_PHRASES, "upbaayp");
  }

  lemma ZeroLimitsNothing(s: string)
    requires forall c | c in "abfpuvy" :: c !in s
    ensures NonDenomination(s) == None
  {
    NoNounFound(s, LIMIT_TRIGGERS, "aaaaufp", NOUNS);
    NotContained(s, "depth", 'p');
    NotContained(s, "levels deep", 'p');
  }

  // ── "by hand, $5, due sunday" ─────────────────────────────────────────────

  /** The message, piece by piece. */
  predicate ByHand(s: string) {
    && |s| == 23 && s[..3] == "by " && s[3..7] == "hand" && s[7..9] == ", " && s[9] == '$' && s[10] == '5'
    && s[11..13] == ", " && s[13..17] == "due " && s[17..] == "sunday"
  }

  lemma ByHandIsWritten(s: string)
    ensures ByHand(s) <==> s == "by hand, $5, due sunday"
  {
    assert "by " + "hand" + ", " + "$5" + ", " + "due " + "sunday" == "by hand, $5, due sunday";
    if ByHand(s) {
      Pieces(s, "by ", "hand", ", ", "$5", ", ", "due ", "sunday");
    }
    if s == "by hand, $5, due sunday" {
      assert s[..3] == "by " && s[3..7] == "hand" && s[7..9] == ", ";
      assert s[11..13] == ", " && s[13..17] == "due " && s[17..] == "sunday";
    }
  }

  lemma Pieces(s: string, a: string, b: string, c: string, d: string, e: string, f: string, g: string)
    requires |s| == 23 && s[..3] == a && s[3..7] == b && s[7..9] == c && [s[9], s[10]] == d
    requires s[11..13] == e && s[13..17] == f && s[17..] == g
    ensures s == a + b + c + d + e + f + g
  {
    assert s[..3] + s[3..7] == s[..7] && s[..7] + s[7..9] == s[..9] && s[..9] + [s[9], s[10]] == s[..11];
    assert s[..11] + s[11..13] == s[..13] && s[..13] + s[13..17] == s[..17] && s[..17] + s[17..] == s;
  }

  /** The message is accepted with its spend cap alone: "by hand" takes the place of the
      deadline, and the "due sunday" that stands free behind it is neither heard nor asked
      about. */
  lemma DeadlineBehindIsDropped(text: string, now: int, z: Zone)
    requires ByHand(text)
    ensures CapsOf(text, now, z) == Parsed(RequestedCaps(Some(5_000_000), None, None), [])
    ensures FreeAt(Lower(text), "due ", 13) && NamedAfter(Lower(text), 17, now, z).Some?
  {
    HandIsLower(text);
    HandHasOneAmount(text);
    HandLetters(text);
    HandSpends(text, Scan(text, 0));
    HandSaysNothingElse(text);
    HandNamesNothing(text, now, z);
    SundayIsNamed(text, now, z);
    OneSpend(text, now, z, Scan(text, 0), 5_000_000);
  }

  lemma OneSpend(text: string, now: int, z: Zone, found: seq<Amount>, micro: int)
    requires Lower(text) == text && Scan(text, 0) == found && SpendOf(text, found) == Micro(micro) && micro > 0
    requires LatencyOf(text) == None && ParseDue(text, now, z) == None && NonDenomination(text) == None
    ensures CapsOf(text, now, z) == Parsed(RequestedCaps(Some(micro), None, None), [])
  {
  }

  lemma HandLetters(s: string)
    requires ByHand(s)
    ensures forall c | c in "tpfmlir" :: c !in s
  {
    ByHandIsWritten(s);
    LettersOf(s);
  }

  lemma LettersOf(s: string)
    requires s == "by hand, $5, due sunday"
    ensures forall c | c in "tpfmlir" :: c !in s
    ensures forall c | c in s :: c in "byhand, $5ues"
  {
    assert forall c | c in s :: c in "byhand, $5ues";
  }

  lemma HandIsLower(s: string)
    requires ByHand(s)
    ensures Lower(s) == s
  {
    ByHandIsWritten(s);
    LettersOf(s);
    LowerStays(s, "byhand, $5ues");
  }

  lemma LowerStays(s: string, letters: string)
    requires (forall c | c in s :: c in letters) && forall c | c in letters :: LowerChar(c) == c
    ensures Lower(s) == s
  {
    forall k | 0 <= k < |s| ensures Lower(s)[k] == s[k] { assert s[k] in s; }
  }

  lemma HandIsQuiet(s: string)
    requires ByHand(s)
    ensures forall k | 0 <= k < 9 || 11 <= k < |s| :: Quiet(s, k)
  {
    ByHandIsWritten(s);
  }

  lemma HandHasOneAmount(s: string)
    requires ByHand(s)
    ensures Scan(s, 0) == [Amount(Dollar, 9, 9, 11, 5.0)]
  {
    HandIsQuiet(s);
    QuietStretch(s, 0, 9);
    QuietStretch(s, 11, |s|);
    FiveIsRead(s);
    OneAmount(s, 9, 11, Amount(Dollar, 9, 9, 11, 5.0));
  }

  lemma FiveIsRead(s: string)
    requires ByHand(s)
    ensures Step(s, 9) == (Some(Amount(Dollar, 9, 9, 11, 5.0)), 11)
  {
    assert s[7..9][0] == s[7] && s[7..9][1] == s[8] && s[11..13][0] == s[11];
    assert SkipSpaces(s, 10) == 10 && NumberEnd(s, 10, false) == 11 && s[10..11] == "5";
    FiveIsFive();
    assert !PrecedingMinus(s, 9) by { assert !PrecedingMinus(s, 8); }
  }

  lemma FiveIsFive()
    ensures Reading("5") == 5.0
  {
    assert CutOnce("5", ".").None? by { assert "5"[1..] == ""; }
    assert Digits("5") == 5 by { assert "5"[..0] == ""; }
  }

  lemma HandSpends(s: string, found: seq<Amount>)
    requires (forall c | c in "tpfmlir" :: c !in s) && |found| == 1 && found[0].value == 5.0
    ensures SpendOf(s, found) == Micro(5_000_000)
  {
    NoPhrase(s, NO_SPEND_PHRASES, "ttttpffm");
    NoPhrase(s, UNLIMITED_PHRASES, "lllttmp");
  }

  lemma HandSaysNothingElse(s: string)
    requires forall c | c in "tpfmlir" :: c !in s
    ensures LatencyOf(s) == None && NonDenomination(s) == None
  {
    LatencyTriggersDoNotEcho();
    NoLatencyRead(s, LATENCY_TRIGGERS, "tiriii", DurationReader(s));
    NoNounFound(s, LIMIT_TRIGGERS, "ttmmtlt", NOUNS);
    NotContained(s, "depth", 'p');
    NotContained(s, "levels deep", 'l');
  }

  lemma HandNamesNothing(s: string, now: int, z: Zone)
    requires ByHand(s)
    ensures ParseDue(s, now, z) == None
  {
    var rest := s[3..];
    assert s == s[..3] + rest && s[3..7][0] == s[3];
    ByIsFound(rest, TRIGGERS);
    TriggersDoNotEcho();
    assert rest[0] == 'h' && Text.TrimStart(rest) == rest;
    HIsNoDay(rest, DAY_PARTS, LocalNow(z, now));
  }

  /** No word for a day and no time of day begins with an h. */
  lemma HIsNoDay(rest: string, parts: seq<DayPart>, now: Now)
    requires rest != "" && rest[0] == 'h' && parts == DAY_PARTS
    ensures NamedWall(rest, parts, now) == None
  {
    OtherWord(rest, "tomorrow");
    OtherWord(rest, "today");
    NoWeekday(rest, 0, parts, now);
    PartsStartOtherwise();
    NoPart(rest, parts, now);
    ReadableExactly(rest, 0);
  }

  lemma OtherWord(rest: string, word: string)
    requires rest != "" && word != "" && rest[0] != word[0]
    ensures StripPrefixWord(rest, word) == None
  {
    NotAtOtherLetter(rest, word, 0, 0);
    assert |word| <= |rest| ==> rest[0..|word|] == rest[..|word|];
  }

  lemma {:induction false} NoWeekday(rest: string, index: nat, parts: seq<DayPart>, now: Now)
    requires rest != "" && rest[0] == 'h' && index <= 7
    ensures WeekdayWall(rest, index, parts, now) == None
    decreases 7 - index
  {
    if index < 7 {
      assert WEEKDAYS[index] != "" && WEEKDAYS[index][0] != 'h';
      OtherWord(rest, WEEKDAYS[index]);
      NoWeekday(rest, index + 1, parts, now);
    }
  }

  lemma PartsStartOtherwise()
    ensures forall p | p in DAY_PARTS :: p.name != "" && p.name[0] != 'h'
  {
    assert forall k | 0 <= k < |DAY_PARTS| :: DAY_PARTS[k].name != "" && DAY_PARTS[k].name[0] != 'h';
  }

  lemma {:induction false} NoPart(rest: string, parts: seq<DayPart>, now: Now)
    requires rest != "" && rest[0] == 'h' && forall p | p in parts :: p.name != "" && p.name[0] != 'h'
    ensures PartWall(rest, parts, now) == None
  {
    if parts != [] {
      assert parts[0] in parts && forall p | p in parts[1..] :: p in parts;
      OtherWord(rest, parts[0].name);
      NoPart(rest, parts[1..], now);
    }
  }

  lemma SundayIsNamed(s: string, now: int, z: Zone)
    requires ByHand(s)
    ensures FreeAt(s, "due ", 13) && NamedAfter(s, 17, now, z).Some?
  {
    assert Text.TrimStart("sunday") == "sunday";
    SundayWall(DAY_PARTS, LocalNow(z, now));
  }

  lemma SundayWall(parts: seq<DayPart>, now: Now)
    ensures NamedWall("sunday", parts, now).Some?
  {
    OtherWord("sunday", "tomorrow");
    OtherWord("sunday", "today");
    assert StripPrefixWord("sunday", "sunday") == Some("") by {
      assert "sunday"[..6] == "sunday" && "sunday"[6..] == "";
    }
    assert WeekdayWall("sunday", 6, parts, now).Some?;
    SomeWeekday("sunday", 0, 6, parts, now);
  }

  lemma {:induction false} SomeWeekday(rest: string, i: nat, j: nat, parts: seq<DayPart>, now: Now)
    requires i <= j <= 7 && WeekdayWall(rest, j, parts, now).Some?
    ensures WeekdayWall(rest, i, parts, now).Some?
    decreases j - i
  {
    if i < j { SomeWeekday(rest, i + 1, j, parts, now); }
  }
}
