/** Reading caps out of a message: a runnable set of caps, or questions. */
module Caps {
  import opened Prelude
  import opened Text
  import opened SpendScanner
  import opened Deadline
  import opened TimeZone

  // ── Amounts ───────────────────────────────────────────────────────────────

  const UNLIMITED := -1

  predicate Limited(micro: int) {
    micro >= 0
  }

  const I64_MAX := 0x7fff_ffff_ffff_ffff
  const U64_MAX := 0xffff_ffff_ffff_ffff

  /** To the nearest integer, halves away from zero. */
  function Round(x: real): int {
    if x >= 0.0 then (x + 0.5).Floor else -(-x + 0.5).Floor
  }

  /** Micro-dollars, saturating at the bounds of a signed 64-bit integer. */
  function UsdToMicro(usd: real): int {
    var micro := Round(usd * 1_000_000.0);
    if micro > I64_MAX then I64_MAX else if micro < -I64_MAX - 1 then -I64_MAX - 1 else micro
  }

  /** An unsigned 64-bit count from a real. */
  function ToU64(x: real): nat {
    var n := Round(x);
    if n < 0 then 0 else if n > U64_MAX then U64_MAX else n
  }

  // ── Spend ─────────────────────────────────────────────────────────────────

  const NO_SPEND_PHRASES := [
    "don't spend anything", "dont spend anything", "do not spend anything",
    "without spending anything", "spend nothing", "for free", "free of charge", "no money"]

  const UNLIMITED_PHRASES := [
    "unlimited", "no spend limit", "no budget limit", "whatever it costs", "whatever it takes",
    "money is no object", "spare no expense"]

  predicate ContainsAny(s: string, phrases: seq<string>) {
    exists p | p in phrases :: Contains(s, p)
  }

  /** The first of the phrases that `s` contains. */
  function FirstOf(s: string, phrases: seq<string>): (r: Option<string>)
    ensures r.Some? <==> ContainsAny(s, phrases)
  {
    if phrases == [] then None
    else if Contains(s, phrases[0]) then assert phrases[0] in phrases; Some(phrases[0])
    else
      assert forall p | p in phrases :: p == phrases[0] || p in phrases[1..];
      assert forall p | p in phrases[1..] :: p in phrases;
      FirstOf(s, phrases[1..])
  }

  datatype SpendFind = NoSpend | Micro(micro: int) | NoLimit | Unclear(question: Question)

  function Fragment(s: string, a: Amount): string {
    if a.start <= a.end <= |s| then Trim(s[a.start..a.end]) else ""
  }

  function Fragments(s: string, found: seq<Amount>): seq<string> {
    seq(|found|, k requires 0 <= k < |found| => Fragment(s, found[k]))
  }

  function Join(parts: seq<string>, sep: string): string {
    if parts == [] then "" else if |parts| == 1 then parts[0] else parts[0] + sep + Join(parts[1..], sep)
  }

  function SpendOf(lower: string, found: seq<Amount>): SpendFind {
    var nothing := FirstOf(lower, NO_SPEND_PHRASES);
    if nothing.Some? then Unclear(UnusableSpend(nothing.value))
    else if ContainsAny(lower, UNLIMITED_PHRASES) then NoLimit
    else if |found| == 0 then NoSpend
    else if |found| == 1 then
      if found[0].value <= 0.0 then Unclear(UnusableSpend(Fragment(lower, found[0])))
      else Micro(UsdToMicro(found[0].value))
    else Unclear(Question.Ambiguous(Join(Fragments(lower, found), " / "), Fragments(lower, found)))
  }

  // ── Latency ───────────────────────────────────────────────────────────────

  /** A unit word and its length in seconds; the millisecond words are marked by zero. */
  datatype TimeUnit = TimeUnit(word: string, seconds: nat)

  const TIME_UNITS := [
    TimeUnit("milliseconds", 0), TimeUnit("millisecond", 0),
    TimeUnit("seconds", 1), TimeUnit("second", 1), TimeUnit("secs", 1), TimeUnit("sec", 1), TimeUnit("s", 1),
    TimeUnit("minutes", 60), TimeUnit("minute", 60), TimeUnit("mins", 60), TimeUnit("min", 60), TimeUnit("m", 60),
    TimeUnit("hours", 3600), TimeUnit("hour", 3600), TimeUnit("hrs", 3600), TimeUnit("hr", 3600), TimeUnit("h", 3600),
    TimeUnit("days", 86400), TimeUnit("day", 86400), TimeUnit("d", 86400)]

  const LATENCY_TRIGGERS := ["within", "in under", "under", "in less than", "in", "inside"]

  const FILLERS := ["the next ", "next ", "the "]

  function SkipFillers(s: string, i: nat, fillers: seq<string>): (j: nat)
    requires i <= |s|
    ensures i <= j <= |s|
    decreases |fillers|, |s|
  {
    if fillers == [] then i
    else
      SkipFillers(s, if At(s, fillers[0], i) then SkipSpaces(s, i + |fillers[0]|) else i, fillers[1..])
  }

  function LongestUnit(s: string, i: nat, units: seq<TimeUnit>, best: Option<TimeUnit>): Option<TimeUnit>
    decreases |units|, |s|
  {
    if units == [] then best
    else
      var u := units[0];
      LongestUnit(s, i, units[1..],
                  if StartsWord(s, i, u.word) && (best.None? || |u.word| > |best.value.word|) then Some(u) else best)
  }

  /** Milliseconds of a number with a unit. */
  function DurationOf(value: real, u: TimeUnit): Option<nat> {
    if StartsWith(u.word, "millisecond") then Some(ToU64(value * 1000.0) / 1000)
    else MillisOf(InSeconds(value, u))
  }

  function InSeconds(value: real, u: TimeUnit): real {
    value * u.seconds as real
  }

  function MillisOf(seconds: real): Option<nat> {
    if seconds <= 0.0 then None else Some(ToU64(seconds * 1000.0))
  }

  function ReadDuration(s: string, from: nat): Option<nat>
    requires from <= |s|
  {
    ReadDurationBy(s, from, FILLERS, TIME_UNITS)
  }

  function ReadDurationBy(s: string, from: nat, fillers: seq<string>, units: seq<TimeUnit>): Option<nat>
    requires from <= |s|
  {
    match ReadNumber(s, SkipFillers(s, SkipSpaces(s, from), fillers))
    case None => None
    case Some(n) =>
      match LongestUnit(s, SkipSpaces(s, n.end), units, None)
      case None => None
      case Some(u) => DurationOf(n.value, u)
  }

  /** `trigger` stands as a word of its own at `k`. */
  predicate WordAt(s: string, trigger: string, k: nat) {
    At(s, trigger, k) && StandsFree(s, k) && (k + |trigger| >= |s| || !IsAlphanumeric(s[k + |trigger|]))
  }

  /** The duration `read` after the first occurrence of `trigger`, from `search` on, that stands
      as a word and has one. */
  function LatencyAfter(s: string, trigger: string, search: nat, read: nat -> Option<nat>): Option<nat>
    requires trigger != "" && search <= |s|
    decreases |s| - search
  {
    var found := FindFrom(s, trigger, search);
    if found.None? then None
    else
      var after := found.value + |trigger|;
      if WordAt(s, trigger, found.value) && read(after).Some? then read(after)
      else LatencyAfter(s, trigger, after, read)
  }

  /** What is read after the word `trigger` at `k`. */
  function ReadAfter(s: string, trigger: string, read: nat -> Option<nat>, k: nat): Option<nat> {
    if WordAt(s, trigger, k) then read(k + |trigger|) else None
  }

  /** `r` is read after the first standing occurrence from `from` on that has a duration. */
  ghost predicate ReadFirst(s: string, trigger: string, from: nat, read: nat -> Option<nat>, r: Option<nat>) {
    if r.None? then forall k: nat | from <= k :: ReadAfter(s, trigger, read, k).None?
    else
      exists at: nat | from <= at ::
        ReadAfter(s, trigger, read, at) == r && forall k: nat | from <= k < at :: ReadAfter(s, trigger, read, k).None?
  }

  lemma LatencyStep(s: string, trigger: string, search: nat, read: nat -> Option<nat>)
    requires trigger != "" && search <= |s|
    ensures var found := FindFrom(s, trigger, search);
            LatencyAfter(s, trigger, search, read) ==
            if found.None? then None
            else if ReadAfter(s, trigger, read, found.value).Some? then ReadAfter(s, trigger, read, found.value)
            else LatencyAfter(s, trigger, found.value + |trigger|, read)
  {
    FindFromIsFirst(s, trigger, search);
  }

  /** For a trigger that cannot overlap itself, the loop finds that duration. */
  lemma {:induction false} LatencyIsFirst(s: string, trigger: string, search: nat, read: nat -> Option<nat>)
    requires trigger != "" && search <= |s| && NoEcho(trigger)
    ensures ReadFirst(s, trigger, search, read, LatencyAfter(s, trigger, search, read))
    decreases |s| - search
  {
    LatencyStep(s, trigger, search, read);
    FindFromIsFirst(s, trigger, search);
    var found := FindFrom(s, trigger, search);
    if found.Some? && ReadAfter(s, trigger, read, found.value).Some? {
      ReadHere(s, trigger, search, found.value, read);
    } else if found.Some? {
      var next := found.value + |trigger|;
      LatencyIsFirst(s, trigger, next, read);
      NothingReadBetween(s, trigger, search, found.value, read);
      ReadFirstFromBefore(s, trigger, search, next, read, LatencyAfter(s, trigger, next, read));
    }
  }

  lemma ReadHere(s: string, trigger: string, search: nat, at: nat, read: nat -> Option<nat>)
    requires ReadAfter(s, trigger, read, at).Some? && search <= at
    requires forall k | search <= k < at :: !At(s, trigger, k)
    ensures ReadFirst(s, trigger, search, read, ReadAfter(s, trigger, read, at))
  {
    assert forall k: nat | search <= k < at :: ReadAfter(s, trigger, read, k).None?;
  }

  lemma NothingReadBetween(s: string, trigger: string, search: nat, at: nat, read: nat -> Option<nat>)
    requires NoEcho(trigger) && At(s, trigger, at) && ReadAfter(s, trigger, read, at).None? && search <= at
    requires forall k | search <= k < at :: !At(s, trigger, k)
    ensures forall k: nat | search <= k < at + |trigger| :: ReadAfter(s, trigger, read, k).None?
  {
    forall k: nat | search <= k < at + |trigger| ensures ReadAfter(s, trigger, read, k).None? {
      if at < k && At(s, trigger, k) { NoOverlap(s, trigger, at, k); }
    }
  }

  lemma ReadFirstFromBefore(s: string, trigger: string, from: nat, next: nat, read: nat -> Option<nat>, r: Option<nat>)
    requires from <= next && ReadFirst(s, trigger, next, read, r)
    requires forall k: nat | from <= k < next :: ReadAfter(s, trigger, read, k).None?
    ensures ReadFirst(s, trigger, from, read, r)
  {
    if r.Some? {
      var at: nat :| next <= at && ReadAfter(s, trigger, read, at) == r
                     && forall k: nat | next <= k < at :: ReadAfter(s, trigger, read, k).None?;
    }
  }

  function FirstLatency(s: string, triggers: seq<string>, read: nat -> Option<nat>): Option<nat>
    requires forall t | t in triggers :: t != ""
  {
    if triggers == [] then None
    else
      assert triggers[0] in triggers && forall t | t in triggers[1..] :: t in triggers;
      var d := LatencyAfter(s, triggers[0], 0, read);
      if d.Some? then d else FirstLatency(s, triggers[1..], read)
  }

  /** Earlier triggers come first, wherever they stand. */
  ghost predicate ReadByFirst(s: string, triggers: seq<string>, read: nat -> Option<nat>, r: Option<nat>) {
    if r.None? then forall k | 0 <= k < |triggers| :: ReadFirst(s, triggers[k], 0, read, None)
    else
      exists k | 0 <= k < |triggers| ::
        ReadFirst(s, triggers[k], 0, read, r) && forall j | 0 <= j < k :: ReadFirst(s, triggers[j], 0, read, None)
  }

  lemma {:induction false} LatencyIsByFirst(s: string, triggers: seq<string>, read: nat -> Option<nat>)
    requires forall t | t in triggers :: t != "" && NoEcho(t)
    ensures ReadByFirst(s, triggers, read, FirstLatency(s, triggers, read))
  {
    if triggers != [] {
      var more := triggers[1..];
      assert triggers[0] in triggers && forall t | t in more :: t in triggers;
      LatencyIsFirst(s, triggers[0], 0, read);
      if LatencyAfter(s, triggers[0], 0, read).None? {
        LatencyIsByFirst(s, more, read);
        ReadBehind(s, triggers, read, FirstLatency(s, more, read));
      }
    }
  }

  lemma ReadBehind(s: string, triggers: seq<string>, read: nat -> Option<nat>, r: Option<nat>)
    requires triggers != [] && ReadFirst(s, triggers[0], 0, read, None) && ReadByFirst(s, triggers[1..], read, r)
    ensures ReadByFirst(s, triggers, read, r)
  {
    var more := triggers[1..];
    if r.None? {
      NoneRead(s, triggers, read, |more|);
    } else {
      var k :| 0 <= k < |more| && ReadFirst(s, more[k], 0, read, r)
               && forall j | 0 <= j < k :: ReadFirst(s, more[j], 0, read, None);
      NoneRead(s, triggers, read, k);
      assert ReadFirst(s, triggers[k + 1], 0, read, r);
    }
  }

  lemma NoneRead(s: string, triggers: seq<string>, read: nat -> Option<nat>, n: nat)
    requires triggers != [] && ReadFirst(s, triggers[0], 0, read, None) && n < |triggers|
    requires forall j | 0 <= j < n :: ReadFirst(s, triggers[1..][j], 0, read, None)
    ensures forall j | 0 <= j < n + 1 :: ReadFirst(s, triggers[j], 0, read, None)
  {
    forall j | 0 <= j < n + 1 ensures ReadFirst(s, triggers[j], 0, read, None) {
      if j > 0 { assert triggers[1..][j - 1] == triggers[j]; }
    }
  }

  lemma LatencyTriggersDoNotEcho()
    ensures forall t | t in LATENCY_TRIGGERS :: t != "" && NoEcho(t)
  {
    assert NoEcho("within") && NoEcho("in under") && NoEcho("under") && NoEcho("in less than") && NoEcho("in")
           && NoEcho("inside");
  }

  function LatencyOf(lower: string): Option<nat> {
    FirstLatency(lower, LATENCY_TRIGGERS, DurationReader(lower))
  }

  function DurationReader(lower: string): nat -> Option<nat> {
    (i: nat) => if i <= |lower| then ReadDuration(lower, i) else None
  }

  method ParseLatency(lower: string, triggers: seq<string>, read: nat -> Option<nat>) returns (r: Option<nat>)
    requires forall t | t in triggers :: t != ""
    ensures r == FirstLatency(lower, triggers, read)
  {
    for k := 0 to |triggers|
      invariant forall t | t in triggers[k..] :: t in triggers
      invariant FirstLatency(lower, triggers[k..], read) == FirstLatency(lower, triggers, read)
    {
      assert triggers[k] in triggers && forall t | t in triggers[k + 1..] :: t in triggers;
      assert triggers[k..][0] == triggers[k] && triggers[k..][1..] == triggers[k + 1..];
      r := LatencyFrom(lower, triggers[k], read);
      if r.Some? {
        return;
      }
    }
    r := None;
  }

  method LatencyFrom(lower: string, trigger: string, read: nat -> Option<nat>) returns (r: Option<nat>)
    requires trigger != ""
    ensures r == LatencyAfter(lower, trigger, 0, read)
  {
    ghost var whole := LatencyAfter(lower, trigger, 0, read);
    var search := 0;
    while true
      invariant search <= |lower| && LatencyAfter(lower, trigger, search, read) == whole
      decreases |lower| - search
    {
      var at := FindFrom(lower, trigger, search);
      if at.None? {
        return None;
      }
      var after := at.value + |trigger|;
      LatencyStep(lower, trigger, search, read);
      FindFromIsFirst(lower, trigger, search);
      var boundaryBefore := at.value == 0 || !IsAlphanumeric(lower[at.value - 1]);
      var boundaryAfter := after >= |lower| || !IsAlphanumeric(lower[after]);
      if boundaryBefore && boundaryAfter {
        r := read(after);
        if r.Some? {
          return;
        }
      }
      search := after;
    }
  }

  // ── Limits that are not caps ──────────────────────────────────────────────

  const NOUNS := [
    "agents", "agent", "workers", "worker", "subagents", "subagent", "nodes", "node", "tasks", "task",
    "steps", "step", "levels", "level", "calls", "call", "tokens", "token"]

  const LIMIT_TRIGGERS := ["at most", "no more than", "max", "maximum", "up to", "limit of", "no deeper than"]

  /** The forty characters from `after` on. */
  function Window(s: string, after: nat): string
    requires after <= |s|
  {
    s[after..if |s| - after <= 40 then |s| else after + 40]
  }

  /** A limit phrase followed, within forty characters, by a noun that is not a cap. */
  function NounAfter(s: string, trigger: string, search: nat, nouns: seq<string>): Option<Question>
    requires trigger != "" && search <= |s|
    decreases |s| - search
  {
    match FindFrom(s, trigger, search)
    case None => None
    case Some(at) =>
      var after := at + |trigger|;
      if ContainsAny(Window(s, after), nouns) then Some(NotADenomination(Trim(trigger + TrimEnd(Window(s, after)))))
      else NounAfter(s, trigger, after, nouns)
  }

  function FirstNoun(s: string, triggers: seq<string>, nouns: seq<string>): Option<Question>
    requires forall t | t in triggers :: t != ""
  {
    if triggers == [] then None
    else
      assert triggers[0] in triggers && forall t | t in triggers[1..] :: t in triggers;
      var q := NounAfter(s, triggers[0], 0, nouns);
      if q.Some? then q else FirstNoun(s, triggers[1..], nouns)
  }

  function NonDenomination(lower: string): Option<Question> {
    var q := FirstNoun(lower, LIMIT_TRIGGERS, NOUNS);
    if q.Some? then q
    else if Contains(lower, "depth") || Contains(lower, "levels deep") then Some(NotADenomination("depth"))
    else None
  }

  // ── The whole parse ───────────────────────────────────────────────────────

  datatype RequestedCaps = RequestedCaps(spend: Option<int>, latency: Option<nat>, due: Option<int>) {
    predicate Any() {
      spend.Some? || latency.Some? || due.Some?
    }

    function Validate(): Option<Refusal> {
      if spend.Some? && Limited(spend.value) && spend.value <= 0 then Some(SpendNotPositive)
      else if !Any() then Some(Uncapped)
      else None
    }
  }

  datatype Refusal = Uncapped | SpendNotPositive

  datatype Disclosure =
    | DeadlineResolvedIn(at: int, local: int)
    | DueHasNoUpstreamFlag(resolved: int, equivalentLatency: nat)

  datatype CapsParse =
    | Parsed(caps: RequestedCaps, disclosures: seq<Disclosure>)
    | Ask(questions: seq<Question>)

  predicate Ascii(s: string) {
    forall c | c in s :: c as int < 128
  }

  function Ahead(due: int, now: int): nat {
    if due < now then 0 else due - now
  }

  /** Reads the caps of a message; ASCII text only, since the gateway slices at byte
      offsets. */
  method ParseCaps(text: string, now: int, z: Zone) returns (r: CapsParse)
    requires Ascii(text)
    ensures r == CapsOf(text, now, z)
  {
    var lower := Lower(text);
    var amounts := FindSpendAmounts(lower);
    var latency := ParseLatency(lower, LATENCY_TRIGGERS, DurationReader(lower));
    r := Combine(text, SpendOf(lower, amounts), latency, ParseDue(lower, now, z), NonDenomination(lower), now, z);
  }

  /** Collects what was found, and asks when anything needs answering. */
  method Combine(text: string, spendFind: SpendFind, latency: Option<nat>, dueFind: Option<Result<int, Question>>,
                 other: Option<Question>, now: int, z: Zone)
    returns (r: CapsParse)
    ensures r == Combined(text, spendFind, latency, dueFind, other, now, z)
  {
    var spend: Option<int> := None;
    var due: Option<int> := None;
    var disclosures: seq<Disclosure> := [];
    var questions: seq<Question> := [];
    match spendFind {
      case NoSpend =>
      case Micro(micro) => spend := Some(micro);
      case NoLimit => spend := Some(UNLIMITED);
      case Unclear(q) => questions := questions + [q];
    }
    match dueFind {
      case Some(Ok(instant)) =>
        due := Some(instant);
        disclosures := disclosures + [DeadlineResolvedIn(instant, Local(z, instant))];
      case Some(Err(q)) => questions := questions + [q];
      case None =>
    }
    if other.Some? {
      questions := questions + [other.value];
    }
    if due.Some? {
      disclosures := disclosures + [DueHasNoUpstreamFlag(due.value, Ahead(due.value, now))];
    }
    if questions != [] {
      return Ask(questions);
    }
    var caps := RequestedCaps(spend, latency, due);
    match caps.Validate()
    case None => return Parsed(caps, disclosures);
    case Some(Uncapped) => return Ask([NoCapFound]);
    case Some(SpendNotPositive) => return Ask([UnusableSpend(Trim(text))]);
  }

  function Combined(text: string, spend: SpendFind, latency: Option<nat>, due: Option<Result<int, Question>>,
                    other: Option<Question>, now: int, z: Zone): CapsParse
  {
    var questions :=
      (if spend.Unclear? then [spend.question] else [])
      + (if due.Some? && due.value.Err? then [due.value.error] else [])
      + (if other.Some? then [other.value] else []);
    var caps := RequestedCaps(
                  match spend case Micro(m) => Some(m) case NoLimit => Some(UNLIMITED) case _ => None,
                  latency,
                  if due.Some? && due.value.Ok? then Some(due.value.value) else None);
    var disclosures :=
      if caps.due.None? then []
      else [DeadlineResolvedIn(caps.due.value, Local(z, caps.due.value)),
            DueHasNoUpstreamFlag(caps.due.value, Ahead(caps.due.value, now))];
    if questions != [] then Ask(questions)
    else
      match caps.Validate()
      case None => Parsed(caps, disclosures)
      case Some(Uncapped) => Ask([NoCapFound])
      case Some(SpendNotPositive) => Ask([UnusableSpend(Trim(text))])
  }

  function CapsOf(text: string, now: int, z: Zone): CapsParse {
    var lower := Lower(text);
    Combined(text, SpendOf(lower, Scan(lower, 0)), LatencyOf(lower), ParseDue(lower, now, z),
             NonDenomination(lower), now, z)
  }

  // ── The main results ──────────────────────────────────────────────────────

  lemma PositiveAmountsRoundToNonNegative(usd: real)
    requires usd > 0.0
    ensures 0 <= UsdToMicro(usd) <= I64_MAX
  {
  }

  /** Every parse is runnable or asks: caps hold at least one cap and a spend, if any,
      that is "no limit" or at least one micro-dollar even after rounding; a refusal to
      parse carries a question. */
  lemma EveryParseIsRunnableOrAsks(text: string, now: int, z: Zone)
    ensures match CapsOf(text, now, z)
            case Parsed(caps, _) =>
              caps.Any() && (caps.spend.Some? ==> caps.spend.value == UNLIMITED || caps.spend.value >= 1)
            case Ask(questions) => questions != []
  {
    var lower := Lower(text);
    var found := Scan(lower, 0);
    if |found| == 1 && found[0].value > 0.0 { PositiveAmountsRoundToNonNegative(found[0].value); }
  }

  /** A spend cap is never invented: it is the one amount of the message, positive and
      rounded, or an explicit wish for no limit. */
  lemma SpendIsWhatWasWritten(text: string, now: int, z: Zone)
    ensures var p, lower := CapsOf(text, now, z), Lower(text);
            var found := Scan(lower, 0);
            p.Parsed? && p.caps.spend.Some? ==>
              if p.caps.spend.value == UNLIMITED then ContainsAny(lower, UNLIMITED_PHRASES)
              else
                && !ContainsAny(lower, UNLIMITED_PHRASES)
                && |found| == 1 && found[0].value > 0.0 && p.caps.spend.value == UsdToMicro(found[0].value)
  {
    var found := Scan(Lower(text), 0);
    if |found| == 1 && found[0].value > 0.0 { PositiveAmountsRoundToNonNegative(found[0].value); }
  }

  /** And a wish for no limit is never lost: a parse that holds one spends without limit. */
  lemma WishIsHeard(text: string, now: int, z: Zone)
    ensures var p := CapsOf(text, now, z);
            p.Parsed? && ContainsAny(Lower(text), UNLIMITED_PHRASES) ==> p.caps.spend == Some(UNLIMITED)
  {
  }

  /** Two `$` amounts and no wish for no limit always end in a question. */
  lemma TwoDollarAmountsAsk(text: string, now: int, z: Zone)
    requires |DollarsFrom(Lower(text), 0)| >= 2 && !ContainsAny(Lower(text), UNLIMITED_PHRASES)
    ensures CapsOf(text, now, z).Ask?
  {
    var lower := Lower(text);
    DollarsAreReportedOnce(lower, 0);
    AtLeastTheDollars(Scan(lower, 0));
  }

  /** A deadline in a parse comes with both disclosures. In a zone that only jumps forward
      the latency put in its place is positive unless "today" was named. */
  lemma DeadlinesAreDisclosed(text: string, now: int, z: Zone)
    ensures var p, named := CapsOf(text, now, z), Named(Lower(text), now, z);
            p.Parsed? && p.caps.due.Some? ==>
              && named.Some? && named.value.Ok? && p.caps.due == Resolve(z, named.value.value.At())
              && p.disclosures == [DeadlineResolvedIn(p.caps.due.value, Local(z, p.caps.due.value)),
                                   DueHasNoUpstreamFlag(p.caps.due.value, Ahead(p.caps.due.value, now))]
              && (ForwardOnly(z) && !named.value.value.form.Today? ==>
                    Ahead(p.caps.due.value, now) == p.caps.due.value - now > 0)
  {
    var p, named := CapsOf(text, now, z), Named(Lower(text), now, z);
    if p.Parsed? && p.caps.due.Some? && ForwardOnly(z) {
      DeadlinesAreAhead(Lower(text), now, z, named.value.value);
    }
  }

  // ── Latencies too short to count ──────────────────────────────────────────

  /** Less than half a millisecond; for the millisecond words, less than one, rounded. */
  predicate TooShort(value: real, u: TimeUnit) {
    if StartsWith(u.word, "millisecond") then value * 1000.0 < 999.5
    else InSeconds(value, u) * 1000.0 < 0.5
  }

  lemma ZeroDurationExactly(value: real, u: TimeUnit)
    requires value >= 0.0 && DurationOf(value, u).Some?
    ensures DurationOf(value, u) == Some(0) <==> TooShort(value, u)
  {
    if !StartsWith(u.word, "millisecond") { ZeroMillisExactly(InSeconds(value, u)); }
  }

  lemma ZeroMillisExactly(seconds: real)
    requires MillisOf(seconds).Some?
    ensures MillisOf(seconds) == Some(0) <==> seconds * 1000.0 < 0.5
  {
  }

  /** The number and unit written at `from` are too short. */
  predicate TooShortAt(s: string, from: nat) {
    from <= |s| &&
    var n := ReadNumber(s, SkipFillers(s, SkipSpaces(s, from), FILLERS));
    n.Some? &&
    var u := LongestUnit(s, SkipSpaces(s, n.value.end), TIME_UNITS, None);
    u.Some? && TooShort(n.value.value, u.value)
  }

  lemma ZeroReadExactly(s: string, from: nat)
    requires from <= |s| && ReadDuration(s, from).Some?
    ensures ReadDuration(s, from).value > 0 <==> !TooShortAt(s, from)
  {
    var n := ReadNumber(s, SkipFillers(s, SkipSpaces(s, from), FILLERS)).value;
    ZeroDurationExactly(n.value, LongestUnit(s, SkipSpaces(s, n.end), TIME_UNITS, None).value);
  }

  function ShortReader(lower: string): nat -> bool {
    (i: nat) => TooShortAt(lower, i)
  }

  /** The readings are positive exactly where nothing too short is written. */
  ghost predicate TellsZero(read: nat -> Option<nat>, short: nat -> bool) {
    forall i :: read(i).Some? ==> (read(i).value > 0 <==> !short(i))
  }

  lemma ReaderTellsZero(lower: string)
    ensures TellsZero(DurationReader(lower), ShortReader(lower))
  {
    forall i: nat | DurationReader(lower)(i).Some?
      ensures DurationReader(lower)(i).value > 0 <==> !ShortReader(lower)(i)
    {
      ZeroReadExactly(lower, i);
    }
  }

  /** The latency stands after one of the triggers. */
  ghost predicate StandsAfter(lower: string, triggers: seq<string>, read: nat -> Option<nat>, short: nat -> bool,
                              latency: Option<nat>)
    requires latency.Some?
  {
    exists k: nat, at: nat | k < |triggers| ::
      && ReadAfter(lower, triggers[k], read, at) == latency
      && (latency.value > 0 <==> !short(at + |triggers[k]|))
  }

  /** A latency cap of a message is the duration after one of its triggers, and positive
      exactly when that duration is not too short. */
  lemma LatencyIsPositiveExactly(text: string, now: int, z: Zone)
    requires CapsOf(text, now, z).Parsed? && CapsOf(text, now, z).caps.latency.Some?
    ensures var lower, latency := Lower(text), CapsOf(text, now, z).caps.latency;
            StandsAfter(lower, LATENCY_TRIGGERS, DurationReader(lower), ShortReader(lower), latency)
  {
    var lower := Lower(text);
    LatencyTriggersDoNotEcho();
    LatencyIsByFirst(lower, LATENCY_TRIGGERS, DurationReader(lower));
    ReaderTellsZero(lower);
    DurationFound(lower, LATENCY_TRIGGERS, DurationReader(lower), ShortReader(lower), LatencyOf(lower));
  }

  lemma DurationFound(lower: string, triggers: seq<string>, read: nat -> Option<nat>, short: nat -> bool,
                      latency: Option<nat>)
    requires latency.Some? && ReadByFirst(lower, triggers, read, latency) && TellsZero(read, short)
    ensures StandsAfter(lower, triggers, read, short, latency)
  {
    var k: nat :| k < |triggers| && ReadFirst(lower, triggers[k], 0, read, latency);
    var at: nat :| ReadAfter(lower, triggers[k], read, at) == latency;
  }

  /** "within 0 milliseconds", letter by letter. */
  predicate WithinZero(s: string) {
    |s| == 21 && At(s, "within", 0) && s[6] == ' ' && s[7] == '0' && s[8] == ' ' && At(s, "milliseconds", 9)
  }

  lemma ZeroIsWritten(s: string)
    ensures WithinZero(s) <==> s == "within 0 milliseconds"
  {
    assert "within 0 milliseconds" == "within" + " 0 " + "milliseconds";
    if WithinZero(s) { assert s == s[0..6] + [s[6], s[7], s[8]] + s[9..21]; }
    if s == "within" + " 0 " + "milliseconds" { assert s[0..6] == "within" && s[9..21] == "milliseconds"; }
  }

  /** That message asks for a cap of zero, which further on means that none is set. */
  lemma ZeroMillisecondsIsZero(s: string)
    requires WithinZero(s)
    ensures LatencyOf(s) == Some(0)
  {
    LatencyTriggersDoNotEcho();
    UnitsAreShort();
    ZeroIsRead(s, FILLERS, TIME_UNITS);
    ZeroIsLatency(s, LATENCY_TRIGGERS, DurationReader(s));
  }

  lemma ZeroIsLatency(s: string, triggers: seq<string>, read: nat -> Option<nat>)
    requires WithinZero(s) && triggers != [] && triggers[0] == "within" && forall t | t in triggers :: t != ""
    requires read(6).Some?
    ensures FirstLatency(s, triggers, read) == read(6)
  {
    assert s[0..] == s && s[..6] == s[0..6];
    assert FindFrom(s, "within", 0) == Some(0);
  }

  lemma UnitsAreShort()
    ensures forall f | f in FILLERS :: f != "" && !IsDigit(f[0])
    ensures TIME_UNITS[0] == TimeUnit("milliseconds", 0) && forall u | u in TIME_UNITS :: |u.word| <= 12
  {
    assert forall k | 0 <= k < |TIME_UNITS| :: |TIME_UNITS[k].word| <= 12;
  }

  lemma ZeroIsRead(s: string, fillers: seq<string>, units: seq<TimeUnit>)
    requires WithinZero(s) && forall f | f in fillers :: f != "" && !IsDigit(f[0])
    requires units != [] && units[0] == TimeUnit("milliseconds", 0) && forall u | u in units :: |u.word| <= 12
    ensures ReadDurationBy(s, 6, fillers, units) == Some(0)
  {
    NoFillerHere(s, 7, fillers);
    ZeroIsNumber(s);
    MillisecondsIsLongest(s, 9, units);
    assert SkipSpaces(s, 6) == 7 && SkipSpaces(s, 8) == 9;
    assert DurationOf(0.0, units[0]) == Some(0) by { assert "milliseconds"[..11] == "millisecond"; }
  }

  lemma ZeroIsNumber(s: string)
    requires WithinZero(s)
    ensures ReadNumber(s, 7) == Some(Number(0.0, 8))
  {
    assert NumberEnd(s, 7, false) == 8 && s[7..8] == "0";
    assert CutOnce("0", ".").None? by { assert "0"[1..] == ""; }
    assert Digits("0") == 0 by { assert "0"[..0] == ""; }
  }

  lemma {:induction false} NoFillerHere(s: string, i: nat, fillers: seq<string>)
    requires i < |s| && IsDigit(s[i]) && forall f | f in fillers :: f != "" && !IsDigit(f[0])
    ensures SkipFillers(s, i, fillers) == i
    decreases fillers
  {
    if fillers != [] {
      assert fillers[0] in fillers && forall f | f in fillers[1..] :: f in fillers;
      if i + |fillers[0]| <= |s| { assert s[i..i + |fillers[0]|][0] == s[i]; }
      NoFillerHere(s, i, fillers[1..]);
    }
  }

  lemma MillisecondsIsLongest(s: string, i: nat, units: seq<TimeUnit>)
    requires At(s, "milliseconds", i) && i + 12 == |s| && i > 0 && s[i - 1] == ' '
    requires units != [] && units[0].word == "milliseconds" && forall u | u in units :: |u.word| <= 12
    ensures LongestUnit(s, i, units, None) == Some(units[0])
  {
    assert forall u | u in units[1..] :: u in units;
    LongestStays(s, i, units[1..], units[0]);
  }

  lemma {:induction false} LongestStays(s: string, i: nat, units: seq<TimeUnit>, best: TimeUnit)
    requires forall u | u in units :: |u.word| <= |best.word|
    ensures LongestUnit(s, i, units, Some(best)) == Some(best)
  {
    if units != [] {
      assert units[0] in units && forall u | u in units[1..] :: u in units;
      LongestStays(s, i, units[1..], best);
    }
  }
}
