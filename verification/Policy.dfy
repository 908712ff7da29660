/** Operator policy: what of a sender's requested caps is granted, and what is disclosed.
    Amounts are micro-dollars, latencies milliseconds, deadlines instants. */
module Policy {
  import opened Prelude
  import opened Scope
  import opened Text
  import Caps
  import TimeZone

  datatype Denomination = Spend | Latency | Due {
    function Code(): string {
      match this
      case Spend => "spend"
      case Latency => "latency"
      case Due => "due"
    }
  }

  datatype Adjustment =
    | Reduced(about: Denomination, requested: int, granted: int)
    | Defaulted(about: Denomination, granted: int)
    | NotPermitted(about: Denomination, requested: int, instead: Option<int>)

  datatype Entry = Entry(
    allowed: seq<string>,
    maxSpend: Option<int>,
    defaultSpend: Option<int>,
    maxLatencySeconds: Option<nat>,
    defaultLatencySeconds: Option<nat>,
    allowUnlimited: bool,
    onOverLimit: string,
    scopeTags: seq<Tag>)
  {
    predicate Permits(d: Denomination) {
      d.Code() in allowed
    }

    function Default(d: Denomination): Option<int> {
      match d
      case Spend => defaultSpend
      case Latency => Millis(defaultLatencySeconds)
      case Due => None
    }

    /** The maximum that binds, if any. */
    function Maximum(d: Denomination): Option<int> {
      match d
      case Spend => if maxSpend.Some? && Caps.Limited(maxSpend.value) then maxSpend else None
      case Latency => Millis(maxLatencySeconds)
      case Due => None
    }
  }

  function Millis(seconds: Option<nat>): Option<int> {
    match seconds
    case None => None
    case Some(s) => Some(1000 * s)
  }

  datatype Config = Config(default: Option<Entry>, channels: map<string, Entry>, senders: map<string, Entry>)

  type Requested = Caps.RequestedCaps

  function Asked(req: Requested, d: Denomination): Option<int> {
    match d
    case Spend => req.spend
    case Latency => if req.latency.Some? then Some(req.latency.value) else None
    case Due => req.due
  }

  datatype Grant = Grant(
    spend: Option<int>, latency: Option<nat>, due: Option<int>,
    scope: seq<Tag>, adjustments: seq<Adjustment>)
  {
    predicate AnyCap() {
      spend.Some? || latency.Some? || due.Some?
    }

    function Granted(d: Denomination): Option<int> {
      match d
      case Spend => spend
      case Latency => if latency.Some? then Some(latency.value) else None
      case Due => due
    }

    /** The grant asked for again. */
    function AsRequest(): Requested {
      Caps.RequestedCaps(spend, latency, due)
    }
  }

  datatype Refusal =
    | NoPolicy
    | OverLimit(about: Denomination, requested: int, maximum: int)
    | UnlimitedForbidden
    | NoCapGranted
    | BadScope(error: ScopeError)

  /** The most specific entry, taken whole: sender, then channel, then default. */
  function EntryFor(config: Config, user: string, channel: string): Option<Entry> {
    if user in config.senders then Some(config.senders[user])
    else if channel in config.channels then Some(config.channels[channel])
    else config.default
  }

  // ── The decision as a function ────────────────────────────────────────────

  datatype Settled = Settled(cap: Option<int>, notes: seq<Adjustment>) | Refused(refusal: Refusal)

  /** One denomination with a maximum and a default. */
  function Settle(e: Entry, d: Denomination, asked: Option<int>): Settled {
    match asked
    case None =>
      (match e.Default(d)
       case None => Settled(None, [])
       case Some(v) => Settled(Some(v), [Defaulted(d, v)]))
    case Some(a) =>
      if !e.Permits(d) then
        match e.Default(d)
        case None => Settled(None, [])
        case Some(v) => Settled(Some(v), [NotPermitted(d, a, Some(v))])
      else if d.Spend? && !Caps.Limited(a) then
        if e.allowUnlimited then Settled(Some(Caps.UNLIMITED), []) else Refused(UnlimitedForbidden)
      else
        match e.Maximum(d)
        case None => Settled(Some(a), [])
        case Some(m) =>
          if a <= m then Settled(Some(a), [])
          else if e.onOverLimit == "reduce" then Settled(Some(m), [Reduced(d, a, m)])
          else Refused(OverLimit(d, a, m))
  }

  function SettleDue(e: Entry, asked: Option<int>): Settled {
    match asked
    case None => Settled(None, [])
    case Some(a) => if e.Permits(Due) then Settled(asked, []) else Settled(None, [NotPermitted(Due, a, None)])
  }

  function AsNat(v: Option<int>): Option<nat> {
    match v
    case None => None
    case Some(x) => if x < 0 then None else Some(x)
  }

  function Resolution(config: Config, user: string, channel: string, req: Requested): Result<Grant, Refusal> {
    var found := EntryFor(config, user, channel);
    if found.None? then Err(NoPolicy)
    else
      var e := found.value;
      var spend, latency, due := Settle(e, Spend, req.spend), Settle(e, Latency, Asked(req, Latency)), SettleDue(e, req.due);
      var scope := MintResult(SenderTags(user, channel, e.scopeTags));
      if spend.Refused? then Err(spend.refusal)
      else if latency.Refused? then Err(latency.refusal)
      else if scope.Err? then Err(BadScope(scope.error))
      else
        var grant := Grant(spend.cap, AsNat(latency.cap), due.cap, scope.value, spend.notes + latency.notes + due.notes);
        if grant.AnyCap() then Ok(grant) else Err(NoCapGranted)
  }

  // ── The decision as the gateway takes it ───────────────────────────────────

  method ResolveSpend(entry: Entry, requested: Option<int>) returns (r: Settled)
    ensures r == Settle(entry, Spend, requested)
  {
    var adjustments: seq<Adjustment> := [];
    var spend: Option<int> := None;
    if requested.Some? {
      var asked := requested.value;
      if "spend" !in entry.allowed {
        if entry.defaultSpend.Some? {
          adjustments := adjustments + [NotPermitted(Spend, asked, entry.defaultSpend)];
          spend := entry.defaultSpend;
        }
      } else if !Caps.Limited(asked) {
        if !entry.allowUnlimited {
          return Refused(UnlimitedForbidden);
        }
        spend := Some(Caps.UNLIMITED);
      } else if entry.maxSpend.Some? {
        var max := entry.maxSpend.value;
        if Caps.Limited(max) && asked > max {
          if entry.onOverLimit != "reduce" {
            return Refused(OverLimit(Spend, asked, max));
          }
          adjustments := adjustments + [Reduced(Spend, asked, max)];
          spend := Some(max);
        } else {
          spend := Some(asked);
        }
      } else {
        spend := Some(asked);
      }
    } else if entry.defaultSpend.Some? {
      adjustments := adjustments + [Defaulted(Spend, entry.defaultSpend.value)];
      spend := entry.defaultSpend;
    }
    r := Settled(spend, adjustments);
  }

  method ResolveLatency(entry: Entry, requested: Option<int>) returns (r: Settled)
    ensures r == Settle(entry, Latency, requested)
  {
    var adjustments: seq<Adjustment> := [];
    var latency: Option<int> := None;
    var max, default := Millis(entry.maxLatencySeconds), Millis(entry.defaultLatencySeconds);
    if requested.Some? {
      var asked := requested.value;
      if "latency" !in entry.allowed {
        if default.Some? {
          adjustments := adjustments + [NotPermitted(Latency, asked, default)];
          latency := default;
        }
      } else if max.Some? && asked > max.value {
        if entry.onOverLimit != "reduce" {
          return Refused(OverLimit(Latency, asked, max.value));
        }
        adjustments := adjustments + [Reduced(Latency, asked, max.value)];
        latency := max;
      } else {
        latency := Some(asked);
      }
    } else if default.Some? {
      adjustments := adjustments + [Defaulted(Latency, default.value)];
      latency := default;
    }
    r := Settled(latency, adjustments);
  }

  method Resolve(config: Config, user: string, channel: string, req: Requested) returns (r: Result<Grant, Refusal>)
    ensures r == Resolution(config, user, channel, req)
  {
    var found := EntryFor(config, user, channel);
    if found.None? {
      return Err(NoPolicy);
    }
    var entry := found.value;
    var spend := ResolveSpend(entry, req.spend);
    if spend.Refused? {
      return Err(spend.refusal);
    }
    var latency := ResolveLatency(entry, Asked(req, Latency));
    if latency.Refused? {
      return Err(latency.refusal);
    }
    var adjustments := spend.notes + latency.notes;
    var due: Option<int> := None;
    if req.due.Some? {
      if "due" in entry.allowed {
        due := req.due;
      } else {
        adjustments := adjustments + [NotPermitted(Due, req.due.value, None)];
      }
    }
    assert adjustments == spend.notes + latency.notes + SettleDue(entry, req.due).notes;
    var scope := MintScope(user, channel, entry.scopeTags);
    if scope.Err? {
      return Err(BadScope(scope.error));
    }
    var grant := Grant(spend.cap, AsNat(latency.cap), due, scope.value, adjustments);
    if !grant.AnyCap() {
      return Err(NoCapGranted);
    }
    r := Ok(grant);
  }

  // ── Disclosure ────────────────────────────────────────────────────────────

  function About(notes: seq<Adjustment>, d: Denomination): seq<Adjustment> {
    if notes == [] then []
    else (if notes[0].about == d then [notes[0]] else []) + About(notes[1..], d)
  }

  /** What asking for an amount means: any negative spend asks for no limit. */
  function Meant(d: Denomination, asked: Option<int>): Option<int> {
    if d.Spend? && asked.Some? && !Caps.Limited(asked.value) then Some(Caps.UNLIMITED) else asked
  }

  /** The entry would grant the amount to whoever may ask for it. */
  predicate Allows(e: Entry, d: Denomination, v: int) {
    if d.Spend? && !Caps.Limited(v) then v == Caps.UNLIMITED && e.allowUnlimited
    else e.Maximum(d).Some? ==> v <= e.Maximum(d).value
  }

  /** A cap and its records tell the sender the whole story: without a record the cap is what
      was asked, permitted and within the maximum, or none where there is none to give; a
      record names the true amounts and the reason. */
  ghost predicate Accounted(e: Entry, d: Denomination, asked: Option<int>, cap: Option<int>, notes: seq<Adjustment>) {
    if notes == [] then
      if asked.Some? && e.Permits(d) then cap == Meant(d, asked) && Allows(e, d, cap.value)
      else cap.None? && e.Default(d).None?
    else
      && |notes| == 1
      && match notes[0]
         case Reduced(_, a, g) =>
           e.Permits(d) && e.onOverLimit == "reduce" && asked == Some(a) && cap == Some(g) == e.Maximum(d) && a > g
         case Defaulted(_, g) => asked.None? && cap == Some(g) == e.Default(d)
         case NotPermitted(_, a, g) => asked == Some(a) && !e.Permits(d) && cap == g == e.Default(d)
  }

  lemma {:induction false} AboutAppend(x: seq<Adjustment>, y: seq<Adjustment>, d: Denomination)
    ensures About(x + y, d) == About(x, d) + About(y, d)
  {
    if x == [] {
      assert x + y == y;
    } else {
      AboutAppend(x[1..], y, d);
      assert (x + y)[1..] == x[1..] + y;
      var head := if x[0].about == d then [x[0]] else [];
      assert head + (About(x[1..], d) + About(y, d)) == (head + About(x[1..], d)) + About(y, d);
    }
  }

  lemma AboutOne(notes: seq<Adjustment>, from: Denomination, d: Denomination)
    requires |notes| <= 1 && forall n | n in notes :: n.about == from
    ensures About(notes, d) == if d == from then notes else []
  {
    if notes != [] { assert notes[0] in notes && notes[1..] == []; }
  }

  lemma SettlingAccounts(e: Entry, d: Denomination, asked: Option<int>)
    requires !d.Due? && Settle(e, d, asked).Settled?
    ensures var s := Settle(e, d, asked);
            && Accounted(e, d, asked, s.cap, s.notes)
            && |s.notes| <= 1 && forall n | n in s.notes :: n.about == d
  {
  }

  /** Every granted cap is what was asked, or is explained by exactly one record naming
      the true amounts; the only unrecorded change is dropping a forbidden cap that has
      no default. A grant always holds a cap. */
  lemma EveryGrantIsAccountedFor(config: Config, user: string, channel: string, req: Requested, d: Denomination)
    requires Resolution(config, user, channel, req).Ok?
    ensures var g := Resolution(config, user, channel, req).value;
            && g.AnyCap()
            && Accounted(EntryFor(config, user, channel).value, d, Asked(req, d), g.Granted(d), About(g.adjustments, d))
  {
    var e := EntryFor(config, user, channel).value;
    var s, l, u := Settle(e, Spend, req.spend), Settle(e, Latency, Asked(req, Latency)), SettleDue(e, req.due);
    SettlingAccounts(e, Spend, req.spend);
    SettlingAccounts(e, Latency, Asked(req, Latency));
    AboutThree(s.notes, l.notes, u.notes, d);
    GrantShape(config, user, channel, req);
    match d
    case Spend =>
    case Latency =>
    case Due =>
  }

  lemma LatencyIsCount(e: Entry, req: Requested)
    ensures var l := Settle(e, Latency, Asked(req, Latency)); l.Settled? && l.cap.Some? ==> l.cap.value >= 0
    ensures SettleDue(e, req.due).Settled?
  {
  }

  lemma GrantShape(config: Config, user: string, channel: string, req: Requested)
    requires Resolution(config, user, channel, req).Ok?
    ensures var e, g := EntryFor(config, user, channel).value, Resolution(config, user, channel, req).value;
            var s, l, u := Settle(e, Spend, req.spend), Settle(e, Latency, Asked(req, Latency)), SettleDue(e, req.due);
            && s.Settled? && l.Settled? && u.Settled?
            && g.Granted(Spend) == s.cap && g.Granted(Latency) == l.cap && g.Granted(Due) == u.cap
            && g.adjustments == s.notes + l.notes + u.notes && g.AnyCap()
  {
    LatencyIsCount(EntryFor(config, user, channel).value, req);
    GrantFields(config, user, channel, req);
  }

  lemma GrantFields(config: Config, user: string, channel: string, req: Requested)
    requires Resolution(config, user, channel, req).Ok?
    ensures var e, g := EntryFor(config, user, channel).value, Resolution(config, user, channel, req).value;
            var s, l, u := Settle(e, Spend, req.spend), Settle(e, Latency, Asked(req, Latency)), SettleDue(e, req.due);
            && s.Settled? && l.Settled? && u.Settled?
            && g.spend == s.cap && g.latency == AsNat(l.cap) && g.due == u.cap
            && g.adjustments == s.notes + l.notes + u.notes && g.AnyCap()
  {
  }

  lemma AboutThree(s: seq<Adjustment>, l: seq<Adjustment>, u: seq<Adjustment>, d: Denomination)
    requires |s| <= 1 && |l| <= 1 && |u| <= 1
    requires forall n | n in s :: n.about == Spend
    requires forall n | n in l :: n.about == Latency
    requires forall n | n in u :: n.about == Due
    ensures About(s + l + u, d) == match d case Spend => s case Latency => l case Due => u
  {
    AboutAppend(s + l, u, d);
    AboutAppend(s, l, d);
    AboutOne(s, Spend, d);
    AboutOne(l, Latency, d);
    AboutOne(u, Due, d);
  }

  // ── Which entry decides, and what is refused ──────────────────────────────

  /** The entry alone, for everyone. */
  function Only(e: Option<Entry>): Config {
    Config(e, map[], map[])
  }

  /** A sender's entry decides whatever the channel and the default say, a channel's whatever
      the default says. */
  lemma MostSpecificDecides(config: Config, user: string, channel: string, req: Requested)
    ensures Resolution(config, user, channel, req) == Resolution(
              if user in config.senders then Only(Some(config.senders[user]))
              else if channel in config.channels then Only(Some(config.channels[channel]))
              else Only(config.default),
              user, channel, req)
  {
  }

  /** The sender wishes for no limit on spending, which only they may not. */
  predicate WishIsForbidden(e: Entry, asked: Option<int>) {
    "spend" in e.allowed && asked.Some? && asked.value < 0 && !e.allowUnlimited
  }

  /** More than the maximum is asked for by one who may ask, and the entry does not reduce. */
  predicate TooMuch(e: Entry, d: Denomination, asked: Option<int>) {
    && d.Code() in e.allowed && asked.Some? && (d.Spend? ==> asked.value >= 0)
    && e.Maximum(d).Some? && asked.value > e.Maximum(d).value && e.onOverLimit != "reduce"
  }

  /** Nothing is asked for that may be asked for, and there is no default. */
  predicate GivesNothing(e: Entry, d: Denomination, asked: Option<int>) {
    (asked.None? || d.Code() !in e.allowed) && e.Default(d).None?
  }

  /** A request is refused exactly for the first of these reasons that applies. */
  lemma RefusedExactly(config: Config, user: string, channel: string, req: Requested)
    ensures var r, found := Resolution(config, user, channel, req), EntryFor(config, user, channel);
            if found.None? then r == Err(NoPolicy)
            else
              var e := found.value;
              var scope := MintResult(SenderTags(user, channel, e.scopeTags));
              if WishIsForbidden(e, req.spend) then r == Err(UnlimitedForbidden)
              else if TooMuch(e, Spend, req.spend) then
                r == Err(OverLimit(Spend, req.spend.value, e.Maximum(Spend).value))
              else if TooMuch(e, Latency, Asked(req, Latency)) then
                r == Err(OverLimit(Latency, req.latency.value, e.Maximum(Latency).value))
              else if scope.Err? then r == Err(BadScope(scope.error))
              else if forall d :: GivesNothing(e, d, Asked(req, d)) then r == Err(NoCapGranted)
              else r.Ok?
  {
    var found := EntryFor(config, user, channel);
    if found.Some? {
      var e := found.value;
      LatencyIsCount(e, req);
      SpendIsSettled(e, req.spend);
      LatencyIsSettled(e, Asked(req, Latency));
      assert SettleDue(e, req.due).cap.None? <==> GivesNothing(e, Due, req.due);
      EachIsEmpty(e, req);
    }
  }

  lemma EachIsEmpty(e: Entry, req: Requested)
    ensures (forall d :: GivesNothing(e, d, Asked(req, d))) <==>
            GivesNothing(e, Spend, req.spend) && GivesNothing(e, Latency, Asked(req, Latency)) && GivesNothing(e, Due, req.due)
  {
    assert Asked(req, Spend) == req.spend && Asked(req, Due) == req.due;
  }

  lemma SpendIsSettled(e: Entry, asked: Option<int>)
    ensures var s := Settle(e, Spend, asked);
            && (s == Refused(UnlimitedForbidden) <==> WishIsForbidden(e, asked))
            && (TooMuch(e, Spend, asked) ==> s == Refused(OverLimit(Spend, asked.value, e.Maximum(Spend).value)))
            && (s.Refused? <==> WishIsForbidden(e, asked) || TooMuch(e, Spend, asked))
            && (s.Settled? ==> (s.cap.None? <==> GivesNothing(e, Spend, asked)))
  {
  }

  lemma LatencyIsSettled(e: Entry, asked: Option<int>)
    ensures var s := Settle(e, Latency, asked);
            && (TooMuch(e, Latency, asked) ==> s == Refused(OverLimit(Latency, asked.value, e.Maximum(Latency).value)))
            && (s.Refused? <==> TooMuch(e, Latency, asked))
            && (s.Settled? ==> (s.cap.None? <==> GivesNothing(e, Latency, asked)))
  {
  }

  // ── What the maximum does and does not bound ──────────────────────────────

  /** A granted spend respects a binding maximum except in exactly two ways: a permitted
      request for no limit at all, and an operator default that breaks the maximum. */
  lemma SpendStaysWithinMaximum(config: Config, user: string, channel: string, req: Requested)
    requires Resolution(config, user, channel, req).Ok?
    requires EntryFor(config, user, channel).value.Maximum(Spend).Some?
    ensures var e, g := EntryFor(config, user, channel).value, Resolution(config, user, channel, req).value;
            var within := g.spend.None? || 0 <= g.spend.value <= e.maxSpend.value;
            var asksNoLimit := e.Permits(Spend) && req.spend.Some? && req.spend.value < 0;
            var takesDefault := e.defaultSpend.Some? && (req.spend.None? || !e.Permits(Spend));
            within <==> !asksNoLimit && !(takesDefault && !(0 <= e.defaultSpend.value <= e.maxSpend.value))
  {
  }

  /** A granted latency respects the maximum unless a default that breaks it was taken. */
  lemma LatencyStaysWithinMaximum(config: Config, user: string, channel: string, req: Requested)
    requires Resolution(config, user, channel, req).Ok?
    requires EntryFor(config, user, channel).value.maxLatencySeconds.Some?
    ensures var e, g := EntryFor(config, user, channel).value, Resolution(config, user, channel, req).value;
            var within := g.latency.None? || g.latency.value <= 1000 * e.maxLatencySeconds.value;
            var takesDefault := e.defaultLatencySeconds.Some? && (req.latency.None? || !e.Permits(Latency));
            within <==> !(takesDefault && e.defaultLatencySeconds.value > e.maxLatencySeconds.value)
  {
    GrantShape(config, user, channel, req);
    LatencySettlesWithin(EntryFor(config, user, channel).value, Asked(req, Latency));
  }

  lemma LatencySettlesWithin(e: Entry, asked: Option<int>)
    requires e.maxLatencySeconds.Some? && Settle(e, Latency, asked).Settled?
    ensures var cap := Settle(e, Latency, asked).cap;
            var takesDefault := e.defaultLatencySeconds.Some? && (asked.None? || !e.Permits(Latency));
            (cap.None? || cap.value <= 1000 * e.maxLatencySeconds.value)
            <==> !(takesDefault && e.defaultLatencySeconds.value > e.maxLatencySeconds.value)
  {
  }

  /** A configuration of one entry that permits spend up to five micro-dollars. */
  function FiveAtMost(default: Option<int>, unlimited: bool): Config {
    Config(Some(Entry(["spend"], Some(5), default, None, None, unlimited, "refuse", [])), map[], map[])
  }

  /** Both ways past a maximum: a permitted wish for no limit, and a default above it, which
      the sender could then not ask for. */
  lemma MaximumsCanBePassed(user: string, channel: string)
    requires CleanText(user) && CleanText(channel)
    ensures var noLimit := Resolution(FiveAtMost(None, true), user, channel,
                                      Caps.RequestedCaps(Some(Caps.UNLIMITED), None, None));
            noLimit.Ok? && noLimit.value.spend == Some(Caps.UNLIMITED)
    ensures var byDefault := Resolution(FiveAtMost(Some(9), false), user, channel, Caps.RequestedCaps(None, None, None));
            && byDefault.Ok? && byDefault.value.spend == Some(9)
            && Resolution(FiveAtMost(Some(9), false), user, channel, byDefault.value.AsRequest())
               == Err(OverLimit(Spend, 9, 5))
  {
    CleanSenderIsMinted(user, channel);
    assert "spend" in ["spend"];
  }

  /** A default that the entry would itself grant when asked for it. */
  predicate DefaultIsGrantable(e: Entry, d: Denomination) {
    e.Default(d).Some? ==> Allows(e, d, e.Default(d).value)
  }

  /** Asking again for exactly what was granted grants the same caps, unless a cap the
      sender may set came from a default the entry would not grant on request. */
  lemma GrantIsStable(config: Config, user: string, channel: string, req: Requested)
    requires Resolution(config, user, channel, req).Ok?
    ensures var e, g := EntryFor(config, user, channel).value, Resolution(config, user, channel, req).value;
            var again := Resolution(config, user, channel, g.AsRequest());
            (again.Ok? && again.value.AsRequest() == g.AsRequest()) <==>
            forall d :: e.Permits(d) && Asked(req, d).None? ==> DefaultIsGrantable(e, d)
  {
    var e, g := EntryFor(config, user, channel).value, Resolution(config, user, channel, req).value;
    GrantShape(config, user, channel, req);
    AskedAgain(config, user, channel, req);
    StableSpend(e, req.spend);
    StableLatency(e, req.latency);
    assert DefaultIsGrantable(e, Due);
  }

  lemma AskedAgain(config: Config, user: string, channel: string, req: Requested)
    requires Resolution(config, user, channel, req).Ok?
    ensures var e, g := EntryFor(config, user, channel).value, Resolution(config, user, channel, req).value;
            var again := Resolution(config, user, channel, g.AsRequest());
            (again.Ok? && again.value.AsRequest() == g.AsRequest()) <==>
            Again(e, Spend, g.spend) && Again(e, Latency, g.Granted(Latency))
  {
    GrantFields(config, user, channel, req);
    LatencyIsCount(EntryFor(config, user, channel).value, req);
  }

  predicate Again(e: Entry, d: Denomination, cap: Option<int>) {
    Settle(e, d, cap).Settled? && Settle(e, d, cap).cap == cap
  }

  lemma StableSpend(e: Entry, asked: Option<int>)
    requires Settle(e, Spend, asked).Settled?
    ensures Again(e, Spend, Settle(e, Spend, asked).cap)
            <==> (e.Permits(Spend) && asked.None? ==> DefaultIsGrantable(e, Spend))
  {
  }

  lemma StableLatency(e: Entry, asked: Option<nat>)
    requires Settle(e, Latency, asked).Settled?
    ensures Again(e, Latency, Settle(e, Latency, asked).cap)
            <==> (e.Permits(Latency) && asked.None? ==> DefaultIsGrantable(e, Latency))
  {
  }

  // ── From the message to the grant ─────────────────────────────────────────

  /** The operator's default is taken in place of what was asked. */
  predicate TakesDefault(e: Entry, d: Denomination, req: Requested) {
    e.Default(d).Some? && (Asked(req, d).None? || !e.Permits(d))
  }

  /** A message is granted spending without limit exactly when it says so in so many words and
      the entry permits spend, which it then must without limit, or when the operator's
      default is unlimited and is taken. */
  lemma NoLimitTakesWordsOrDefault(text: string, now: int, z: TimeZone.Zone, config: Config, user: string, channel: string)
    ensures var parse := Caps.CapsOf(text, now, z);
            parse.Parsed? && Resolution(config, user, channel, parse.caps).Ok? ==>
              var e, g := EntryFor(config, user, channel).value, Resolution(config, user, channel, parse.caps).value;
              var noLimit := g.spend.Some? && !Caps.Limited(g.spend.value);
              noLimit <==>
                || (Caps.ContainsAny(Lower(text), Caps.UNLIMITED_PHRASES) && e.Permits(Spend) && e.allowUnlimited)
                || (TakesDefault(e, Spend, parse.caps) && !Caps.Limited(e.defaultSpend.value))
  {
    var parse := Caps.CapsOf(text, now, z);
    if parse.Parsed? && Resolution(config, user, channel, parse.caps).Ok? {
      WordsAskForNoLimit(text, now, z);
      NoLimitGranted(config, user, channel, parse.caps);
    }
  }

  lemma WordsAskForNoLimit(text: string, now: int, z: TimeZone.Zone)
    ensures var parse := Caps.CapsOf(text, now, z);
            parse.Parsed? ==>
              && (parse.caps.spend == Some(Caps.UNLIMITED) <==> Caps.ContainsAny(Lower(text), Caps.UNLIMITED_PHRASES))
              && (parse.caps.spend.Some? && parse.caps.spend.value != Caps.UNLIMITED ==> parse.caps.spend.value >= 1)
  {
    Caps.SpendIsWhatWasWritten(text, now, z);
    Caps.EveryParseIsRunnableOrAsks(text, now, z);
    Caps.WishIsHeard(text, now, z);
  }

  lemma NoLimitGranted(config: Config, user: string, channel: string, req: Requested)
    requires Resolution(config, user, channel, req).Ok?
    ensures var e, g := EntryFor(config, user, channel).value, Resolution(config, user, channel, req).value;
            (g.spend.Some? && !Caps.Limited(g.spend.value)) <==>
              || (req.spend.Some? && !Caps.Limited(req.spend.value) && e.Permits(Spend) && e.allowUnlimited)
              || (TakesDefault(e, Spend, req) && !Caps.Limited(e.defaultSpend.value))
  {
  }

  /** A permitted, limited spend is granted in full without a record or reduced with one,
      never raised. */
  lemma NamedSpendIsGranted(config: Config, user: string, channel: string, req: Requested)
    requires Resolution(config, user, channel, req).Ok? && EntryFor(config, user, channel).value.Permits(Spend)
    requires req.spend.Some? && Caps.Limited(req.spend.value)
    ensures var g := Resolution(config, user, channel, req).value;
            && g.spend.Some? && 0 <= g.spend.value <= req.spend.value
            && (g.spend == req.spend <==> About(g.adjustments, Spend) == [])
  {
    EveryGrantIsAccountedFor(config, user, channel, req, Spend);
    assert Resolution(config, user, channel, req).value.Granted(Spend) == Resolution(config, user, channel, req).value.spend;
  }

  /** Where the entry permits spend, a limited spend named in a message is granted within the
      one amount written there, rounded. */
  lemma GrantNeverExceedsWhatWasWritten(text: string, now: int, z: TimeZone.Zone, config: Config, user: string, channel: string)
    ensures var parse := Caps.CapsOf(text, now, z);
            var found := Caps.SpendScanner.Scan(Lower(text), 0);
            parse.Parsed? && Resolution(config, user, channel, parse.caps).Ok?
            && EntryFor(config, user, channel).value.Permits(Spend)
            && parse.caps.spend.Some? && parse.caps.spend.value != Caps.UNLIMITED ==>
              var g := Resolution(config, user, channel, parse.caps).value;
              |found| == 1 && g.spend.Some? && 0 <= g.spend.value <= Caps.UsdToMicro(found[0].value)
  {
    var parse := Caps.CapsOf(text, now, z);
    Caps.SpendIsWhatWasWritten(text, now, z);
    WordsAskForNoLimit(text, now, z);
    if && parse.Parsed? && Resolution(config, user, channel, parse.caps).Ok?
       && EntryFor(config, user, channel).value.Permits(Spend)
       && parse.caps.spend.Some? && parse.caps.spend.value != Caps.UNLIMITED {
      NamedSpendIsGranted(config, user, channel, parse.caps);
    }
  }

  // ── Grants and scopes ─────────────────────────────────────────────────────

  /** Two grants whose scopes have equal keys went to the same user on the same channel,
      under whatever configurations and for whatever requests. */
  lemma EqualScopeKeysMeanSameSender(c1: Config, u1: string, ch1: string, r1: Requested,
                                     c2: Config, u2: string, ch2: string, r2: Requested)
    requires Resolution(c1, u1, ch1, r1).Ok? && Resolution(c2, u2, ch2, r2).Ok?
    requires KeyText(Resolution(c1, u1, ch1, r1).value.scope) == KeyText(Resolution(c2, u2, ch2, r2).value.scope)
    ensures u1 == u2 && ch1 == ch2
  {
    EqualKeysMeanSameSender(u1, ch1, EntryFor(c1, u1, ch1).value.scopeTags,
                            u2, ch2, EntryFor(c2, u2, ch2).value.scopeTags);
  }
}
