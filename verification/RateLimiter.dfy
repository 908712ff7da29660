/** The per-user rate limiter, and what it promises over whole runs of calls. */
module RateLimiter {
  import opened Prelude

  datatype Config = Config(enabled: bool, perWindow: nat, window: nat)

  /** What the table holds for one user. */
  datatype Entry = Entry(count: nat, start: nat)

  /** The three clock readings one call may make: when it creates a missing entry, when
      it measures the elapsed time, and when it restarts the window. */
  datatype Clock = Clock(entered: nat, checked: nat, reset: nat)

  function Elapsed(now: nat, start: nat): nat {
    if now < start then 0 else now - start
  }

  function Current(e: Option<Entry>, clock: Clock): Entry {
    match e
    case None => Entry(0, clock.entered)
    case Some(x) => x
  }

  predicate Restarts(e: Option<Entry>, cfg: Config, clock: Clock) {
    Elapsed(clock.checked, Current(e, clock).start) >= cfg.window
  }

  /** One enabled call, as seen by its user's entry. */
  function Decide(e: Option<Entry>, cfg: Config, clock: Clock): (Entry, bool) {
    var cur := Current(e, clock);
    if Restarts(e, cfg, clock) then (Entry(1, clock.reset), true)
    else if cur.count >= cfg.perWindow then (cur, false)
    else (Entry(cur.count + 1, cur.start), true)
  }

  type Table = map<string, Entry>

  function Lookup(t: Table, user: string): Option<Entry> {
    if user in t then Some(t[user]) else None
  }

  class Limiter {
    var limits: Table

    constructor ()
      ensures limits == map[]
    {
      limits := map[];
    }

    method CheckAndRecord(user: string, cfg: Config, clock: Clock) returns (allowed: bool)
      modifies this
      ensures !cfg.enabled ==> allowed && limits == old(limits)
      ensures cfg.enabled ==>
                && allowed == Decide(old(Lookup(limits, user)), cfg, clock).1
                && limits == old(limits)[user := Decide(old(Lookup(limits, user)), cfg, clock).0]
    {
      if !cfg.enabled {
        return true;
      }
      if user !in limits {
        limits := limits[user := Entry(0, clock.entered)];
      }
      var entry := limits[user];
      if Elapsed(clock.checked, entry.start) >= cfg.window {
        limits := limits[user := Entry(1, clock.reset)];
        allowed := true;
      } else if entry.count >= cfg.perWindow {
        allowed := false;
      } else {
        limits := limits[user := Entry(entry.count + 1, entry.start)];
        allowed := true;
      }
    }
  }

  // ── Runs ──────────────────────────────────────────────────────────────────

  datatype Call = Call(user: string, clock: Clock)

  /** The table after a run of calls on a fresh limiter. */
  function After(cfg: Config, calls: seq<Call>): Table {
    if calls == [] then map[]
    else
      var t, c := After(cfg, calls[..|calls| - 1]), calls[|calls| - 1];
      t[c.user := Decide(Lookup(t, c.user), cfg, c.clock).0]
  }

  function EntryOf(cfg: Config, calls: seq<Call>, user: string): Option<Entry> {
    Lookup(After(cfg, calls), user)
  }

  predicate Allowed(cfg: Config, calls: seq<Call>, i: nat)
    requires i < |calls|
  {
    Decide(EntryOf(cfg, calls[..i], calls[i].user), cfg, calls[i].clock).1
  }

  /** Readings of one call are ordered, and calls by one user do not overlap in time. */
  predicate Ordered(calls: seq<Call>) {
    && (forall i | 0 <= i < |calls| ::
          calls[i].clock.entered <= calls[i].clock.checked <= calls[i].clock.reset)
    && (forall i, j | 0 <= i < j < |calls| && calls[i].user == calls[j].user ::
          calls[i].clock.reset <= calls[j].clock.entered)
  }

  /** Allowed calls of `user` from position `from` on, checked within [lo, hi). */
  function AllowedIn(cfg: Config, calls: seq<Call>, user: string, from: nat, lo: nat, hi: nat): nat {
    if |calls| <= from then 0
    else
      var last := |calls| - 1;
      AllowedIn(cfg, calls[..last], user, from, lo, hi)
      + if calls[last].user == user && Allowed(cfg, calls, last) && lo <= calls[last].clock.checked < hi
        then 1 else 0
  }

  /** Allowed calls of `user` from position `from` on, whenever they were made. */
  function AllowedSince(cfg: Config, calls: seq<Call>, user: string, from: nat): nat {
    if |calls| <= from then 0
    else
      var last := |calls| - 1;
      AllowedSince(cfg, calls[..last], user, from)
      + if calls[last].user == user && Allowed(cfg, calls, last) then 1 else 0
  }

  /** Position of the call that opened the user's current window. */
  function WindowStart(cfg: Config, calls: seq<Call>, user: string): nat {
    if calls == [] then 0
    else
      var last := |calls| - 1;
      var e := EntryOf(cfg, calls[..last], user);
      if calls[last].user == user && (e.None? || Restarts(e, cfg, calls[last].clock)) then last
      else WindowStart(cfg, calls[..last], user)
  }

  function Quota(cfg: Config): nat {
    if cfg.perWindow == 0 then 1 else cfg.perWindow
  }

  lemma TakeTake<T>(s: seq<T>, i: nat, j: nat)
    requires i <= j <= |s|
    ensures s[..j][..i] == s[..i]
  {
  }

  lemma {:induction false} AbsentMeansNoCalls(cfg: Config, calls: seq<Call>, user: string)
    ensures user in After(cfg, calls) <==> exists i | 0 <= i < |calls| :: calls[i].user == user
  {
    if calls != [] {
      var p := calls[..|calls| - 1];
      AbsentMeansNoCalls(cfg, p, user);
      if i :| 0 <= i < |p| && p[i].user == user { assert calls[i].user == user; }
      if i :| 0 <= i < |calls| && calls[i].user == user { assert i < |p| ==> p[i].user == user; }
    }
  }

  /** What the stored entry says about the calls of the current window. */
  ghost predicate WindowFacts(cfg: Config, calls: seq<Call>, user: string) {
    var w, e := WindowStart(cfg, calls, user), EntryOf(cfg, calls, user);
    e.Some? ==>
      && w < |calls| && calls[w].user == user
      && AllowedSince(cfg, calls, user, w) == e.value.count <= Quota(cfg)
      && (!Allowed(cfg, calls, w) ==> e.value.count == cfg.perWindow == 0)
      && e.value.start <= calls[w].clock.reset
      && var before := EntryOf(cfg, calls[..w], user);
         if before.Some? || Restarts(before, cfg, calls[w].clock)
         then Restarts(before, cfg, calls[w].clock) && e.value.start == calls[w].clock.reset
         else e.value.start == calls[w].clock.entered
  }

  lemma {:induction false} WindowHolds(cfg: Config, calls: seq<Call>, user: string)
    requires Ordered(calls)
    ensures WindowFacts(cfg, calls, user)
  {
    if calls != [] {
      var last := |calls| - 1;
      var p := calls[..last];
      WindowHolds(cfg, p, user);
      if WindowStart(cfg, calls, user) == last {
        WindowOpens(cfg, calls, user);
      } else {
        WindowGoesOn(cfg, calls, user);
      }
    }
  }

  lemma WindowOpens(cfg: Config, calls: seq<Call>, user: string)
    requires Ordered(calls) && calls != [] && WindowFacts(cfg, calls[..|calls| - 1], user)
    requires WindowStart(cfg, calls, user) == |calls| - 1
    ensures WindowFacts(cfg, calls, user)
  {
    assert AllowedSince(cfg, calls[..|calls| - 1], user, |calls| - 1) == 0;
  }

  lemma WindowGoesOn(cfg: Config, calls: seq<Call>, user: string)
    requires Ordered(calls) && calls != [] && WindowFacts(cfg, calls[..|calls| - 1], user)
    requires WindowStart(cfg, calls, user) != |calls| - 1
    ensures WindowFacts(cfg, calls, user)
  {
    var p := calls[..|calls| - 1];
    if EntryOf(cfg, p, user).Some? {
      var w := WindowStart(cfg, p, user);
      TakeTake(calls, w, |p|);
      assert Allowed(cfg, p, w) == Allowed(cfg, calls, w);
    }
  }

  // ── Counting ──────────────────────────────────────────────────────────────

  lemma {:induction false} InSplits(cfg: Config, calls: seq<Call>, user: string, w: nat, lo: nat, hi: nat)
    requires w <= |calls|
    ensures AllowedIn(cfg, calls, user, 0, lo, hi)
            == AllowedIn(cfg, calls[..w], user, 0, lo, hi) + AllowedIn(cfg, calls, user, w, lo, hi)
  {
    if w == |calls| {
      assert calls[..w] == calls;
    } else {
      var last := |calls| - 1;
      InSplits(cfg, calls[..last], user, w, lo, hi);
      TakeTake(calls, w, last);
    }
  }

  lemma {:induction false} InAtMostSince(cfg: Config, calls: seq<Call>, user: string, from: nat, lo: nat, hi: nat)
    ensures AllowedIn(cfg, calls, user, from, lo, hi) <= AllowedSince(cfg, calls, user, from)
  {
    if |calls| > from { InAtMostSince(cfg, calls[..|calls| - 1], user, from, lo, hi); }
  }

  /** Leaving out the first call of a stretch when it lies outside the interval. */
  lemma {:induction false} InSkipsFirst(cfg: Config, calls: seq<Call>, user: string, w: nat, lo: nat, hi: nat)
    requires w < |calls| && calls[w].user == user && !(lo <= calls[w].clock.checked < hi)
    ensures AllowedIn(cfg, calls, user, w, lo, hi)
            + (if Allowed(cfg, calls, w) then 1 else 0) <= AllowedSince(cfg, calls, user, w)
  {
    var last := |calls| - 1;
    if w < last {
      InSkipsFirst(cfg, calls[..last], user, w, lo, hi);
      TakeTake(calls, w, last);
    }
  }

  lemma {:induction false} NoneIn(cfg: Config, calls: seq<Call>, user: string, from: nat, lo: nat, hi: nat)
    requires forall i | from <= i < |calls| && calls[i].user == user :: !(lo <= calls[i].clock.checked < hi)
    ensures AllowedIn(cfg, calls, user, from, lo, hi) == 0
  {
    if |calls| > from { NoneIn(cfg, calls[..|calls| - 1], user, from, lo, hi); }
  }

  // ── The bound over every interval of one window length ────────────────────

  /** Each call reads the clock once. */
  predicate OneReading(calls: seq<Call>) {
    forall i | 0 <= i < |calls| :: calls[i].clock.entered == calls[i].clock.checked
  }

  ghost function Slack(calls: seq<Call>): nat {
    if OneReading(calls) then 1 else 0
  }

  /** Calls before the newest window that still fall in an interval reaching past its
      opening: at most one quota, less the call that opened the earlier window when that
      call is known to lie outside. */
  lemma EarlierWindow(cfg: Config, calls: seq<Call>, user: string, t: nat, lo: nat, hi: nat)
    requires Ordered(calls)
    requires var e := EntryOf(cfg, calls, user);
             e.Some? ==> t >= e.value.start + cfg.window && t < lo + cfg.window
    ensures AllowedIn(cfg, calls, user, 0, lo, hi) + Slack(calls) <= Quota(cfg)
  {
    WindowHolds(cfg, calls, user);
    if user !in After(cfg, calls) {
      AbsentMeansNoCalls(cfg, calls, user);
      NoneIn(cfg, calls, user, 0, lo, hi);
    } else {
      var w := WindowStart(cfg, calls, user);
      InSplits(cfg, calls, user, w, lo, hi);
      if user in After(cfg, calls[..w]) {
        NoneIn(cfg, calls[..w], user, 0, lo, hi);
      } else {
        AbsentMeansNoCalls(cfg, calls[..w], user);
        NoneIn(cfg, calls[..w], user, 0, lo, hi);
      }
      InAtMostSince(cfg, calls, user, w, lo, hi);
      if OneReading(calls) {
        InSkipsFirst(cfg, calls, user, w, lo, hi);
        InAtMostSince(cfg, calls, user, w, lo, hi);
      }
    }
  }

  lemma PrefixIsOrdered(calls: seq<Call>, w: nat)
    requires Ordered(calls) && w <= |calls|
    ensures Ordered(calls[..w]) && Slack(calls) <= Slack(calls[..w])
  {
  }

  lemma LaterThan(calls: seq<Call>, w: nat)
    requires Ordered(calls) && w < |calls|
    ensures forall i | w <= i < |calls| && calls[i].user == calls[w].user ::
              calls[w].clock.checked <= calls[i].clock.checked
  {
  }

  /** In any interval of one window length, a user has at most two quotas of calls
      allowed, and one call less when each call reads the clock once. */
  lemma {:induction false} BurstIsBounded(cfg: Config, calls: seq<Call>, user: string, lo: nat)
    requires Ordered(calls)
    ensures AllowedIn(cfg, calls, user, 0, lo, lo + cfg.window) + Slack(calls) <= 2 * Quota(cfg)
    decreases |calls|
  {
    var hi := lo + cfg.window;
    WindowHolds(cfg, calls, user);
    if user !in After(cfg, calls) {
      AbsentMeansNoCalls(cfg, calls, user);
      NoneIn(cfg, calls, user, 0, lo, hi);
    } else {
      var w := WindowStart(cfg, calls, user);
      var earlier := calls[..w];
      PrefixIsOrdered(calls, w);
      InSplits(cfg, calls, user, w, lo, hi);
      if calls[w].clock.checked >= hi {
        LaterThan(calls, w);
        NoneIn(cfg, calls, user, w, lo, hi);
        BurstIsBounded(cfg, earlier, user, lo);
      } else {
        WindowHolds(cfg, earlier, user);
        if user in After(cfg, earlier) {
          assert earlier[WindowStart(cfg, earlier, user)].clock.reset <= calls[w].clock.entered;
        }
        EarlierWindow(cfg, earlier, user, calls[w].clock.checked, lo, hi);
        InAtMostSince(cfg, calls, user, w, lo, hi);
      }
    }
  }

  // ── Where one quota is the bound ──────────────────────────────────────────

  lemma {:induction false} NoneAllowedIn(cfg: Config, calls: seq<Call>, user: string, lo: nat, hi: nat)
    requires forall i | 0 <= i < |calls| && calls[i].user == user && Allowed(cfg, calls, i) ::
               !(lo <= calls[i].clock.checked < hi)
    ensures AllowedIn(cfg, calls, user, 0, lo, hi) == 0
  {
    if calls != [] {
      var last := |calls| - 1;
      var p := calls[..last];
      forall i | 0 <= i < last && p[i].user == user && Allowed(cfg, p, i)
        ensures !(lo <= p[i].clock.checked < hi)
      {
        TakeTake(calls, i, last);
        assert calls[i] == p[i];
      }
      NoneAllowedIn(cfg, p, user, lo, hi);
    }
  }

  /** With a window of one instant, or with no quota at all, a window opens no earlier
      than the calls allowed before it. */
  lemma {:induction false} AllowedUpToStart(cfg: Config, calls: seq<Call>, user: string, i: nat)
    requires Ordered(calls) && i < |calls| && calls[i].user == user && Allowed(cfg, calls, i)
    requires cfg.window == 1 || cfg.perWindow == 0
    ensures EntryOf(cfg, calls, user).Some?
    ensures calls[i].clock.checked <= EntryOf(cfg, calls, user).value.start
            || (cfg.window == 0 && cfg.perWindow == 0)
  {
    var last := |calls| - 1;
    var p := calls[..last];
    if i < last {
      TakeTake(calls, i, last);
      assert calls[i] == p[i];
      AllowedUpToStart(cfg, p, user, i);
    }
  }

  /** Then no interval of one window length holds more than one quota. */
  lemma {:induction false} OneWindowOnly(cfg: Config, calls: seq<Call>, user: string, lo: nat)
    requires Ordered(calls) && cfg.window > 0 && (cfg.window == 1 || cfg.perWindow == 0)
    ensures AllowedIn(cfg, calls, user, 0, lo, lo + cfg.window) <= Quota(cfg)
    decreases |calls|
  {
    var hi := lo + cfg.window;
    WindowHolds(cfg, calls, user);
    if user !in After(cfg, calls) {
      AbsentMeansNoCalls(cfg, calls, user);
      NoneIn(cfg, calls, user, 0, lo, hi);
    } else {
      var w := WindowStart(cfg, calls, user);
      var earlier := calls[..w];
      PrefixIsOrdered(calls, w);
      InSplits(cfg, calls, user, w, lo, hi);
      if calls[w].clock.checked >= hi {
        LaterThan(calls, w);
        NoneIn(cfg, calls, user, w, lo, hi);
        OneWindowOnly(cfg, earlier, user, lo);
      } else {
        NoneBefore(cfg, earlier, calls[w], lo);
        InAtMostSince(cfg, calls, user, w, lo, hi);
      }
    }
  }

  /** Nothing allowed before a call that opens a window in the interval lies in it. */
  lemma NoneBefore(cfg: Config, earlier: seq<Call>, opener: Call, lo: nat)
    requires Ordered(earlier + [opener]) && cfg.window > 0 && (cfg.window == 1 || cfg.perWindow == 0)
    requires var e := EntryOf(cfg, earlier, opener.user); e.None? || Restarts(e, cfg, opener.clock)
    requires opener.clock.checked < lo + cfg.window
    ensures AllowedIn(cfg, earlier, opener.user, 0, lo, lo + cfg.window) == 0
  {
    assert earlier == (earlier + [opener])[..|earlier|];
    PrefixIsOrdered(earlier + [opener], |earlier|);
    forall i | 0 <= i < |earlier| && earlier[i].user == opener.user && Allowed(cfg, earlier, i)
      ensures earlier[i].clock.checked < lo
    {
      AllowedUpToStart(cfg, earlier, opener.user, i);
      StartIsEarlier(cfg, earlier, opener);
    }
    NoneAllowedIn(cfg, earlier, opener.user, lo, lo + cfg.window);
  }

  /** A window never opened after a later call by the same user. */
  lemma StartIsEarlier(cfg: Config, earlier: seq<Call>, c: Call)
    requires Ordered(earlier + [c]) && EntryOf(cfg, earlier, c.user).Some?
    ensures EntryOf(cfg, earlier, c.user).value.start <= c.clock.entered
  {
    assert earlier == (earlier + [c])[..|earlier|];
    PrefixIsOrdered(earlier + [c], |earlier|);
    WindowHolds(cfg, earlier, c.user);
    var w := WindowStart(cfg, earlier, c.user);
    assert (earlier + [c])[w] == earlier[w] && (earlier + [c])[|earlier|] == c;
  }

  // ── A run that reaches the bound ──────────────────────────────────────────

  function WithCalls(calls: seq<Call>, c: Call, n: nat): seq<Call> {
    if n == 0 then calls else WithCalls(calls, c, n - 1) + [c]
  }

  function Instantly(user: string, t: nat): Call {
    Call(user, Clock(t, t, t))
  }

  /** A first call that creates its entry at 0 and is checked at `c`, the rest of its quota
      at 1, and a whole quota when the window has run out. */
  function Burst(cfg: Config, c: nat): seq<Call>
    requires cfg.perWindow >= 1
  {
    var first := [Call("u", Clock(0, c, c))];
    WithCalls(WithCalls(first, Instantly("u", 1), cfg.perWindow - 1), Instantly("u", cfg.window), cfg.perWindow)
  }

  /** All calls are by one user and over by `t`. */
  predicate OverBy(calls: seq<Call>, t: nat) {
    forall i | 0 <= i < |calls| :: calls[i].user == "u" && calls[i].clock.reset <= t
  }

  lemma {:induction false} WithCallsOrdered(calls: seq<Call>, t: nat, n: nat)
    requires Ordered(calls) && OverBy(calls, t)
    ensures var more := WithCalls(calls, Instantly("u", t), n);
            Ordered(more) && OverBy(more, t) && (OneReading(calls) ==> OneReading(more))
  {
    if n > 0 { WithCallsOrdered(calls, t, n - 1); }
  }

  lemma OneMore(cfg: Config, calls: seq<Call>, c: Call, lo: nat, hi: nat)
    ensures EntryOf(cfg, calls + [c], c.user) == Some(Decide(EntryOf(cfg, calls, c.user), cfg, c.clock).0)
    ensures AllowedIn(cfg, calls + [c], c.user, 0, lo, hi)
            == AllowedIn(cfg, calls, c.user, 0, lo, hi)
               + if Decide(EntryOf(cfg, calls, c.user), cfg, c.clock).1 && lo <= c.clock.checked < hi then 1 else 0
  {
    assert (calls + [c])[..|calls + [c]| - 1] == calls;
  }

  /** The user's entry, and the calls allowed in the interval. */
  ghost predicate Stands(cfg: Config, calls: seq<Call>, lo: nat, hi: nat, e: Entry, allowed: nat) {
    EntryOf(cfg, calls, "u") == Some(e) && AllowedIn(cfg, calls, "u", 0, lo, hi) == allowed
  }

  lemma OneMoreStands(cfg: Config, calls: seq<Call>, t: nat, lo: nat, hi: nat, e: Entry, allowed: nat)
    requires Stands(cfg, calls, lo, hi, e, allowed) && lo <= t < hi && e.start <= t
    requires t < e.start + cfg.window ==> e.count < cfg.perWindow
    ensures Stands(cfg, calls + [Instantly("u", t)], lo, hi,
                   if t < e.start + cfg.window then Entry(e.count + 1, e.start) else Entry(1, t), allowed + 1)
  {
    OneMore(cfg, calls, Instantly("u", t), lo, hi);
  }

  /** Calls that stay within the window and its quota are all allowed. */
  lemma {:induction false} QuotaIsUsedUp(cfg: Config, calls: seq<Call>, t: nat, n: nat, lo: nat, hi: nat, e: Entry, allowed: nat)
    requires Stands(cfg, calls, lo, hi, e, allowed)
    requires e.start <= t < e.start + cfg.window && e.count + n <= cfg.perWindow && lo <= t < hi
    ensures Stands(cfg, WithCalls(calls, Instantly("u", t), n), lo, hi, Entry(e.count + n, e.start), allowed + n)
  {
    if n > 0 {
      QuotaIsUsedUp(cfg, calls, t, n - 1, lo, hi, e, allowed);
      var before := WithCalls(calls, Instantly("u", t), n - 1);
      OneMoreStands(cfg, before, t, lo, hi, Entry(e.count + n - 1, e.start), allowed + n - 1);
    }
  }

  /** The call that finds the window run out opens the next one. */
  lemma {:induction false} NextQuotaIsUsedUp(cfg: Config, calls: seq<Call>, n: nat, lo: nat, hi: nat, e: Entry, allowed: nat)
    requires Stands(cfg, calls, lo, hi, e, allowed)
    requires e.start == 0 && 1 <= n <= cfg.perWindow && lo <= cfg.window < hi && cfg.window > 0
    ensures Stands(cfg, WithCalls(calls, Instantly("u", cfg.window), n), lo, hi, Entry(n, cfg.window), allowed + n)
  {
    var c := Instantly("u", cfg.window);
    var before := WithCalls(calls, c, n - 1);
    if n == 1 {
      OneMoreStands(cfg, before, cfg.window, lo, hi, e, allowed);
    } else {
      NextQuotaIsUsedUp(cfg, calls, n - 1, lo, hi, e, allowed);
      OneMoreStands(cfg, before, cfg.window, lo, hi, Entry(n - 1, cfg.window), allowed + n - 1);
    }
  }

  lemma BurstStarts(cfg: Config, c: nat)
    requires cfg.perWindow >= 1 && cfg.window >= 2 && c <= 1
    ensures Stands(cfg, [Call("u", Clock(0, c, c))], 1, 1 + cfg.window, Entry(1, 0), c)
  {
    var call := Call("u", Clock(0, c, c));
    assert [] + [call] == [call];
    assert EntryOf(cfg, [], "u").None? && AllowedIn(cfg, [], "u", 0, 1, 1 + cfg.window) == 0;
    OneMore(cfg, [], call, 1, 1 + cfg.window);
  }

  lemma BurstIsOrdered(cfg: Config, c: nat)
    requires cfg.perWindow >= 1 && cfg.window >= 2 && c <= 1
    ensures Ordered(Burst(cfg, c)) && (c == 0 ==> OneReading(Burst(cfg, c)))
  {
    var first := [Call("u", Clock(0, c, c))];
    WithCallsOrdered(first, 1, cfg.perWindow - 1);
    WithCallsOrdered(WithCalls(first, Instantly("u", 1), cfg.perWindow - 1), cfg.window, cfg.perWindow);
  }

  /** The calls allowed in one interval of a window's length. */
  function InWindow(cfg: Config, calls: seq<Call>, user: string, lo: nat): nat {
    AllowedIn(cfg, calls, user, 0, lo, lo + cfg.window)
  }

  lemma TwoQuotas(cfg: Config, first: seq<Call>, c: nat)
    requires cfg.perWindow >= 1 && cfg.window >= 2
    requires Stands(cfg, first, 1, 1 + cfg.window, Entry(1, 0), c)
    ensures var second := WithCalls(first, Instantly("u", 1), cfg.perWindow - 1);
            Stands(cfg, WithCalls(second, Instantly("u", cfg.window), cfg.perWindow), 1, 1 + cfg.window,
                   Entry(cfg.perWindow, cfg.window), c + cfg.perWindow - 1 + cfg.perWindow)
  {
    var q, hi := cfg.perWindow, 1 + cfg.window;
    QuotaIsUsedUp(cfg, first, 1, q - 1, 1, hi, Entry(1, 0), c);
    NextQuotaIsUsedUp(cfg, WithCalls(first, Instantly("u", 1), q - 1), q, 1, hi, Entry(q, 0), c + q - 1);
  }

  /** The bound is reached for every quota and every window of two instants or more: two
      quotas when the first call reads the clock twice, one less when it reads it once. */
  lemma BoundIsReached(cfg: Config, c: nat)
    requires cfg.perWindow >= 1 && cfg.window >= 2 && c <= 1
    ensures Ordered(Burst(cfg, c)) && (c == 0 ==> OneReading(Burst(cfg, c)))
    ensures InWindow(cfg, Burst(cfg, c), "u", 1) == 2 * cfg.perWindow - 1 + c
  {
    BurstIsOrdered(cfg, c);
    BurstStarts(cfg, c);
    TwoQuotas(cfg, [Call("u", Clock(0, c, c))], c);
  }

  /** What a sliding window would promise: at most the configured number of calls in any
      interval of its length. */
  ghost predicate Slides(cfg: Config, oneReading: bool) {
    forall calls, user, lo | Ordered(calls) && (oneReading ==> OneReading(calls)) ::
      InWindow(cfg, calls, user, lo) <= cfg.perWindow
  }

  /** The limiter keeps that promise exactly when the window is empty, or one clock unit
      long with a quota of at least one; and, when every call reads the clock once, also
      when the quota is one. */
  lemma SlidesExactly(cfg: Config, oneReading: bool)
    ensures Slides(cfg, oneReading) <==>
            cfg.window == 0 || (cfg.perWindow >= 1 && (cfg.window == 1 || (oneReading && cfg.perWindow == 1)))
  {
    if cfg.window == 0 || (cfg.perWindow >= 1 && (cfg.window == 1 || (oneReading && cfg.perWindow == 1))) {
      forall calls, user, lo | Ordered(calls) && (oneReading ==> OneReading(calls))
        ensures InWindow(cfg, calls, user, lo) <= cfg.perWindow
      {
        if cfg.window == 0 {
          NoneIn(cfg, calls, user, 0, lo, lo);
        } else {
          AtMostOneQuota(cfg, calls, user, lo);
        }
      }
    } else if cfg.perWindow == 0 {
      NoQuotaStillAdmits(cfg);
      assert InWindow(cfg, Twice(cfg.window), "u", cfg.window) > cfg.perWindow;
    } else {
      var c := if oneReading then 0 else 1;
      BoundIsReached(cfg, c);
      assert InWindow(cfg, Burst(cfg, c), "u", 1) > cfg.perWindow;
    }
  }

  /** A call at 0 and one when its window has run out. */
  function Twice(window: nat): seq<Call> {
    [Instantly("u", 0), Instantly("u", window)]
  }

  /** With no quota at all the first call after a window has run out is allowed all the
      same, and no more than one in any window's length. */
  lemma NoQuotaStillAdmits(cfg: Config)
    requires cfg.perWindow == 0 && cfg.window >= 1
    ensures Ordered(Twice(cfg.window)) && OneReading(Twice(cfg.window))
    ensures InWindow(cfg, Twice(cfg.window), "u", cfg.window) == 1
    ensures forall calls, user, lo | Ordered(calls) :: InWindow(cfg, calls, user, lo) <= 1
  {
    var first, second := Instantly("u", 0), Instantly("u", cfg.window);
    assert [] + [first] == [first] && [first] + [second] == Twice(cfg.window);
    assert EntryOf(cfg, [], "u").None? && AllowedIn(cfg, [], "u", 0, cfg.window, 2 * cfg.window) == 0;
    OneMore(cfg, [], first, cfg.window, 2 * cfg.window);
    OneMore(cfg, [first], second, cfg.window, 2 * cfg.window);
    forall calls, user, lo | Ordered(calls) ensures InWindow(cfg, calls, user, lo) <= 1 {
      AtMostOneQuota(cfg, calls, user, lo);
    }
  }

  lemma AtMostOneQuota(cfg: Config, calls: seq<Call>, user: string, lo: nat)
    requires Ordered(calls)
    requires cfg.window <= 1 || cfg.perWindow == 0 || (OneReading(calls) && cfg.perWindow == 1)
    ensures InWindow(cfg, calls, user, lo) <= Quota(cfg)
  {
    if cfg.window == 0 {
      NoneIn(cfg, calls, user, 0, lo, lo);
    } else if cfg.window == 1 || cfg.perWindow == 0 {
      OneWindowOnly(cfg, calls, user, lo);
    } else {
      BurstIsBounded(cfg, calls, user, lo);
    }
  }

  // ── Refusals are earned ───────────────────────────────────────────────────

  /** Allowed calls of `user` that finished within (lo, hi]. */
  function FinishedIn(cfg: Config, calls: seq<Call>, user: string, lo: int, hi: int): nat {
    if calls == [] then 0
    else
      var last := |calls| - 1;
      FinishedIn(cfg, calls[..last], user, lo, hi)
      + if calls[last].user == user && Allowed(cfg, calls, last) && lo < calls[last].clock.reset <= hi
        then 1 else 0
  }

  lemma {:induction false} SinceAtMostFinished(cfg: Config, calls: seq<Call>, user: string, w: nat, lo: int, hi: int)
    requires forall i | w <= i < |calls| && calls[i].user == user :: lo < calls[i].clock.reset <= hi
    ensures AllowedSince(cfg, calls, user, w) <= FinishedIn(cfg, calls, user, lo, hi)
  {
    if |calls| > w { SinceAtMostFinished(cfg, calls[..|calls| - 1], user, w, lo, hi); }
  }

  /** A refused call has at least `perWindow` allowed calls by the same user in the
      window before it. */
  lemma RefusalIsEarned(cfg: Config, calls: seq<Call>, i: nat)
    requires Ordered(calls) && i < |calls| && !Allowed(cfg, calls, i)
    ensures var t := calls[i].clock.checked;
            FinishedIn(cfg, calls[..i], calls[i].user, t - cfg.window, t) >= cfg.perWindow
  {
    var user, t := calls[i].user, calls[i].clock.checked;
    var before := calls[..i];
    WindowHolds(cfg, before, user);
    if EntryOf(cfg, before, user).Some? {
      var w := WindowStart(cfg, before, user);
      SinceAtMostFinished(cfg, before, user, w, t - cfg.window, t);
    }
  }

  /** When a call is refused: a user without an entry, only if there is no quota and the
      window has not run out while the entry was made; any other, exactly when its window
      is still open and has allowed the quota. So a call a whole window after the stored
      start is always allowed. */
  lemma RefusedExactly(cfg: Config, calls: seq<Call>, i: nat)
    requires Ordered(calls) && i < |calls|
    ensures var before, user, clock := calls[..i], calls[i].user, calls[i].clock;
            var e := EntryOf(cfg, before, user);
            !Allowed(cfg, calls, i) <==>
            if e.None? then cfg.perWindow == 0 && clock.checked < clock.entered + cfg.window
            else
              && clock.checked < e.value.start + cfg.window
              && AllowedSince(cfg, before, user, WindowStart(cfg, before, user)) >= cfg.perWindow
  {
    PrefixIsOrdered(calls, i);
    WindowHolds(cfg, calls[..i], calls[i].user);
    assert calls[..i] + [calls[i]] == calls[..i + 1];
    PrefixIsOrdered(calls, i + 1);
    if EntryOf(cfg, calls[..i], calls[i].user).Some? { StartIsEarlier(cfg, calls[..i], calls[i]); }
  }

  /** A user who stays away for one window is let in again. */
  lemma StayingAwayHelps(cfg: Config, calls: seq<Call>, i: nat)
    requires Ordered(calls) && i < |calls|
    requires exists j | 0 <= j < i :: calls[j].user == calls[i].user
    requires forall j | 0 <= j < i && calls[j].user == calls[i].user ::
               calls[j].clock.reset + cfg.window <= calls[i].clock.checked
    ensures Allowed(cfg, calls, i)
  {
    var before := calls[..i];
    PrefixIsOrdered(calls, i);
    AbsentMeansNoCalls(cfg, before, calls[i].user);
    var j :| 0 <= j < i && calls[j].user == calls[i].user;
    assert before[j].user == calls[i].user;
    WindowHolds(cfg, before, calls[i].user);
    assert before[WindowStart(cfg, before, calls[i].user)] == calls[WindowStart(cfg, before, calls[i].user)];
  }

  // ── Users do not affect each other ────────────────────────────────────────

  function Only(calls: seq<Call>, user: string): seq<Call> {
    if calls == [] then []
    else
      var c := calls[|calls| - 1];
      Only(calls[..|calls| - 1], user) + if c.user == user then [c] else []
  }

  /** A user's entry, hence every verdict on that user, is the one reached when only
      that user calls. */
  lemma {:induction false} OthersDoNotMatter(cfg: Config, calls: seq<Call>, user: string)
    ensures EntryOf(cfg, calls, user) == EntryOf(cfg, Only(calls, user), user)
  {
    if calls != [] {
      var p, c := calls[..|calls| - 1], calls[|calls| - 1];
      OthersDoNotMatter(cfg, p, user);
      if c.user == user {
        assert (Only(p, user) + [c])[..|Only(p, user)|] == Only(p, user);
      } else {
        assert Only(p, user) + [] == Only(p, user);
      }
    }
  }

  lemma VerdictIsLocal(cfg: Config, calls: seq<Call>, i: nat)
    requires i < |calls|
    ensures var alone := Only(calls[..i], calls[i].user) + [calls[i]];
            Allowed(cfg, calls, i) == Allowed(cfg, alone, |alone| - 1)
  {
    var user := calls[i].user;
    var alone := Only(calls[..i], user) + [calls[i]];
    assert alone[..|alone| - 1] == Only(calls[..i], user);
    OthersDoNotMatter(cfg, calls[..i], user);
  }
}
