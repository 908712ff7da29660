/** The pipeline's guarantees over whole runs. */
module PipelineRuns {
  import opened Prelude
  import opened Replies
  import opened Approval
  import opened ApprovalSafety
  import ApprovalRuns
  import opened Gate
  import opened Pipeline
  import Dedup = Deduplicator
  import Limiter = RateLimiter

  datatype PRun = PRun(states: seq<PState>, steps: seq<PStep>)

  ghost predicate IsPRun(setup: Setup, r: PRun) {
    && |r.states| == |r.steps| + 1
    && r.states[0] == PStart(r.states[0].gate.sys.now)
    && forall i | 0 <= i < |r.steps| ::
         PEnabled(setup, r.states[i], r.steps[i]) && r.states[i + 1] == PApply(setup, r.states[i], r.steps[i])
  }

  lemma StartHolds(setup: Setup, now: Time)
    ensures PInv(setup, PStart(now))
  {
  }

  lemma {:induction false} PReachableIsOk(setup: Setup, r: PRun, n: nat)
    requires IsPRun(setup, r) && n < |r.states|
    ensures PInv(setup, r.states[n])
  {
    if n == 0 {
      StartHolds(setup, r.states[0].gate.sys.now);
    } else {
      PReachableIsOk(setup, r, n - 1);
      PStepKeeps(setup, r.states[n - 1], r.steps[n - 1]);
    }
  }

  // ── One ending for each message ───────────────────────────────────────────

  /** A message's ending is never revised. */
  lemma {:induction false} EndingIsFinal(setup: Setup, r: PRun, i: nat, j: nat, mid: Mid)
    requires IsPRun(setup, r) && i <= j < |r.states|
    requires mid in r.states[i].messages && r.states[i].messages[mid].stage.Ended?
    ensures mid in r.states[j].messages && r.states[j].messages[mid] == r.states[i].messages[mid]
    decreases j - i
  {
    if i < j {
      MessageAfter(setup, r.states[i], r.steps[i], mid);
      EndingIsFinal(setup, r, i + 1, j, mid);
    }
  }

  /** The agent sees a message exactly when it ends as processed, and then once. */
  lemma AgentSeesProcessedOnce(setup: Setup, r: PRun, n: nat, mid: Mid)
    requires IsPRun(setup, r) && n < |r.states| && mid in r.states[n].messages
    ensures multiset(r.states[n].agent)[mid]
            == if r.states[n].messages[mid].stage == Ended(Processed) then 1 else 0
  {
    PReachableIsOk(setup, r, n);
  }

  /** Steps from one state to another. */
  ghost predicate Leads(setup: Setup, s: PState, steps: seq<PStep>, last: PState)
    decreases |steps|
  {
    if steps == [] then s == last
    else PEnabled(setup, s, steps[0]) && Leads(setup, PApply(setup, s, steps[0]), steps[1..], last)
  }

  lemma {:induction false} ChecksAreOrdered(setup: Setup, r: PRun, n: nat)
    requires IsPRun(setup, r) && n < |r.states|
    ensures Limiter.Ordered(Calls(r.states[n].checks))
  {
    if n > 0 {
      ChecksAreOrdered(setup, r, n - 1);
      ChecksStayOrdered(setup, r.states[n - 1], r.steps[n - 1]);
    }
  }

  /** At any point of any run a message that has arrived can be brought to an ending by at
      most five steps of its own. */
  lemma EveryMessageCanEnd(setup: Setup, r: PRun, n: nat, mid: Mid) returns (steps: seq<PStep>, last: PState)
    requires IsPRun(setup, r) && n < |r.states| && mid in r.states[n].messages
    ensures Leads(setup, r.states[n], steps, last) && |steps| <= 5
    ensures forall step | step in steps :: Handles(step) == Some(mid)
    ensures mid in last.messages && last.messages[mid].stage.Ended?
  {
    ChecksAreOrdered(setup, r, n);
    steps, last := CanEnd(setup, r.states[n], mid);
  }

  lemma {:induction false} CanEnd(setup: Setup, s: PState, mid: Mid) returns (steps: seq<PStep>, last: PState)
    requires mid in s.messages && Limiter.Ordered(Calls(s.checks))
    ensures Leads(setup, s, steps, last) && |steps| <= StepsLeft(s.messages[mid].stage)
    ensures forall step | step in steps :: Handles(step) == Some(mid)
    ensures mid in last.messages && last.messages[mid].stage.Ended?
    decreases StepsLeft(s.messages[mid].stage)
  {
    if s.messages[mid].stage.Ended? {
      steps, last := [], s;
    } else {
      var step := NextStep(setup, s, mid);
      var next := PApply(setup, s, step);
      OwnStepCounts(setup, s, step, mid);
      ChecksStayOrdered(setup, s, step);
      var more;
      more, last := CanEnd(setup, next, mid);
      steps := [step] + more;
      assert steps[1..] == more;
    }
  }

  // ── Replies to a pending plan ─────────────────────────────────────────────

  /** Past the check, with an approval found pending or on a later path. */
  predicate FoundPending(stage: Stage) {
    stage !in {Arrived, Checked(false), Fresh(false)}
  }

  lemma FoundStaysFound(setup: Setup, s: PState, step: PStep, mid: Mid)
    requires PEnabled(setup, s, step) && mid in s.messages && FoundPending(s.messages[mid].stage)
    ensures mid in PApply(setup, s, step).messages && FoundPending(PApply(setup, s, step).messages[mid].stage)
  {
    if Handles(step) != Some(mid) { MessageAfter(setup, s, step, mid); }
  }

  lemma {:induction false} FoundUntil(setup: Setup, r: PRun, i: nat, j: nat, mid: Mid)
    requires IsPRun(setup, r) && i <= j < |r.states|
    requires mid in r.states[i].messages && FoundPending(r.states[i].messages[mid].stage)
    ensures mid in r.states[j].messages && FoundPending(r.states[j].messages[mid].stage)
    decreases j - i
  {
    if i < j {
      FoundStaysFound(setup, r.states[i], r.steps[i], mid);
      FoundUntil(setup, r, i + 1, j, mid);
    }
  }

  /** The sender has an approval registered that is still in time. */
  predicate InTime(s: PState, key: Key) {
    key in s.gate.sys.reg.pending && s.gate.sys.now < s.gate.sys.reg.pending[key].deadline
  }

  /** Exactly which messages are exempt from the limiter, and kept from the agent: those whose
      check finds an approval of their sender registered, and whose offer finds one in time.
      They end as a reply, for good, whatever the duplicate window holds, however spent the
      quota is, and whether or not that approval has been settled already. Every other
      message that gets as far as its offer leaves the path of a reply for good. */
  lemma ExemptExactly(setup: Setup, r: PRun, i: nat, j: nat, n: nat, mid: Mid)
    requires setup.registry && IsPRun(setup, r) && i < j < n < |r.states|
    requires r.steps[i] == CheckPending(mid) && r.steps[j] == Offer(mid)
    ensures mid in r.states[i].messages && mid in r.states[n].messages
    ensures var m := r.states[n].messages[mid];
            && m.KeyOf() == r.states[i].messages[mid].KeyOf()
            && if m.KeyOf() in r.states[i].gate.sys.reg.pending && InTime(r.states[j], m.KeyOf())
               then m.stage == Ended(if Classify(m.content) == Unrecognised then GateClarified else GateSettled)
               else !OnGatePath(m.stage)
  {
    assert PEnabled(setup, r.states[i], r.steps[i]) && PEnabled(setup, r.states[j], r.steps[j]);
    KeyIsKept(setup, r, i, j, mid);
    OfferIsExact(setup, r, j, mid);
    KeyIsKept(setup, r, j, n, mid);
    if r.states[i].messages[mid].KeyOf() in r.states[i].gate.sys.reg.pending {
      FoundUntil(setup, r, i + 1, j, mid);
    } else {
      OffPathStaysOff(setup, r, i + 1, j, mid);
    }
    if OnGatePath(r.states[j + 1].messages[mid].stage) {
      EndingIsFinal(setup, r, j + 1, n, mid);
    } else {
      OffPathStaysOff(setup, r, j + 1, n, mid);
    }
  }

  /** What an offer does to a message that found an approval pending, and to one that did not. */
  lemma OfferIsExact(setup: Setup, r: PRun, j: nat, mid: Mid)
    requires IsPRun(setup, r) && j < |r.steps| && r.steps[j] == Offer(mid)
    ensures mid in r.states[j].messages && mid in r.states[j + 1].messages
    ensures var m, m' := r.states[j].messages[mid], r.states[j + 1].messages[mid];
            && m'.KeyOf() == m.KeyOf() && m'.content == m.content && m.stage.Fresh?
            && m'.stage == if m.stage.awaiting && InTime(r.states[j], m.KeyOf())
                           then Ended(if Classify(m.content) == Unrecognised then GateClarified else GateSettled)
                           else Ordinary
  {
    var s := r.states[j];
    assert PEnabled(setup, s, Offer(mid)) && r.states[j + 1] == PApply(setup, s, Offer(mid));
    PSysIsOk(setup, r, j);
    AnsweredExactly(s.gate.sys, s.messages[mid].user, s.messages[mid].channel, s.messages[mid].content);
  }

  /** The registry has something to say exactly to the sender of a registered entry in time. */
  lemma AnsweredExactly(s: State, user: string, channel: string, text: string)
    requires Inv(s)
    ensures var key, answer := Key(channel, user), Answer(s.reg, s.now, user, channel, text);
            if key in s.reg.pending && s.now < s.reg.pending[key].deadline
            then if Classify(text) == Unrecognised then answer.NeedsClarification? else answer.Settled?
            else answer.NothingPending?
  {
    if Key(channel, user) in s.reg.pending { assert EntryOk(s, Key(channel, user)); }
  }

  /** An inbound recognised reply, offered in time while its sender's plan is registered,
      decides the plan exactly when that plan's gate still waits and nothing has settled its
      entry before. */
  lemma InboundReplyDecidesExactly(setup: Setup, r: PRun, j: nat, mid: Mid, id: Id)
    requires IsPRun(setup, r) && j < |r.steps| && r.steps[j] == Offer(mid)
    requires mid in r.states[j].messages && r.states[j].messages[mid].stage == Fresh(true)
    requires var sys, m := r.states[j].gate.sys, r.states[j].messages[mid];
             && id in sys.tickets && Live(sys, id) && sys.tickets[id].KeyOf() == m.KeyOf()
             && sys.now < sys.tickets[id].deadline && Classify(m.content) != Unrecognised
    ensures var sys, sys', m := r.states[j].gate.sys, r.states[j + 1].gate.sys, r.states[j].messages[mid];
            && id in sys.reg.shots && id in sys'.reg.shots
            && (ApprovalRuns.Decides(sys, id, m.content, sys') <==>
                sys.tickets[id].Open() && sys.reg.pending[m.KeyOf()].settle)
            && At(r.states[j + 1], mid, Ended(GateSettled))
  {
    var s := r.states[j];
    PSysIsOk(setup, r, j);
    OfferIsReply(setup, s, mid);
    ApprovalRuns.SettlingDecidesExactly(s.gate.sys, id, s.messages[mid].content);
    assert r.states[j + 1] == PApply(setup, s, Offer(mid));
  }

  lemma OfferIsReply(setup: Setup, s: PState, mid: Mid)
    requires At(s, mid, Fresh(true))
    ensures var s', m := PApply(setup, s, Offer(mid)), s.messages[mid];
            && s'.gate.sys == Apply(s.gate.sys, Reply(m.user, m.channel, m.content))
            && mid in s'.messages
            && (AnswerTo(s, m).Settled? ==> s'.messages[mid].stage == Ended(GateSettled))
  {
  }

  lemma {:induction false} OffPathStaysOff(setup: Setup, r: PRun, i: nat, n: nat, mid: Mid)
    requires IsPRun(setup, r) && i <= n < |r.states|
    requires mid in r.states[i].messages && !OnGatePath(r.states[i].messages[mid].stage)
    ensures mid in r.states[n].messages && !OnGatePath(r.states[n].messages[mid].stage)
    decreases n - i
  {
    if i < n {
      LeavingIsForGood(setup, r.states[i], r.steps[i], mid);
      OffPathStaysOff(setup, r, i + 1, n, mid);
    }
  }

  /** A message that settles or clarifies a gate leaves the duplicate window, the limiter
      and the agent as they were, at every one of its steps. */
  lemma GateRepliesTouchNothingElse(setup: Setup, r: PRun, i: nat, n: nat, mid: Mid)
    requires IsPRun(setup, r) && i < n < |r.states| && Handles(r.steps[i]) == Some(mid)
    requires mid in r.states[n].messages
    requires r.states[n].messages[mid].stage in {Ended(GateSettled), Ended(GateClarified)}
    ensures var s, s' := r.states[i], r.states[i + 1];
            s'.window == s.window && s'.table == s.table && s'.checks == s.checks && s'.agent == s.agent
    ensures mid !in r.states[n].agent
  {
    HandledIsThere(setup, r.states[i], r.steps[i], mid);
    if !OnGatePath(r.states[i + 1].messages[mid].stage) { OffPathStaysOff(setup, r, i + 1, n, mid); }
    GatePathTouchesNothing(setup, r.states[i], r.steps[i]);
    AgentSeesProcessedOnce(setup, r, n, mid);
    assert mid !in multiset(r.states[n].agent);
  }

  lemma HandledIsThere(setup: Setup, s: PState, step: PStep, mid: Mid)
    requires PEnabled(setup, s, step) && Handles(step) == Some(mid)
    ensures mid in PApply(setup, s, step).messages
  {
  }

  // ── Duplicates ────────────────────────────────────────────────────────────

  /** The keys offered to the duplicate window by the first `n` steps, in order: one for each
      message whose check found no approval pending. */
  ghost function Offered(setup: Setup, r: PRun, n: nat): seq<string>
    requires IsPRun(setup, r) && n < |r.states|
  {
    if n == 0 then []
    else
      var s, step := r.states[n - 1], r.steps[n - 1];
      Offered(setup, r, n - 1) +
      if step.Deduplicate? && At(s, step.mid, Checked(false))
      then [Dedup.Key(s.messages[step.mid].user, s.messages[step.mid].content)] else []
  }

  lemma WindowAfter(setup: Setup, s: PState, step: PStep)
    requires PEnabled(setup, s, step) && setup.capacity.Some?
    ensures PApply(setup, s, step).window ==
            if step.Deduplicate? && At(s, step.mid, Checked(false))
            then Dedup.Offer(s.window, setup.capacity.value, Dedup.Key(s.messages[step.mid].user, s.messages[step.mid].content))
            else s.window
  {
  }

  lemma {:induction false} WindowIsOffered(setup: Setup, r: PRun, n: nat)
    requires IsPRun(setup, r) && n < |r.states| && setup.capacity.Some?
    ensures r.states[n].window == Dedup.After(setup.capacity.value, Offered(setup, r, n))
  {
    if n > 0 {
      WindowIsOffered(setup, r, n - 1);
      var s, step := r.states[n - 1], r.steps[n - 1];
      WindowAfter(setup, s, step);
      var before, all := Offered(setup, r, n - 1), Offered(setup, r, n);
      if all != before { assert all[..|all| - 1] == before; }
    }
  }

  /** Exactly which messages are dropped as duplicates: those whose check finds no approval of
      their sender registered, and whose key is among the last accepted ones, as many as the
      window holds. */
  lemma DroppedExactly(setup: Setup, r: PRun, h: nat, i: nat, n: nat, mid: Mid)
    requires IsPRun(setup, r) && h < i < n < |r.states|
    requires r.steps[h] == CheckPending(mid) && r.steps[i] == Deduplicate(mid)
    ensures mid in r.states[h].messages && mid in r.states[n].messages
    ensures var m := r.states[n].messages[mid];
            m.stage == Ended(Duplicate) <==>
              && setup.capacity.Some?
              && !(setup.registry && m.KeyOf() in r.states[h].gate.sys.reg.pending)
              && Dedup.Key(m.user, m.content) in Dedup.After(setup.capacity.value, Offered(setup, r, i))
    ensures setup.capacity.Some? && setup.capacity.value >= 1 ==>
              Dedup.After(setup.capacity.value, Offered(setup, r, i))
              == Dedup.LastOf(Dedup.Accepted(setup.capacity.value, Offered(setup, r, i)), setup.capacity.value)
  {
    assert PEnabled(setup, r.states[h], r.steps[h]) && PEnabled(setup, r.states[i], r.steps[i]);
    var was := r.states[h].messages[mid];
    var awaiting := setup.registry && was.KeyOf() in r.states[h].gate.sys.reg.pending;
    CheckStands(setup, r, h + 1, i, mid, was, awaiting);
    DeduplicateIsExact(setup, r.states[i], mid);
    if setup.capacity.Some? {
      WindowIsOffered(setup, r, i);
      if setup.capacity.value >= 1 { Dedup.WindowIsRecentKeys(setup.capacity.value, Offered(setup, r, i)); }
    }
    if r.states[i + 1].messages[mid].stage == Ended(Duplicate) {
      EndingIsFinal(setup, r, i + 1, n, mid);
    } else {
      StaysPastWindow(setup, r, i + 1, n, mid);
    }
  }

  lemma DeduplicateIsExact(setup: Setup, s: PState, mid: Mid)
    requires PEnabled(setup, s, Deduplicate(mid))
    ensures var m, s' := s.messages[mid], PApply(setup, s, Deduplicate(mid));
            && mid in s'.messages && s'.messages[mid].(stage := m.stage) == m && m.stage.Checked?
            && s'.messages[mid].stage ==
               if setup.capacity.Some? && !m.stage.awaiting && Dedup.Key(m.user, m.content) in s.window
               then Ended(Duplicate) else Fresh(m.stage.awaiting)
  {
  }

  /** What a check found stands until the message is looked up in the window. */
  predicate CheckedAs(m: Message, was: Message, awaiting: bool) {
    && m.(stage := Arrived) == was.(stage := Arrived)
    && (m.stage == Checked(awaiting) || m.stage.Fresh? || m.stage.Ordinary? || m.stage.Admitted? || m.stage.Ended?)
  }

  lemma {:induction false} CheckStands(setup: Setup, r: PRun, i: nat, j: nat, mid: Mid, was: Message, awaiting: bool)
    requires IsPRun(setup, r) && i <= j < |r.states|
    requires mid in r.states[i].messages && CheckedAs(r.states[i].messages[mid], was, awaiting)
    ensures mid in r.states[j].messages && CheckedAs(r.states[j].messages[mid], was, awaiting)
    decreases j - i
  {
    if i < j {
      MessageAfter(setup, r.states[i], r.steps[i], mid);
      CheckStandsAfter(setup, r.states[i], r.steps[i], mid, was, awaiting);
      CheckStands(setup, r, i + 1, j, mid, was, awaiting);
    }
  }

  lemma CheckStandsAfter(setup: Setup, s: PState, step: PStep, mid: Mid, was: Message, awaiting: bool)
    requires PEnabled(setup, s, step) && mid in s.messages && CheckedAs(s.messages[mid], was, awaiting)
    ensures var s' := PApply(setup, s, step); mid in s'.messages && CheckedAs(s'.messages[mid], was, awaiting)
  {
    MessageAfter(setup, s, step, mid);
  }

  /** Past the duplicate window a message is not dropped by it. */
  predicate PastWindow(stage: Stage) {
    stage.Fresh? || stage.Ordinary? || stage.Admitted? || (stage.Ended? && stage != Ended(Duplicate))
  }

  lemma {:induction false} StaysPastWindow(setup: Setup, r: PRun, i: nat, j: nat, mid: Mid)
    requires IsPRun(setup, r) && i <= j < |r.states|
    requires mid in r.states[i].messages && PastWindow(r.states[i].messages[mid].stage)
    ensures mid in r.states[j].messages && PastWindow(r.states[j].messages[mid].stage)
    ensures r.states[j].messages[mid].(stage := Arrived) == r.states[i].messages[mid].(stage := Arrived)
    decreases j - i
  {
    if i < j {
      PastWindowAfter(setup, r.states[i], r.steps[i], mid);
      StaysPastWindow(setup, r, i + 1, j, mid);
    }
  }

  lemma PastWindowAfter(setup: Setup, s: PState, step: PStep, mid: Mid)
    requires PEnabled(setup, s, step) && mid in s.messages && PastWindow(s.messages[mid].stage)
    ensures var s' := PApply(setup, s, step);
            && mid in s'.messages && PastWindow(s'.messages[mid].stage)
            && s'.messages[mid].(stage := Arrived) == s.messages[mid].(stage := Arrived)
  {
    MessageAfter(setup, s, step, mid);
  }

  /** Exactly which messages are denied: of those the limiter was asked about, the ones whose
      check it does not allow, in the order of its checks. */
  lemma DeniedExactly(setup: Setup, r: PRun, n: nat, i: nat)
    requires IsPRun(setup, r) && n < |r.states| && Limits(setup) && i < |r.states[n].checks|
    ensures var s, c := r.states[n], r.states[n].checks[i];
            && c.mid in s.messages && c.call.user == s.messages[c.mid].user
            && (s.messages[c.mid].stage == Ended(RateDenied)
                <==> !Limiter.Allowed(setup.limit.value, Calls(s.checks), i))
  {
    PReachableIsOk(setup, r, n);
    assert CheckOk(setup, r.states[n], i);
  }

  // ── The agent's load ──────────────────────────────────────────────────────

  /** The user's messages handed to the agent whose limiter check fell within [lo, hi). */
  function HandedIn(s: PState, checks: seq<Check>, user: string, lo: nat, hi: nat): set<Mid> {
    set i | 0 <= i < |checks| && checks[i].call.user == user && lo <= checks[i].call.clock.checked < hi
            && checks[i].mid in s.agent :: checks[i].mid
  }

  predicate Counts(s: PState, c: Check, user: string, lo: nat, hi: nat) {
    c.call.user == user && lo <= c.call.clock.checked < hi && c.mid in s.agent
  }

  lemma HandedAppend(s: PState, checks: seq<Check>, c: Check, user: string, lo: nat, hi: nat)
    ensures |HandedIn(s, checks + [c], user, lo, hi)|
            <= |HandedIn(s, checks, user, lo, hi)| + if Counts(s, c, user, lo, hi) then 1 else 0
  {
    var before, after := HandedIn(s, checks, user, lo, hi), HandedIn(s, checks + [c], user, lo, hi);
    if Counts(s, c, user, lo, hi) {
      assert after <= before + {c.mid};
      SubsetIsSmaller(after, before + {c.mid});
    } else {
      assert after <= before;
      SubsetIsSmaller(after, before);
    }
  }

  lemma AllowedPrefix(cfg: Limiter.Config, calls: seq<Limiter.Call>, n: nat)
    requires n < |calls|
    ensures calls[..n + 1][..n] == calls[..n]
    ensures Limiter.Allowed(cfg, calls[..n + 1], n) == Limiter.Allowed(cfg, calls, n)
  {
    assert calls[..n + 1][..n] == calls[..n];
  }

  lemma {:induction false} HandedAtMostAllowed(setup: Setup, s: PState, n: nat, user: string, lo: nat, hi: nat)
    requires Limits(setup) && LimiterOk(setup, s) && AgentOk(s) && n <= |s.checks|
    ensures |HandedIn(s, s.checks[..n], user, lo, hi)|
            <= Limiter.AllowedIn(setup.limit.value, Calls(s.checks)[..n], user, 0, lo, hi)
  {
    if n == 0 {
      assert HandedIn(s, [], user, lo, hi) == {};
    } else {
      var m := n - 1;
      HandedAtMostAllowed(setup, s, m, user, lo, hi);
      assert s.checks[..n] == s.checks[..m] + [s.checks[m]];
      HandedAppend(s, s.checks[..m], s.checks[m], user, lo, hi);
      AllowedPrefix(setup.limit.value, Calls(s.checks), m);
      assert CheckOk(setup, s, m);
      if Counts(s, s.checks[m], user, lo, hi) { HandedPassed(s, s.checks[m].mid); }
    }
  }

  lemma HandedPassed(s: PState, mid: Mid)
    requires AgentOk(s) && mid in s.agent
    ensures mid in s.messages && s.messages[mid].stage == Ended(Processed)
  {
    assert mid in multiset(s.agent);
  }

  lemma SubsetIsSmaller<T>(a: set<T>, b: set<T>)
    requires a <= b
    ensures |a| <= |b|
  {
    assert b == a + (b - a);
  }

  /** In any interval of one window length, at most two quotas of one user's messages are
      handed to the agent, counted at their limiter checks; and every message handed over
      has had exactly one check. */
  lemma AgentLoadIsBounded(setup: Setup, r: PRun, n: nat, user: string, lo: nat)
    requires IsPRun(setup, r) && n < |r.states| && Limits(setup)
    ensures var s, cfg := r.states[n], setup.limit.value;
            |HandedIn(s, s.checks, user, lo, lo + cfg.window)| <= 2 * Limiter.Quota(cfg)
    ensures forall mid | mid in r.states[n].agent ::
              exists i | 0 <= i < |r.states[n].checks| :: r.states[n].checks[i].mid == mid
    ensures forall i, j | 0 <= i < j < |r.states[n].checks| :: r.states[n].checks[i].mid != r.states[n].checks[j].mid
  {
    PReachableIsOk(setup, r, n);
    LoadIsBounded(setup, r.states[n], user, lo);
    EveryoneIsChecked(setup, r.states[n]);
  }

  lemma LoadIsBounded(setup: Setup, s: PState, user: string, lo: nat)
    requires Limits(setup) && LimiterOk(setup, s) && AgentOk(s)
    ensures var cfg := setup.limit.value;
            |HandedIn(s, s.checks, user, lo, lo + cfg.window)| <= 2 * Limiter.Quota(cfg)
  {
    var cfg, calls := setup.limit.value, Calls(s.checks);
    assert s.checks[..|s.checks|] == s.checks && calls[..|calls|] == calls;
    HandedAtMostAllowed(setup, s, |s.checks|, user, lo, lo + cfg.window);
    Limiter.BurstIsBounded(cfg, calls, user, lo);
  }

  lemma EveryoneIsChecked(setup: Setup, s: PState)
    requires Limits(setup) && LimiterOk(setup, s) && AgentOk(s)
    ensures forall mid | mid in s.agent :: exists i | 0 <= i < |s.checks| :: s.checks[i].mid == mid
    ensures forall i, j | 0 <= i < j < |s.checks| :: s.checks[i].mid != s.checks[j].mid
  {
    forall mid | mid in s.agent ensures exists i | 0 <= i < |s.checks| :: s.checks[i].mid == mid {
      HandedPassed(s, mid);
    }
  }

  // ── The gated runs inside the pipeline ────────────────────────────────────

  /** The gates' own run, and for each of its steps its position in the pipeline's run. */
  datatype Inner = Inner(run: GRun, at: seq<nat>)

  function Inside(r: PRun, n: nat): Inner
    requires |r.states| == |r.steps| + 1 && n < |r.states|
  {
    if n == 0 then Inner(GRun([r.states[0].gate], []), [])
    else
      var p := Inside(r, n - 1);
      match GateStep(r.states[n - 1], r.steps[n - 1])
      case None => p
      case Some(step) => Inner(GRun(p.run.states + [r.states[n].gate], p.run.steps + [step]), p.at + [n - 1])
  }

  ghost predicate Mirrors(r: PRun, n: nat, p: Inner)
    requires |r.states| == |r.steps| + 1 && n < |r.states|
  {
    && IsGRun(p.run) && |p.at| == |p.run.steps| && p.run.states[|p.run.steps|] == r.states[n].gate
    && forall k | 0 <= k < |p.at| ::
         p.at[k] < n && GateStep(r.states[p.at[k]], r.steps[p.at[k]]) == Some(p.run.steps[k])
         && r.states[p.at[k]].gate == p.run.states[k]
  }

  lemma GateAfter(setup: Setup, s: PState, step: PStep)
    requires PEnabled(setup, s, step)
    ensures match GateStep(s, step)
            case None => PApply(setup, s, step).gate == s.gate
            case Some(g) => GEnabled(s.gate, g) && PApply(setup, s, step).gate == GApply(s.gate, g)
  {
  }

  lemma MirrorStep(r: PRun, n: nat, p: Inner, step: GStep)
    requires |r.states| == |r.steps| + 1 && 0 < n < |r.states| && Mirrors(r, n - 1, p)
    requires GateStep(r.states[n - 1], r.steps[n - 1]) == Some(step)
    requires GEnabled(r.states[n - 1].gate, step) && r.states[n].gate == GApply(r.states[n - 1].gate, step)
    ensures Mirrors(r, n, Inner(GRun(p.run.states + [r.states[n].gate], p.run.steps + [step]), p.at + [n - 1]))
  {
    GExtendRun(p.run, step, r.states[n].gate);
  }

  lemma {:induction false} InsideMirrors(setup: Setup, r: PRun, n: nat)
    requires IsPRun(setup, r) && n < |r.states|
    ensures Mirrors(r, n, Inside(r, n))
  {
    if n > 0 {
      InsideMirrors(setup, r, n - 1);
      GateAfter(setup, r.states[n - 1], r.steps[n - 1]);
      match GateStep(r.states[n - 1], r.steps[n - 1])
      case None =>
      case Some(step) => MirrorStep(r, n, Inside(r, n - 1), step);
    }
  }

  lemma PSysIsOk(setup: Setup, r: PRun, n: nat)
    requires IsPRun(setup, r) && n < |r.states|
    ensures Inv(r.states[n].gate.sys)
  {
    InsideMirrors(setup, r, n);
    var p := Inside(r, n);
    GSysIsOk(p.run, |p.run.steps|);
  }

  /** Step `i` offers a message that approves the plan of `id`. */
  ghost predicate MessageApproves(r: PRun, i: nat, id: Id)
    requires |r.states| == |r.steps| + 1 && i < |r.steps|
  {
    var s, step := r.states[i], r.steps[i];
    && step.Offer? && step.mid in s.messages && id in s.gate.sys.tickets
    && var m, t := s.messages[step.mid], s.gate.sys.tickets[id];
       && m.user == t.user && m.channel == t.channel && m.stage == Fresh(true)
       && Live(s.gate.sys, id) && s.gate.sys.now < t.deadline && LoneWord(m.content, APPROVE_WORDS)
  }

  /** No run starts without an inbound message from its own user, on its own channel,
      saying nothing but an approve word, while its plan was the one pending and in time. */
  lemma StartNeedsAMessage(setup: Setup, r: PRun, n: nat, id: Id)
    requires IsPRun(setup, r) && n < |r.states| && id in r.states[n].gate.starts
    ensures exists i | 0 <= i < n :: MessageApproves(r, i, id)
  {
    InsideMirrors(setup, r, n);
    var p := Inside(r, n);
    StartNeedsApproval(p.run, |p.run.steps|, id);
    var k :| 0 <= k < |p.run.steps| && DecidedAt(p.run, k, id, Approved);
    DecidedIsMessage(setup, r, n, p, k, id);
  }

  lemma DecidedIsMessage(setup: Setup, r: PRun, n: nat, p: Inner, k: nat, id: Id)
    requires IsPRun(setup, r) && n < |r.states| && Mirrors(r, n, p) && k < |p.at| && DecidedAt(p.run, k, id, Approved)
    ensures p.at[k] < n && MessageApproves(r, p.at[k], id)
  {
    var i := p.at[k];
    assert GateStep(r.states[i], r.steps[i]) == Some(p.run.steps[k]);
    assert PEnabled(setup, r.states[i], r.steps[i]);
  }

  // ── Abandoned approvals and the duplicate window ──────────────────────────

  /** The ticket was given up while its entry is still registered. */
  ghost predicate LeftOver(s: PState, id: Id, key: Key) {
    var sys := s.gate.sys;
    id in sys.tickets && sys.tickets[id].phase.Dropped? && Live(sys, id) && sys.tickets[id].KeyOf() == key
  }

  predicate OpensFor(step: PStep, key: Key) {
    step.Background? && Gate.OpensFor(step.step, key)
  }

  /** A left-over approval stays exactly until a step begins another run for its sender. */
  lemma LeftOverStays(setup: Setup, s: PState, step: PStep, id: Id, key: Key)
    requires Inv(s.gate.sys) && PEnabled(setup, s, step) && LeftOver(s, id, key)
    ensures LeftOver(PApply(setup, s, step), id, key) <==> !OpensFor(step, key)
    ensures id in PApply(setup, s, step).gate.sys.tickets
    ensures PApply(setup, s, step).gate.sys.tickets[id] == s.gate.sys.tickets[id]
  {
    GateAfter(setup, s, step);
    match GateStep(s, step)
    case None =>
    case Some(g) => GateLeftOverStays(s.gate, g, id, key);
  }

  lemma GateLeftOverStays(g: GState, step: GStep, id: Id, key: Key)
    requires Inv(g.sys) && GEnabled(g, step)
    requires id in g.sys.tickets && g.sys.tickets[id].phase.Dropped? && Live(g.sys, id) && g.sys.tickets[id].KeyOf() == key
    ensures var sys := GApply(g, step).sys;
            id in sys.tickets && sys.tickets[id] == g.sys.tickets[id] && (Live(sys, id) <==> !Gate.OpensFor(step, key))
  {
    SysAfter(g, step);
    OnlyOpenBegins(g, step);
    if SysStep(step).Some? {
      ApprovalRuns.AbandonedSurvives(g.sys, SysStep(step).value, id);
      ApprovalRuns.PhaseAfter(g.sys, SysStep(step).value, id);
    }
  }

  /** A stage a message of the sender can be in while its check finds an approval pending. */
  predicate NeverDeduplicated(stage: Stage) {
    stage !in {Checked(false), Fresh(false), Ended(Duplicate)}
  }

  lemma PendingSkipsDedup(setup: Setup, s: PState, step: PStep, mid: Mid)
    requires setup.registry && PEnabled(setup, s, step)
    requires mid in s.messages ==> NeverDeduplicated(s.messages[mid].stage)
    requires mid in s.messages ==> s.messages[mid].KeyOf() in s.gate.sys.reg.pending
    ensures var s' := PApply(setup, s, step); mid in s'.messages ==> NeverDeduplicated(s'.messages[mid].stage)
  {
    if mid in s.messages && Handles(step) != Some(mid) { MessageAfter(setup, s, step, mid); }
  }

  /** While a given-up approval lingers, no message its sender sends on that channel is
      dropped as a duplicate: the exemption meant for one reply lasts until the sender
      begins another request. */
  lemma {:induction false} LeftOverDisablesDedup(setup: Setup, r: PRun, i: nat, n: nat, id: Id, key: Key, mid: Mid)
    requires setup.registry && IsPRun(setup, r) && i <= n < |r.states|
    requires LeftOver(r.states[i], id, key)
    requires forall k | i <= k < n :: !OpensFor(r.steps[k], key)
    requires mid in r.states[i].messages ==> NeverDeduplicated(r.states[i].messages[mid].stage)
    requires mid in r.states[n].messages && r.states[n].messages[mid].KeyOf() == key
    ensures r.states[n].messages[mid].stage != Ended(Duplicate)
    decreases n - i
  {
    if i < n {
      PSysIsOk(setup, r, i);
      var s := r.states[i];
      LeftOverStays(setup, s, r.steps[i], id, key);
      if mid in s.messages { KeyIsKept(setup, r, i, n, mid); }
      PendingSkipsDedup(setup, s, r.steps[i], mid);
      LeftOverDisablesDedup(setup, r, i + 1, n, id, key, mid);
    }
  }

  lemma {:induction false} KeyIsKept(setup: Setup, r: PRun, i: nat, n: nat, mid: Mid)
    requires IsPRun(setup, r) && i <= n < |r.states| && mid in r.states[i].messages
    ensures mid in r.states[n].messages && r.states[n].messages[mid].KeyOf() == r.states[i].messages[mid].KeyOf()
    decreases n - i
  {
    if i < n {
      MessageAfter(setup, r.states[i], r.steps[i], mid);
      KeyIsKept(setup, r, i + 1, n, mid);
    }
  }

  // ── The exemption while an abandoned approval is in time ──────────────────

  lemma NowGrows(setup: Setup, s: PState, step: PStep)
    requires PEnabled(setup, s, step)
    ensures s.gate.sys.now <= PApply(setup, s, step).gate.sys.now
  {
    GateAfter(setup, s, step);
    if GateStep(s, step).Some? { SysAfter(s.gate, GateStep(s, step).value); }
  }

  lemma {:induction false} NowHasGrown(setup: Setup, r: PRun, i: nat, n: nat)
    requires IsPRun(setup, r) && i <= n < |r.states|
    ensures r.states[i].gate.sys.now <= r.states[n].gate.sys.now
    decreases n - i
  {
    if i < n {
      NowGrows(setup, r.states[i], r.steps[i]);
      NowHasGrown(setup, r, i + 1, n);
    }
  }

  /** The registry has something to say to every message of a sender whose plan is
      registered and in time. */
  lemma InTimeIsAnswered(s: State, id: Id, text: string)
    requires Inv(s) && id in s.tickets && Live(s, id) && s.now < s.tickets[id].deadline
    ensures !Answer(s.reg, s.now, s.tickets[id].user, s.tickets[id].channel, text).NothingPending?
  {
    assert EntryOk(s, s.tickets[id].KeyOf());
  }

  lemma InTimeKeepsOnPath(setup: Setup, s: PState, step: PStep, id: Id, mid: Mid)
    requires setup.registry && Inv(s.gate.sys) && PEnabled(setup, s, step)
    requires id in s.gate.sys.tickets && Live(s.gate.sys, id) && s.gate.sys.now < s.gate.sys.tickets[id].deadline
    requires mid in s.messages ==>
               s.messages[mid].KeyOf() == s.gate.sys.tickets[id].KeyOf() && OnGatePath(s.messages[mid].stage)
    ensures mid in PApply(setup, s, step).messages ==> OnGatePath(PApply(setup, s, step).messages[mid].stage)
  {
    if mid in s.messages {
      if Handles(step) == Some(mid) {
        InTimeIsAnswered(s.gate.sys, id, s.messages[mid].content);
        OnPathByKey(setup, s, step, s.gate.sys.tickets[id].KeyOf(), mid);
      } else {
        MessageAfter(setup, s, step, mid);
      }
    }
  }

  lemma OnPathByKey(setup: Setup, s: PState, step: PStep, key: Key, mid: Mid)
    requires setup.registry && PEnabled(setup, s, step) && Handles(step) == Some(mid) && mid in s.messages
    requires key in s.gate.sys.reg.pending && s.messages[mid].KeyOf() == key
    requires !AnswerTo(s, s.messages[mid]).NothingPending? && OnGatePath(s.messages[mid].stage)
    ensures mid in PApply(setup, s, step).messages && OnGatePath(PApply(setup, s, step).messages[mid].stage)
  {
  }

  /** While an abandoned approval is registered and in time, every message its sender sends
      on that channel stays on the path of a plan reply, so it can end only as one. */
  lemma {:induction false} LeftOverKeepsOnPath(setup: Setup, r: PRun, i: nat, n: nat, id: Id, key: Key, mid: Mid)
    requires setup.registry && IsPRun(setup, r) && i <= n < |r.states|
    requires LeftOver(r.states[i], id, key) && r.states[n].gate.sys.now < r.states[i].gate.sys.tickets[id].deadline
    requires forall k | i <= k < n :: !OpensFor(r.steps[k], key)
    requires mid in r.states[i].messages ==> OnGatePath(r.states[i].messages[mid].stage)
    requires mid in r.states[n].messages && r.states[n].messages[mid].KeyOf() == key
    ensures OnGatePath(r.states[n].messages[mid].stage)
    decreases n - i
  {
    if i < n {
      var s := r.states[i];
      PSysIsOk(setup, r, i);
      LeftOverStays(setup, s, r.steps[i], id, key);
      NowHasGrown(setup, r, i, n);
      if mid in s.messages { KeyIsKept(setup, r, i, n, mid); }
      InTimeKeepsOnPath(setup, s, r.steps[i], id, mid);
      LeftOverKeepsOnPath(setup, r, i + 1, n, id, key, mid);
    }
  }

  /** And exactly until its deadline: of the messages that sender sends while the entry is
      left over, those offered before the deadline end as replies, the others do not. */
  lemma LeftOverExemptsUntilDeadline(setup: Setup, r: PRun, i: nat, c: nat, j: nat, n: nat, id: Id, key: Key, mid: Mid)
    requires setup.registry && IsPRun(setup, r) && i <= c < j < n < |r.states|
    requires LeftOver(r.states[i], id, key) && forall k | i <= k < j :: !OpensFor(r.steps[k], key)
    requires r.steps[c] == CheckPending(mid) && r.steps[j] == Offer(mid)
    requires mid in r.states[n].messages && r.states[n].messages[mid].KeyOf() == key
    ensures OnGatePath(r.states[n].messages[mid].stage)
            <==> r.states[j].gate.sys.now < r.states[i].gate.sys.tickets[id].deadline
  {
    LeftOverUntil(setup, r, i, c, id, key);
    LeftOverUntil(setup, r, i, j, id, key);
    PSysIsOk(setup, r, j);
    assert EntryOk(r.states[j].gate.sys, key);
    ExemptExactly(setup, r, c, j, n, mid);
  }

  lemma {:induction false} LeftOverUntil(setup: Setup, r: PRun, i: nat, j: nat, id: Id, key: Key)
    requires IsPRun(setup, r) && i <= j < |r.states|
    requires LeftOver(r.states[i], id, key) && forall k | i <= k < j :: !OpensFor(r.steps[k], key)
    ensures LeftOver(r.states[j], id, key) && r.states[j].gate.sys.tickets[id] == r.states[i].gate.sys.tickets[id]
    decreases j - i
  {
    if i < j {
      PSysIsOk(setup, r, i);
      LeftOverStays(setup, r.states[i], r.steps[i], id, key);
      LeftOverUntil(setup, r, i + 1, j, id, key);
    }
  }

  /** Those messages pass both the duplicate window and the limiter untouched, and none
      reaches the agent. */
  lemma LeftOverExemptsMessages(setup: Setup, r: PRun, i: nat, n: nat, id: Id, key: Key, mid: Mid, k: nat)
    requires setup.registry && IsPRun(setup, r) && i <= k < n < |r.states|
    requires LeftOver(r.states[i], id, key) && r.states[n].gate.sys.now < r.states[i].gate.sys.tickets[id].deadline
    requires forall k | i <= k < n :: !OpensFor(r.steps[k], key)
    requires mid in r.states[i].messages ==> OnGatePath(r.states[i].messages[mid].stage)
    requires mid in r.states[n].messages && r.states[n].messages[mid].KeyOf() == key
    requires Handles(r.steps[k]) == Some(mid)
    ensures var stage := r.states[n].messages[mid].stage; stage.Ended? ==> stage.ending in {GateSettled, GateClarified}
    ensures var s, s' := r.states[k], r.states[k + 1];
            s'.window == s.window && s'.table == s.table && s'.checks == s.checks && s'.agent == s.agent
  {
    LeftOverKeepsOnPath(setup, r, i, n, id, key, mid);
    HandledIsThere(setup, r.states[k], r.steps[k], mid);
    KeyIsKept(setup, r, k + 1, n, mid);
    NowHasGrown(setup, r, k + 1, n);
    LeftOverKeepsOnPath(setup, r, i, k + 1, id, key, mid);
    GatePathTouchesNothing(setup, r.states[k], r.steps[k]);
  }

  // ── The exemption of a settled entry ──────────────────────────────────────

  /** The four steps of a message sent while its sender has an approval in time. */
  function Exempt(mid: Mid, user: string, channel: string, text: string): seq<PStep> {
    [Arrive(mid, user, channel, text), CheckPending(mid), Deduplicate(mid), Offer(mid)]
  }

  /** The state with one more message at the given stage. */
  function Sent(s: PState, mid: Mid, user: string, channel: string, text: string, stage: Stage): PState {
    s.(messages := s.messages[mid := Message(user, channel, text, stage)])
  }

  lemma SentIsKept(setup: Setup, s: PState, mid: Mid, user: string, channel: string, text: string)
    requires setup.registry && mid !in s.messages && InTime(s, Key(channel, user))
    ensures Leads(setup, s, Exempt(mid, user, channel, text)[..3], Sent(s, mid, user, channel, text, Fresh(true)))
  {
    var arrived := Sent(s, mid, user, channel, text, Arrived);
    var checked := Sent(s, mid, user, channel, text, Checked(true));
    var kept := Sent(s, mid, user, channel, text, Fresh(true));
    assert PApply(setup, s, Arrive(mid, user, channel, text)) == arrived;
    assert PApply(setup, arrived, CheckPending(mid)) == checked;
    assert PApply(setup, checked, Deduplicate(mid)) == kept;
    LeadsCons(setup, checked, Deduplicate(mid), [], kept);
    LeadsCons(setup, arrived, CheckPending(mid), [Deduplicate(mid)], kept);
    LeadsCons(setup, s, Arrive(mid, user, channel, text), [CheckPending(mid), Deduplicate(mid)], kept);
    assert [CheckPending(mid)] + [Deduplicate(mid)] == [CheckPending(mid), Deduplicate(mid)];
    assert Exempt(mid, user, channel, text)[..3]
           == [Arrive(mid, user, channel, text)] + [CheckPending(mid), Deduplicate(mid)];
  }

  lemma LeadsCons(setup: Setup, s: PState, step: PStep, rest: seq<PStep>, last: PState)
    requires PEnabled(setup, s, step) && Leads(setup, PApply(setup, s, step), rest, last)
    ensures Leads(setup, s, [step] + rest, last)
  {
    assert ([step] + rest)[1..] == rest;
  }

  /** Such a message is answered at once; nothing but the registry and the message itself
      changes. */
  function Answered(s: PState, mid: Mid, user: string, channel: string, text: string): PState {
    var stage := Ended(if Classify(text) == Unrecognised then GateClarified else GateSettled);
    Sent(s, mid, user, channel, text, stage).(gate := GApply(s.gate, Outside(Reply(user, channel, text))))
  }

  lemma ExemptMessage(setup: Setup, s: PState, mid: Mid, user: string, channel: string, text: string)
    requires setup.registry && Inv(s.gate.sys) && mid !in s.messages && InTime(s, Key(channel, user))
    ensures Leads(setup, s, Exempt(mid, user, channel, text), Answered(s, mid, user, channel, text))
  {
    var kept, last := Sent(s, mid, user, channel, text, Fresh(true)), Answered(s, mid, user, channel, text);
    SentIsKept(setup, s, mid, user, channel, text);
    AnsweredExactly(s.gate.sys, user, channel, text);
    SentIsAnswered(setup, s, mid, user, channel, text);
    LeadsCons(setup, kept, Offer(mid), [], last);
    assert [Offer(mid)] + [] == [Offer(mid)];
    FourthStep(setup, s, Exempt(mid, user, channel, text), kept, last);
  }

  lemma FourthStep(setup: Setup, s: PState, steps: seq<PStep>, kept: PState, last: PState)
    requires |steps| == 4 && Leads(setup, s, steps[..3], kept) && Leads(setup, kept, [steps[3]], last)
    ensures Leads(setup, s, steps, last)
  {
    LeadsOn(setup, s, steps[..3], kept, [steps[3]], last);
    assert steps == steps[..3] + [steps[3]];
  }

  lemma SentIsAnswered(setup: Setup, s: PState, mid: Mid, user: string, channel: string, text: string)
    requires var answer := Answer(s.gate.sys.reg, s.gate.sys.now, user, channel, text);
             if Classify(text) == Unrecognised then answer.NeedsClarification? else answer.Settled?
    ensures var kept := Sent(s, mid, user, channel, text, Fresh(true));
            PEnabled(setup, kept, Offer(mid)) && PApply(setup, kept, Offer(mid)) == Answered(s, mid, user, channel, text)
  {
    var kept := Sent(s, mid, user, channel, text, Fresh(true));
    var last := PApply(setup, kept, Offer(mid));
    assert last.messages == Answered(s, mid, user, channel, text).messages;
  }

  lemma {:induction false} LeadsOn(setup: Setup, s: PState, xs: seq<PStep>, mid: PState, ys: seq<PStep>, last: PState)
    requires Leads(setup, s, xs, mid) && Leads(setup, mid, ys, last)
    ensures Leads(setup, s, xs + ys, last)
    decreases |xs|
  {
    if xs == [] {
      assert xs + ys == ys;
    } else {
      LeadsOn(setup, PApply(setup, s, xs[0]), xs[1..], mid, ys, last);
      assert (xs + ys)[1..] == xs[1..] + ys;
    }
  }

  /** A plan that was delivered and is waited for. */
  function Awaited(caps: Caps): seq<PStep> {
    [Background(Open("r", "u", "c", caps, 1)), Background(Deliver("r", true)), Background(Holder(Wait("r")))]
  }

  lemma PlanAwaits(setup: Setup, now: Time, caps: Caps) returns (s: PState)
    ensures Leads(setup, PStart(now), Awaited(caps), s)
    ensures s.messages == map[] && PlanOpen(s)
  {
    var a, b, c := Awaited(caps)[0], Awaited(caps)[1], Awaited(caps)[2];
    var begun := PApply(setup, PStart(now), a);
    var delivered := PApply(setup, begun, b);
    ApprovalRuns.AskedIsAnswerable(now, caps);
    assert begun.gate.sys == ApprovalRuns.Asked(now, caps) == delivered.gate.sys;
    s := PApply(setup, delivered, c);
    assert s.gate.sys == Apply(delivered.gate.sys, Wait("r"));
    StepKeeps(delivered.gate.sys, Wait("r"));
    LeadsCons(setup, delivered, c, [], s);
    LeadsCons(setup, begun, b, [c] + [], s);
    LeadsCons(setup, PStart(now), a, [b] + ([c] + []), s);
    assert Awaited(caps) == [a] + ([b] + ([c] + []));
  }

  /** Nothing needs to be abandoned for the exemption to outlive its purpose: while a plan is
      waited for, its sender approves it, and before the waiter has cleaned up sends any text
      at all. The plan is already decided, yet that text too ends as a reply, past window and
      limiter. */
  lemma SettledEntryStillExempts(setup: Setup, now: Time, caps: Caps, text: string)
    returns (settled: PState, last: PState)
    requires setup.registry
    ensures Leads(setup, PStart(now), Awaited(caps) + Exempt(0, "u", "c", "yes"), settled)
    ensures Leads(setup, settled, Exempt(1, "u", "c", text), last)
    ensures DecidedWhileAwaited(settled) && At(settled, 0, Ended(GateSettled))
    ensures At(last, 1, Ended(if Classify(text) == Unrecognised then GateClarified else GateSettled))
    ensures last.window == settled.window && last.table == settled.table && last.agent == settled.agent
  {
    BareWordsCount();
    var waiting := PlanAwaits(setup, now, caps);
    settled := FirstReply(setup, waiting, "yes");
    LeadsOn(setup, PStart(now), Awaited(caps), waiting, Exempt(0, "u", "c", "yes"), settled);
    last := NextText(setup, settled, text);
  }

  lemma FirstReply(setup: Setup, waiting: PState, yes: string) returns (settled: PState)
    requires setup.registry && PlanOpen(waiting) && waiting.messages == map[] && Classify(yes) == Approve
    ensures Leads(setup, waiting, Exempt(0, "u", "c", yes), settled)
    ensures DecidedWhileAwaited(settled) && At(settled, 0, Ended(GateSettled)) && 1 !in settled.messages
    ensures Inv(settled.gate.sys) && InTime(settled, Key("c", "u"))
  {
    settled := Answered(waiting, 0, "u", "c", yes);
    FirstAnswer(waiting, yes, settled);
    PlanApproved(waiting, yes, settled);
    ExemptMessage(setup, waiting, 0, "u", "c", yes);
  }

  lemma FirstAnswer(waiting: PState, yes: string, settled: PState)
    requires waiting.messages == map[] && Classify(yes) == Approve && settled == Answered(waiting, 0, "u", "c", yes)
    ensures settled.gate.sys == Apply(waiting.gate.sys, Reply("u", "c", yes))
    ensures At(settled, 0, Ended(GateSettled)) && 1 !in settled.messages
  {
    AnsweredParts(waiting, 0, "u", "c", yes, settled);
  }

  lemma NextText(setup: Setup, s: PState, text: string) returns (last: PState)
    requires setup.registry && Inv(s.gate.sys) && 1 !in s.messages && InTime(s, Key("c", "u"))
    ensures Leads(setup, s, Exempt(1, "u", "c", text), last)
    ensures At(last, 1, Ended(if Classify(text) == Unrecognised then GateClarified else GateSettled))
    ensures last.window == s.window && last.table == s.table && last.agent == s.agent
  {
    last := Answered(s, 1, "u", "c", text);
    AnsweredParts(s, 1, "u", "c", text, last);
    ExemptMessage(setup, s, 1, "u", "c", text);
  }

  /** The plan is still waited for, and its channel holds the approval. */
  predicate DecidedWhileAwaited(s: PState) {
    var sys := s.gate.sys;
    && "r" in sys.tickets && sys.tickets["r"].phase.Waiting?
    && "r" in sys.reg.shots && sys.reg.shots["r"].value == Some(Approved)
  }

  ghost predicate PlanOpen(s: PState) {
    var sys := s.gate.sys;
    && Inv(sys) && "r" in sys.tickets && sys.tickets["r"].phase.Waiting? && Live(sys, "r")
    && sys.tickets["r"].KeyOf() == Key("c", "u") && sys.now < sys.tickets["r"].deadline
    && sys.reg.pending[Key("c", "u")].settle
  }

  lemma PlanApproved(s: PState, yes: string, settled: PState)
    requires PlanOpen(s) && Classify(yes) == Approve
    requires settled.gate.sys == Apply(s.gate.sys, Reply("u", "c", yes))
    ensures InTime(s, Key("c", "u"))
    ensures DecidedWhileAwaited(settled) && Inv(settled.gate.sys) && InTime(settled, Key("c", "u"))
  {
    YesDecides(s.gate.sys, yes);
  }

  lemma AnsweredParts(s: PState, mid: Mid, user: string, channel: string, text: string, last: PState)
    requires last == Answered(s, mid, user, channel, text)
    ensures last.gate.sys == Apply(s.gate.sys, Reply(user, channel, text))
    ensures last.messages.Keys == s.messages.Keys + {mid}
    ensures last.messages[mid].stage == Ended(if Classify(text) == Unrecognised then GateClarified else GateSettled)
  {
  }

  lemma YesDecides(s: State, yes: string)
    requires Inv(s) && "r" in s.tickets && s.tickets["r"].phase.Waiting? && Classify(yes) == Approve
    requires Live(s, "r") && s.tickets["r"].KeyOf() == Key("c", "u") && s.now < s.tickets["r"].deadline
    requires s.reg.pending[Key("c", "u")].settle
    ensures Key("c", "u") in s.reg.pending && s.now < s.reg.pending[Key("c", "u")].deadline
    ensures var s' := Apply(s, Reply("u", "c", yes));
            && Inv(s') && s'.tickets == s.tickets && s'.now == s.now
            && "r" in s'.reg.shots && s'.reg.shots["r"].value == Some(Approved)
            && Key("c", "u") in s'.reg.pending && s'.now < s'.reg.pending[Key("c", "u")].deadline
  {
    EntryInTime(s, Key("c", "u"));
    ReplyKeepsDeadlines(s, "u", "c", yes, Key("c", "u"));
    ReplyKeeps(s, "u", "c", yes);
    ApprovalRuns.SettlingDecidesExactly(s, "r", yes);
  }

  lemma EntryInTime(s: State, key: Key)
    requires Inv(s) && key in s.reg.pending
    ensures s.reg.pending[key].id in s.tickets && s.reg.pending[key].deadline == s.tickets[s.reg.pending[key].id].deadline
  {
    assert EntryOk(s, key);
  }

  lemma ReplyKeepsDeadlines(s: State, user: string, channel: string, text: string, key: Key)
    requires key in s.reg.pending
    ensures var s' := Apply(s, Reply(user, channel, text));
            && s'.tickets == s.tickets && s'.now == s.now
            && key in s'.reg.pending && s'.reg.pending[key].deadline == s.reg.pending[key].deadline
  {
  }

  // ── One message for one start ─────────────────────────────────────────────

  /** The offers among the first `n` steps that approve some plan. */
  ghost function ApprovingOffers(r: PRun, n: nat): set<nat>
    requires |r.states| == |r.steps| + 1 && n < |r.states|
  {
    set i: nat | i < n && exists id | id in r.states[i].gate.sys.tickets :: MessageApproves(r, i, id)
  }

  lemma OfferApprovesOne(r: PRun, i: nat, a: Id, b: Id)
    requires |r.states| == |r.steps| + 1 && i < |r.steps| && MessageApproves(r, i, a) && MessageApproves(r, i, b)
    ensures a == b
  {
  }

  /** There are never more starts than inbound messages that approve a plan. */
  lemma StartsAtMostApprovingMessages(setup: Setup, r: PRun, n: nat)
    requires IsPRun(setup, r) && n < |r.states|
    ensures |r.states[n].gate.starts| <= |ApprovingOffers(r, n)|
  {
    var starts := r.states[n].gate.starts;
    var approves := (i: nat, id: Id) => i < n && id in starts && MessageApproves(r, i, id);
    forall id | id in starts ensures multiset(starts)[id] == 1 && exists i: nat :: approves(i, id) {
      StartedOnce(setup, r, n, id);
      StartNeedsAMessage(setup, r, n, id);
      var i :| 0 <= i < n && MessageApproves(r, i, id);
      assert approves(i, id);
    }
    forall i: nat, a, b | approves(i, a) && approves(i, b) ensures a == b { OfferApprovesOne(r, i, a, b); }
    var used := OneEach(starts, approves);
    forall i | i in used ensures i in ApprovingOffers(r, n) {
      var id :| approves(i, id);
    }
    assert ApprovingOffers(r, n) == used + (ApprovingOffers(r, n) - used);
  }

  lemma StartedOnce(setup: Setup, r: PRun, n: nat, id: Id)
    requires IsPRun(setup, r) && n < |r.states| && id in r.states[n].gate.starts
    ensures multiset(r.states[n].gate.starts)[id] == 1
  {
    InsideMirrors(setup, r, n);
    var p := Inside(r, n);
    StartNeedsApproval(p.run, |p.run.steps|, id);
  }
}
