/** The message pipeline over the registry, the duplicate window and the rate limiter.
    Messages are handled concurrently; each await point of one message is one step. */
module Pipeline {
  import opened Prelude
  import opened Approval
  import opened Gate
  import Dedup = Deduplicator
  import Limiter = RateLimiter

  type Mid = nat

  /** The optional parts; a limiter is present only with its configuration. */
  datatype Setup = Setup(registry: bool, capacity: Option<nat>, limit: Option<Limiter.Config>)

  datatype Ending = Duplicate | GateSettled | GateClarified | RateDenied | Processed

  datatype Stage =
    | Arrived
    | Checked(awaiting: bool)   // asked whether an approval is pending
    | Fresh(awaiting: bool)     // past the duplicate window
    | Ordinary                  // not a reply to a plan
    | Admitted                  // past the limiter
    | Ended(ending: Ending)

  datatype Message = Message(user: string, channel: string, content: string, stage: Stage) {
    function KeyOf(): Key {
      Key(channel, user)
    }
  }

  /** An observer's note of one limiter check. */
  datatype Check = Check(mid: Mid, call: Limiter.Call)

  datatype PState = PState(
    gate: GState, window: seq<string>, table: Limiter.Table,
    messages: map<Mid, Message>, checks: seq<Check>, agent: seq<Mid>)

  function PStart(now: Time): PState {
    PState(GStart(now), [], map[], map[], [], [])
  }

  datatype PStep =
    | Arrive(mid: Mid, user: string, channel: string, content: string)
    | CheckPending(mid: Mid)
    | Deduplicate(mid: Mid)
    | Offer(mid: Mid)
    | Limit(mid: Mid, clock: Limiter.Clock)
    | Process(mid: Mid)
    | Background(step: GStep)

  function Calls(checks: seq<Check>): (r: seq<Limiter.Call>)
    ensures |r| == |checks| && forall i | 0 <= i < |checks| :: r[i] == checks[i].call
  {
    seq(|checks|, i requires 0 <= i < |checks| => checks[i].call)
  }

  /** The limiter is asked only when it is configured and enabled. */
  predicate Limits(setup: Setup) {
    setup.limit.Some? && setup.limit.value.enabled
  }

  predicate At(s: PState, mid: Mid, stage: Stage) {
    mid in s.messages && s.messages[mid].stage == stage
  }

  function Put(s: PState, mid: Mid, stage: Stage): map<Mid, Message>
    requires mid in s.messages
  {
    s.messages[mid := s.messages[mid].(stage := stage)]
  }

  /** What the registry answers a message. */
  function AnswerTo(s: PState, m: Message): ReplyOutcome {
    Answer(s.gate.sys.reg, s.gate.sys.now, m.user, m.channel, m.content)
  }

  /** The step of the gated runs inside a pipeline step. */
  function GateStep(s: PState, step: PStep): Option<GStep> {
    match step
    case Offer(mid) =>
      if mid in s.messages && s.messages[mid].stage == Fresh(true)
      then Some(Outside(Reply(s.messages[mid].user, s.messages[mid].channel, s.messages[mid].content)))
      else None
    case Background(g) => Some(g)
    case _ => None
  }

  ghost predicate PEnabled(setup: Setup, s: PState, step: PStep) {
    match step
    case Arrive(mid, _, _, _) => mid !in s.messages
    case CheckPending(mid) => At(s, mid, Arrived)
    case Deduplicate(mid) => At(s, mid, Checked(true)) || At(s, mid, Checked(false))
    case Offer(mid) => At(s, mid, Fresh(true)) || At(s, mid, Fresh(false))
    case Limit(mid, clock) =>
      && At(s, mid, Ordinary)
      && Limiter.Ordered(Calls(s.checks) + [Limiter.Call(s.messages[mid].user, clock)])
    case Process(mid) => At(s, mid, Admitted)
    case Background(g) => GEnabled(s.gate, g) && !(g.Outside? && g.step.Reply?)
  }

  function PApply(setup: Setup, s: PState, step: PStep): PState
    requires PEnabled(setup, s, step)
  {
    match step
    case Arrive(mid, user, channel, content) =>
      s.(messages := s.messages[mid := Message(user, channel, content, Arrived)])
    case CheckPending(mid) =>
      s.(messages := Put(s, mid, Checked(setup.registry && s.messages[mid].KeyOf() in s.gate.sys.reg.pending)))
    case Deduplicate(mid) =>
      var m := s.messages[mid];
      if setup.capacity.None? || m.stage.awaiting then s.(messages := Put(s, mid, Fresh(m.stage.awaiting)))
      else if Dedup.Key(m.user, m.content) in s.window then s.(messages := Put(s, mid, Ended(Duplicate)))
      else
        s.(messages := Put(s, mid, Fresh(false)),
           window := Dedup.Offer(s.window, setup.capacity.value, Dedup.Key(m.user, m.content)))
    case Offer(mid) =>
      var m := s.messages[mid];
      if !m.stage.awaiting then s.(messages := Put(s, mid, Ordinary))
      else
        s.(gate := GApply(s.gate, Outside(Reply(m.user, m.channel, m.content))),
           messages := Put(s, mid, match AnswerTo(s, m)
                                   case Settled(_, _) => Ended(GateSettled)
                                   case NeedsClarification(_) => Ended(GateClarified)
                                   case NothingPending => Ordinary))
    case Limit(mid, clock) =>
      var user := s.messages[mid].user;
      if !Limits(setup) then s.(messages := Put(s, mid, Admitted))
      else
        var (entry, allowed) := Limiter.Decide(Limiter.Lookup(s.table, user), setup.limit.value, clock);
        s.(messages := Put(s, mid, if allowed then Admitted else Ended(RateDenied)),
           table := s.table[user := entry],
           checks := s.checks + [Check(mid, Limiter.Call(user, clock))])
    case Process(mid) => s.(messages := Put(s, mid, Ended(Processed)), agent := s.agent + [mid])
    case Background(g) => s.(gate := GApply(s.gate, g))
  }

  /** The message a step handles. */
  function Handles(step: PStep): Option<Mid> {
    match step
    case Background(_) => None
    case _ => Some(step.mid)
  }

  // ── Each message ends once ────────────────────────────────────────────────

  /** A message that has ended takes no further step, and other messages' steps leave
      every message alone. */
  lemma MessageAfter(setup: Setup, s: PState, step: PStep, mid: Mid)
    requires PEnabled(setup, s, step) && mid in s.messages
    ensures var s' := PApply(setup, s, step);
            && mid in s'.messages
            && s'.messages[mid].(stage := Arrived) == s.messages[mid].(stage := Arrived)
            && (Handles(step) != Some(mid) ==> s'.messages[mid] == s.messages[mid])
            && (s.messages[mid].stage.Ended? ==> Handles(step) != Some(mid))
  {
  }

  /** Still on the way a reply to a plan takes, or ended there. */
  predicate OnGatePath(stage: Stage) {
    stage in {Arrived, Checked(true), Fresh(true), Ended(GateSettled), Ended(GateClarified)}
  }

  lemma LeavingIsForGood(setup: Setup, s: PState, step: PStep, mid: Mid)
    requires PEnabled(setup, s, step) && mid in s.messages && !OnGatePath(s.messages[mid].stage)
    ensures mid in PApply(setup, s, step).messages && !OnGatePath(PApply(setup, s, step).messages[mid].stage)
  {
    if Handles(step) != Some(mid) { MessageAfter(setup, s, step, mid); }
  }

  /** Nothing a reply on the gate's path goes through touches the duplicate window, the
      limiter or the agent. */
  lemma GatePathTouchesNothing(setup: Setup, s: PState, step: PStep)
    requires PEnabled(setup, s, step) && Handles(step).Some?
    requires var s' := PApply(setup, s, step);
             step.mid in s'.messages && OnGatePath(s'.messages[step.mid].stage)
    ensures var s' := PApply(setup, s, step);
            s'.window == s.window && s'.table == s.table && s'.checks == s.checks && s'.agent == s.agent
  {
  }

  // ── A message can always go on ────────────────────────────────────────────

  /** How many steps of its own a message has left at most. */
  function StepsLeft(stage: Stage): nat {
    match stage
    case Arrived => 5
    case Checked(_) => 4
    case Fresh(_) => 3
    case Ordinary => 2
    case Admitted => 1
    case Ended(_) => 0
  }

  lemma OwnStepCounts(setup: Setup, s: PState, step: PStep, mid: Mid)
    requires PEnabled(setup, s, step) && Handles(step) == Some(mid) && mid in s.messages
    ensures var s' := PApply(setup, s, step);
            mid in s'.messages && StepsLeft(s'.messages[mid].stage) < StepsLeft(s.messages[mid].stage)
  {
  }

  lemma {:induction false} AllOverBy(calls: seq<Limiter.Call>) returns (t: nat)
    ensures forall c | c in calls :: c.clock.reset <= t
  {
    if calls == [] {
      t := 0;
    } else {
      var last := |calls| - 1;
      var before := AllOverBy(calls[..last]);
      t := if before < calls[last].clock.reset then calls[last].clock.reset else before;
      assert calls == calls[..last] + [calls[last]];
    }
  }

  lemma LaterCallIsOrdered(calls: seq<Limiter.Call>, user: string) returns (clock: Limiter.Clock)
    requires Limiter.Ordered(calls)
    ensures Limiter.Ordered(calls + [Limiter.Call(user, clock)])
  {
    var t := AllOverBy(calls);
    clock := Limiter.Clock(t, t, t);
    var more := calls + [Limiter.Call(user, clock)];
    forall i, j | 0 <= i < j < |more| && more[i].user == more[j].user
      ensures more[i].clock.reset <= more[j].clock.entered
    {
      if j == |calls| { assert calls[i] in calls; }
    }
  }

  /** Whatever the other messages, the gates and the clock have done, a message that has
      not ended has a step of its own to take. */
  lemma NextStep(setup: Setup, s: PState, mid: Mid) returns (step: PStep)
    requires mid in s.messages && !s.messages[mid].stage.Ended? && Limiter.Ordered(Calls(s.checks))
    ensures PEnabled(setup, s, step) && Handles(step) == Some(mid)
  {
    match s.messages[mid].stage
    case Arrived => step := CheckPending(mid);
    case Checked(_) => step := Deduplicate(mid);
    case Fresh(_) => step := Offer(mid);
    case Ordinary =>
      var clock := LaterCallIsOrdered(Calls(s.checks), s.messages[mid].user);
      step := Limit(mid, clock);
    case Admitted => step := Process(mid);
  }

  lemma ChecksStayOrdered(setup: Setup, s: PState, step: PStep)
    requires PEnabled(setup, s, step) && Limiter.Ordered(Calls(s.checks))
    ensures Limiter.Ordered(Calls(PApply(setup, s, step).checks))
  {
    var s' := PApply(setup, s, step);
    if s'.checks != s.checks {
      assert Calls(s'.checks) == Calls(s.checks) + [Limiter.Call(s.messages[step.mid].user, step.clock)];
    }
  }

  // ── The invariant ─────────────────────────────────────────────────────────

  predicate Passed(stage: Stage) {
    stage == Admitted || stage == Ended(Processed)
  }

  predicate Limited(stage: Stage) {
    Passed(stage) || stage == Ended(RateDenied)
  }

  ghost predicate CheckOk(setup: Setup, s: PState, i: nat)
    requires i < |s.checks| && Limits(setup)
  {
    var c := s.checks[i];
    && c.mid in s.messages && c.call.user == s.messages[c.mid].user
    && Limited(s.messages[c.mid].stage)
    && (Limiter.Allowed(setup.limit.value, Calls(s.checks), i) <==> Passed(s.messages[c.mid].stage))
  }

  /** The limiter's half of the invariant. */
  ghost predicate LimiterOk(setup: Setup, s: PState)
    requires Limits(setup)
  {
    && s.table == Limiter.After(setup.limit.value, Calls(s.checks))
    && Limiter.Ordered(Calls(s.checks))
    && (forall i | 0 <= i < |s.checks| :: CheckOk(setup, s, i))
    && (forall i, j | 0 <= i < j < |s.checks| :: s.checks[i].mid != s.checks[j].mid)
    && (forall mid | mid in s.messages && Limited(s.messages[mid].stage) ::
          exists i | 0 <= i < |s.checks| :: s.checks[i].mid == mid)
  }

  /** The agent's half. */
  ghost predicate AgentOk(s: PState) {
    && (forall mid | mid in s.agent :: mid in s.messages)
    && forall mid | mid in s.messages ::
         multiset(s.agent)[mid] == if s.messages[mid].stage == Ended(Processed) then 1 else 0
  }

  /** The limiter's table is the one its checks lead to, each message past the limiter has
      exactly one check, and the agent has exactly the processed messages, each once. */
  ghost predicate PInv(setup: Setup, s: PState) {
    (Limits(setup) ==> LimiterOk(setup, s)) && AgentOk(s)
  }

  lemma AgentKeeps(setup: Setup, s: PState, step: PStep)
    requires PEnabled(setup, s, step) && AgentOk(s)
    ensures AgentOk(PApply(setup, s, step))
  {
    var s' := PApply(setup, s, step);
    forall mid | mid in s'.messages
      ensures multiset(s'.agent)[mid] == if s'.messages[mid].stage == Ended(Processed) then 1 else 0
    {
      AgentKeepsOne(setup, s, step, mid);
    }
  }

  lemma AgentKeepsOne(setup: Setup, s: PState, step: PStep, mid: Mid)
    requires PEnabled(setup, s, step) && AgentOk(s) && mid in PApply(setup, s, step).messages
    ensures var s' := PApply(setup, s, step);
            multiset(s'.agent)[mid] == if s'.messages[mid].stage == Ended(Processed) then 1 else 0
  {
    if mid in s.messages { MessageAfter(setup, s, step, mid); } else { assert mid !in multiset(s.agent); }
  }

  /** Outside the limiter no message gets past it or back. */
  lemma OnlyLimitLimits(setup: Setup, s: PState, step: PStep, mid: Mid)
    requires PEnabled(setup, s, step) && !step.Limit?
    requires mid in PApply(setup, s, step).messages
    ensures var stage := PApply(setup, s, step).messages[mid].stage;
            if mid in s.messages then Limited(stage) == Limited(s.messages[mid].stage) && Passed(stage) == Passed(s.messages[mid].stage)
            else !Limited(stage)
  {
    if mid in s.messages { MessageAfter(setup, s, step, mid); }
  }

  lemma OthersKeepLimiter(setup: Setup, s: PState, step: PStep)
    requires Limits(setup) && PEnabled(setup, s, step) && !step.Limit? && LimiterOk(setup, s)
    ensures LimiterOk(setup, PApply(setup, s, step))
  {
    var s' := PApply(setup, s, step);
    assert s'.checks == s.checks && s'.table == s.table;
    forall i | 0 <= i < |s'.checks| ensures CheckOk(setup, s', i) {
      assert CheckOk(setup, s, i);
      MessageAfter(setup, s, step, s.checks[i].mid);
      OnlyLimitLimits(setup, s, step, s.checks[i].mid);
    }
    forall mid | mid in s'.messages && Limited(s'.messages[mid].stage)
      ensures exists i | 0 <= i < |s'.checks| :: s'.checks[i].mid == mid
    {
      OnlyLimitLimits(setup, s, step, mid);
    }
  }

  lemma CallsAppend(checks: seq<Check>, c: Check)
    ensures Calls(checks + [c]) == Calls(checks) + [c.call]
  {
  }

  lemma AllowedIsStable(cfg: Limiter.Config, calls: seq<Limiter.Call>, c: Limiter.Call, i: nat)
    requires i < |calls|
    ensures Limiter.Allowed(cfg, calls + [c], i) == Limiter.Allowed(cfg, calls, i)
  {
    assert (calls + [c])[..i] == calls[..i];
  }

  lemma LimitKeepsLimiter(setup: Setup, s: PState, step: PStep)
    requires Limits(setup) && PEnabled(setup, s, step) && step.Limit? && LimiterOk(setup, s)
    ensures LimiterOk(setup, PApply(setup, s, step))
  {
    var s', cfg, n := PApply(setup, s, step), setup.limit.value, |s.checks|;
    var c := Limiter.Call(s.messages[step.mid].user, step.clock);
    CallsAppend(s.checks, Check(step.mid, c));
    var calls := Calls(s.checks);
    assert (calls + [c])[..n] == calls;
    forall i | 0 <= i < n ensures s.checks[i].mid != step.mid { assert CheckOk(setup, s, i); }
    forall i | 0 <= i < |s'.checks| ensures CheckOk(setup, s', i) {
      if i < n {
        assert CheckOk(setup, s, i);
        AllowedIsStable(cfg, calls, c, i);
      }
    }
    forall mid | mid in s'.messages && Limited(s'.messages[mid].stage)
      ensures exists i | 0 <= i < |s'.checks| :: s'.checks[i].mid == mid
    {
      if mid == step.mid {
        assert s'.checks[n].mid == mid;
      } else {
        var i :| 0 <= i < n && s.checks[i].mid == mid;
        assert s'.checks[i].mid == mid;
      }
    }
  }

  lemma PStepKeeps(setup: Setup, s: PState, step: PStep)
    requires PEnabled(setup, s, step) && PInv(setup, s)
    ensures PInv(setup, PApply(setup, s, step))
  {
    AgentKeeps(setup, s, step);
    if Limits(setup) {
      if step.Limit? { LimitKeepsLimiter(setup, s, step); } else { OthersKeepLimiter(setup, s, step); }
    }
  }
}
