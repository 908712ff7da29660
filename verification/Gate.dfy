/** A quarry run behind its plan gate: register, send the plan, wait, and only then run. */
module Gate {
  import opened Prelude
  import opened Replies
  import opened Approval
  import opened ApprovalSafety
  import opened ApprovalRuns

  /** How a gated run ended. `Undelivered` and `Untold` are the two failures to
      send; `Forsaken` is a future dropped before it finished. */
  datatype Outcome =
    | Ran
    | SpawnFailed
    | NotRun(decision: Decision)
    | Undelivered
    | Untold(decision: Decision)
    | Forsaken

  datatype GatePhase = Sending | Awaiting | Done(outcome: Outcome)

  datatype GState = GState(sys: State, gates: map<Id, GatePhase>, delivered: seq<Id>, starts: seq<Id>)

  function GStart(now: Time): GState {
    GState(Start(now), map[], [], [])
  }

  datatype GStep =
    | Open(id: Id, user: string, channel: string, caps: Caps, timeout: nat)
    | Deliver(id: Id, ok: bool)     // the plan message
    | Holder(step: Step)            // a step of `wait`
    | Tell(id: Id, ok: bool)        // the message that nothing was run
    | Launch(id: Id, ok: bool)      // the supervisor's run
    | Abandon(id: Id)               // the future is dropped
    | Outside(step: Step)           // a reply or the clock

  /** What a step does to the registry, if anything. */
  function SysStep(step: GStep): Option<Step> {
    match step
    case Open(id, user, channel, caps, timeout) => Some(Begin(id, user, channel, caps, timeout))
    case Deliver(id, ok) => if ok then None else Some(Drop(id))
    case Holder(s) => Some(s)
    case Tell(_, _) => None
    case Launch(_, _) => None
    case Abandon(id) => Some(Drop(id))
    case Outside(s) => Some(s)
  }

  /** The decision `wait` returned to an awaiting gate. */
  function Decided(g: GState, id: Id): Option<Decision> {
    if id in g.sys.tickets && g.sys.tickets[id].phase.Returned? then Some(g.sys.tickets[id].phase.d) else None
  }

  predicate GEnabled(g: GState, step: GStep) {
    && (SysStep(step).Some? ==> Enabled(g.sys, SysStep(step).value))
    && match step
       case Open(id, _, _, _, _) => id !in g.gates
       case Deliver(id, _) => id in g.gates && g.gates[id].Sending?
       case Holder(s) => Waiter(s) && !s.Drop? && s.id in g.gates && g.gates[s.id].Awaiting?
       case Tell(id, _) =>
         id in g.gates && g.gates[id].Awaiting? && Decided(g, id).Some? && !Decided(g, id).value.MaySpend()
       case Launch(id, _) =>
         id in g.gates && g.gates[id].Awaiting? && Decided(g, id).Some? && Decided(g, id).value.MaySpend()
       case Abandon(id) => id in g.gates && !g.gates[id].Done?
       case Outside(s) => s.Reply? || s.Tick?
  }

  function GApply(g: GState, step: GStep): GState
    requires GEnabled(g, step)
  {
    var sys := if SysStep(step).Some? then Apply(g.sys, SysStep(step).value) else g.sys;
    match step
    case Open(id, _, _, _, _) => g.(sys := sys, gates := g.gates[id := Sending])
    case Deliver(id, ok) =>
      if ok then g.(gates := g.gates[id := Awaiting], delivered := g.delivered + [id])
      else g.(sys := sys, gates := g.gates[id := Done(Undelivered)])
    case Holder(_) => g.(sys := sys)
    case Tell(id, ok) =>
      var d := Decided(g, id).value;
      g.(gates := g.gates[id := Done(if ok then NotRun(d) else Untold(d))])
    case Launch(id, ok) =>
      g.(gates := g.gates[id := Done(if ok then Ran else SpawnFailed)], starts := g.starts + [id])
    case Abandon(id) => g.(sys := sys, gates := g.gates[id := Done(Forsaken)])
    case Outside(_) => g.(sys := sys)
  }

  // ── The invariant ─────────────────────────────────────────────────────────

  predicate Started(phase: GatePhase) {
    phase == Done(Ran) || phase == Done(SpawnFailed)
  }

  ghost predicate GateOk(g: GState, id: Id)
    requires id in g.gates && id in g.sys.tickets
  {
    && (g.gates[id].Sending? ==> g.sys.tickets[id].phase.Registered?)
    && (g.gates[id].Awaiting? ==> id in g.delivered && !g.sys.tickets[id].phase.Dropped?)
    && (Started(g.gates[id]) ==> id in g.delivered && Decided(g, id) == Some(Approved))
    && (g.gates[id].Done? && (g.gates[id].outcome.NotRun? || g.gates[id].outcome.Untold?) ==>
          Decided(g, id) == Some(g.gates[id].outcome.decision) && g.gates[id].outcome.decision != Approved)
    && multiset(g.starts)[id] == (if Started(g.gates[id]) then 1 else 0)
  }

  ghost predicate GInv(g: GState) {
    && g.gates.Keys == g.sys.tickets.Keys
    && (forall id | id in g.starts :: id in g.gates)
    && forall id | id in g.gates :: GateOk(g, id)
  }

  lemma GStepKeeps(g: GState, step: GStep)
    requires GInv(g) && GEnabled(g, step)
    ensures GInv(GApply(g, step))
  {
    var g' := GApply(g, step);
    GKeys(g, step);
    forall id | id in g'.gates ensures GateOk(g', id) {
      if id in g.gates {
        if GateId(step) == Some(id) { OwnGate(g, step, id); } else { OtherGate(g, step, id); }
      } else {
        assert id !in multiset(g.starts);
      }
    }
  }

  /** The gate a step belongs to. */
  function GateId(step: GStep): Option<Id> {
    match step
    case Open(id, _, _, _, _) => Some(id)
    case Deliver(id, _) => Some(id)
    case Holder(s) => if Waiter(s) then Some(s.id) else None
    case Tell(id, _) => Some(id)
    case Launch(id, _) => Some(id)
    case Abandon(id) => Some(id)
    case Outside(_) => None
  }

  lemma GKeys(g: GState, step: GStep)
    requires GInv(g) && GEnabled(g, step)
    ensures GApply(g, step).gates.Keys == GApply(g, step).sys.tickets.Keys
    ensures forall id | id in GApply(g, step).starts :: id in GApply(g, step).gates
  {
  }

  lemma OtherGate(g: GState, step: GStep, id: Id)
    requires GInv(g) && GEnabled(g, step) && id in g.gates && GateId(step) != Some(id)
    ensures id in GApply(g, step).gates && id in GApply(g, step).sys.tickets && GateOk(GApply(g, step), id)
  {
    assert GateOk(g, id);
    if SysStep(step).Some? { PhaseAfter(g.sys, SysStep(step).value, id); }
  }

  lemma OwnGate(g: GState, step: GStep, id: Id)
    requires GInv(g) && GEnabled(g, step) && id in g.gates && GateId(step) == Some(id)
    ensures id in GApply(g, step).gates && id in GApply(g, step).sys.tickets && GateOk(GApply(g, step), id)
  {
    assert GateOk(g, id);
    if SysStep(step).Some? { PhaseAfter(g.sys, SysStep(step).value, id); }
  }

  // ── Runs ──────────────────────────────────────────────────────────────────

  datatype GRun = GRun(states: seq<GState>, steps: seq<GStep>)

  ghost predicate IsGRun(r: GRun) {
    && |r.states| == |r.steps| + 1
    && r.states[0] == GStart(r.states[0].sys.now)
    && forall i | 0 <= i < |r.steps| ::
         GEnabled(r.states[i], r.steps[i]) && r.states[i + 1] == GApply(r.states[i], r.steps[i])
  }

  lemma {:induction false} GReachableIsOk(r: GRun, n: nat)
    requires IsGRun(r) && n < |r.states|
    ensures GInv(r.states[n])
  {
    if n > 0 {
      GReachableIsOk(r, n - 1);
      GStepKeeps(r.states[n - 1], r.steps[n - 1]);
    }
  }

  /** The registry's own run, and for each of its steps its position in the gate's run. */
  datatype Projection = Projection(run: Run, at: seq<nat>)

  function Project(r: GRun, n: nat): Projection
    requires |r.states| == |r.steps| + 1 && n < |r.states|
  {
    if n == 0 then Projection(Run([r.states[0].sys], []), [])
    else
      var p := Project(r, n - 1);
      match SysStep(r.steps[n - 1])
      case None => p
      case Some(step) => Projection(Run(p.run.states + [r.states[n].sys], p.run.steps + [step]), p.at + [n - 1])
  }

  ghost predicate Projects(r: GRun, n: nat, p: Projection)
    requires |r.states| == |r.steps| + 1 && n < |r.states|
  {
    && IsRun(p.run) && |p.at| == |p.run.steps| && p.run.states[|p.run.steps|] == r.states[n].sys
    && forall k | 0 <= k < |p.at| ::
         p.at[k] < n && SysStep(r.steps[p.at[k]]) == Some(p.run.steps[k]) && r.states[p.at[k]].sys == p.run.states[k]
  }

  lemma SysAfter(g: GState, step: GStep)
    requires GEnabled(g, step)
    ensures match SysStep(step)
            case None => GApply(g, step).sys == g.sys
            case Some(s) => Enabled(g.sys, s) && GApply(g, step).sys == Apply(g.sys, s)
  {
  }

  lemma {:induction false} ProjectIsRun(r: GRun, n: nat)
    requires IsGRun(r) && n < |r.states|
    ensures Projects(r, n, Project(r, n))
  {
    if n > 0 {
      ProjectIsRun(r, n - 1);
      SysAfter(r.states[n - 1], r.steps[n - 1]);
      if SysStep(r.steps[n - 1]).Some? { ProjectStep(r, n, Project(r, n - 1)); }
    }
  }

  lemma ProjectStep(r: GRun, n: nat, p: Projection)
    requires |r.states| == |r.steps| + 1 && 0 < n < |r.states| && Projects(r, n - 1, p)
    requires SysStep(r.steps[n - 1]).Some?
    requires var step := SysStep(r.steps[n - 1]).value;
             Enabled(r.states[n - 1].sys, step) && r.states[n].sys == Apply(r.states[n - 1].sys, step)
    ensures var step := SysStep(r.steps[n - 1]).value;
            Projects(r, n, Projection(Run(p.run.states + [r.states[n].sys], p.run.steps + [step]), p.at + [n - 1]))
  {
    ExtendRun(p.run, SysStep(r.steps[n - 1]).value, r.states[n].sys);
  }

  lemma GSysIsOk(r: GRun, n: nat)
    requires IsGRun(r) && n < |r.states|
    ensures Inv(r.states[n].sys)
  {
    ProjectIsRun(r, n);
    var p := Project(r, n);
    ReachableIsOk(p.run, |p.run.steps|);
  }

  // ── The main results ──────────────────────────────────────────────────────

  /** Step `i` is a reply that settles the plan of `id` with the decision `d`. */
  ghost predicate DecidedAt(r: GRun, i: nat, id: Id, d: Decision)
    requires |r.states| == |r.steps| + 1 && i < |r.steps|
  {
    var s, step := r.states[i].sys, r.steps[i];
    && step.Outside? && step.step.Reply? && id in s.tickets
    && var t := s.tickets[id];
       && step.step.user == t.user && step.step.channel == t.channel
       && Live(s, id) && s.now < t.deadline
       && LoneWord(step.step.text, if d == Approved then APPROVE_WORDS else CANCEL_WORDS)
  }

  lemma GateDecisionNeedsAReply(r: GRun, n: nat, id: Id, d: Decision)
    requires IsGRun(r) && n < |r.states| && Decided(r.states[n], id) == Some(d) && (d == Approved || d == Cancelled)
    ensures exists i | 0 <= i < n :: DecidedAt(r, i, id, d)
  {
    ProjectIsRun(r, n);
    var p := Project(r, n);
    DecisionNeedsAReply(p.run, |p.run.steps|, id, d);
    var k :| 0 <= k < |p.run.steps| && SettledBy(p.run, k, id, d);
    SettledIsDecided(r, n, p, k, id, d);
  }

  lemma SettledIsDecided(r: GRun, n: nat, p: Projection, k: nat, id: Id, d: Decision)
    requires IsGRun(r) && n < |r.states| && Projects(r, n, p) && k < |p.at| && SettledBy(p.run, k, id, d)
    ensures p.at[k] < n && DecidedAt(r, p.at[k], id, d)
  {
    var i := p.at[k];
    assert SysStep(r.steps[i]) == Some(p.run.steps[k]) && p.run.steps[k].Reply?;
    assert GEnabled(r.states[i], r.steps[i]);
  }

  /** A run is started only after its own sender approved its plan, in time, in one word,
      on its own channel, with the plan delivered; and at most once. */
  lemma StartNeedsApproval(r: GRun, n: nat, id: Id)
    requires IsGRun(r) && n < |r.states| && id in r.states[n].starts
    ensures exists i | 0 <= i < n :: DecidedAt(r, i, id, Approved)
    ensures id in r.states[n].delivered && multiset(r.states[n].starts)[id] == 1
  {
    GReachableIsOk(r, n);
    assert id in multiset(r.states[n].starts) && GateOk(r.states[n], id);
    GateDecisionNeedsAReply(r, n, id, Approved);
  }

  /** A started run's channel holds the approval. */
  lemma StartedWasApproved(r: GRun, n: nat, id: Id)
    requires IsGRun(r) && n < |r.states| && id in r.states[n].starts
    ensures id in r.states[n].sys.reg.shots && r.states[n].sys.reg.shots[id].value == Some(Approved)
  {
    GReachableIsOk(r, n);
    GSysIsOk(r, n);
    assert id in multiset(r.states[n].starts) && GateOk(r.states[n], id) && TicketOk(r.states[n].sys, id);
  }

  /** A cancel that has been accepted stops the run for good: whatever is said later, the
      supervisor is not started. */
  lemma CancelStopsTheRun(r: GRun, i: nat, n: nat, id: Id)
    requires IsGRun(r) && i <= n < |r.states| && id in r.states[i].sys.tickets
    requires id in r.states[i].sys.reg.shots && r.states[i].sys.reg.shots[id].value == Some(Cancelled)
    ensures id !in r.states[n].starts
  {
    GShotStays(r, i, n, id);
    if id in r.states[n].starts { StartedWasApproved(r, n, id); }
  }

  lemma {:induction false} GShotStays(r: GRun, i: nat, n: nat, id: Id)
    requires IsGRun(r) && i <= n < |r.states| && id in r.states[i].sys.tickets
    requires id in r.states[i].sys.reg.shots && r.states[i].sys.reg.shots[id].value.Some?
    ensures id in r.states[n].sys.tickets && id in r.states[n].sys.reg.shots
    ensures r.states[n].sys.reg.shots[id].value == r.states[i].sys.reg.shots[id].value
    decreases n - i
  {
    if i < n {
      GSysIsOk(r, i);
      SysAfter(r.states[i], r.steps[i]);
      if SysStep(r.steps[i]).Some? { StepGrows(r.states[i].sys, SysStep(r.steps[i]).value, id); }
      GShotStays(r, i + 1, n, id);
    }
  }

  /** One reply approves at most one run. */
  lemma OneRunForOneReply(r: GRun, i: nat, a: Id, b: Id)
    requires |r.states| == |r.steps| + 1 && i < |r.steps| && DecidedAt(r, i, a, Approved) && DecidedAt(r, i, b, Approved)
    ensures a == b
  {
  }

  /** The replies among the first `n` steps that approve some run. */
  ghost function Approvals(r: GRun, n: nat): set<nat>
    requires |r.states| == |r.steps| + 1 && n < |r.states|
  {
    set i: nat | i < n && exists id | id in r.states[i].sys.tickets :: DecidedAt(r, i, id, Approved)
  }

  /** So there are never more starts than approving replies. */
  lemma StartsAtMostApprovals(r: GRun, n: nat)
    requires IsGRun(r) && n < |r.states|
    ensures |r.states[n].starts| <= |Approvals(r, n)|
  {
    var starts := r.states[n].starts;
    var approves := (i: nat, id: Id) => i < n && id in starts && DecidedAt(r, i, id, Approved);
    forall id | id in starts ensures multiset(starts)[id] == 1 && exists i: nat :: approves(i, id) {
      StartNeedsApproval(r, n, id);
      var i :| 0 <= i < n && DecidedAt(r, i, id, Approved);
      assert approves(i, id);
    }
    forall i: nat, a, b | approves(i, a) && approves(i, b) ensures a == b { OneRunForOneReply(r, i, a, b); }
    var used := OneEach(starts, approves);
    forall i | i in used ensures i in Approvals(r, n) {
      var id :| approves(i, id);
    }
    assert Approvals(r, n) == used + (Approvals(r, n) - used);
  }

  /** When every element has a partner of its own, there are as many partners. */
  lemma {:induction false} OneEach(xs: seq<Id>, partner: (nat, Id) -> bool) returns (used: set<nat>)
    requires forall x | x in xs :: multiset(xs)[x] == 1 && exists i: nat :: partner(i, x)
    requires forall i: nat, a, b | partner(i, a) && partner(i, b) :: a == b
    ensures |used| == |xs| && forall i | i in used :: exists x :: x in xs && partner(i, x)
  {
    if xs == [] {
      used := {};
    } else {
      var before, x := xs[..|xs| - 1], xs[|xs| - 1];
      LastIsNew(xs);
      used := OneEach(before, partner);
      var i: nat :| partner(i, x);
      assert i !in used;
      used := used + {i};
    }
  }

  lemma LastIsNew(xs: seq<Id>)
    requires xs != [] && forall x | x in xs :: multiset(xs)[x] == 1
    ensures var before, x := xs[..|xs| - 1], xs[|xs| - 1];
            && xs == before + [x] && x in xs && x !in before
            && forall y | y in before :: multiset(before)[y] == 1 && y in xs
  {
    var before, x := xs[..|xs| - 1], xs[|xs| - 1];
    assert xs == before + [x];
    assert multiset(xs) == multiset(before) + multiset{x};
    forall y | y in before ensures y != x && multiset(before)[y] == 1 {
      assert y in multiset(before) && y in xs;
    }
  }

  /** A gate that reports that nothing was run started nothing; if it reports a cancel,
      its sender did cancel. */
  lemma NotRunStartsNothing(r: GRun, n: nat, id: Id, d: Decision)
    requires IsGRun(r) && n < |r.states| && id in r.states[n].gates && r.states[n].gates[id] == Done(NotRun(d))
    ensures id !in r.states[n].starts && d != Approved
    ensures d == Cancelled ==> exists i | 0 <= i < n :: DecidedAt(r, i, id, Cancelled)
  {
    GReachableIsOk(r, n);
    assert GateOk(r.states[n], id);
    if d == Cancelled { GateDecisionNeedsAReply(r, n, id, Cancelled); }
  }

  // ── Every gate can end ────────────────────────────────────────────────────

  function GLast(r: GRun): GState
    requires r.states != []
  {
    r.states[|r.states| - 1]
  }

  /** The run has been carried on by at most `n` steps. */
  ghost predicate GExtends(r': GRun, r: GRun, n: nat) {
    IsGRun(r) && IsGRun(r') && r.states <= r'.states && r.steps <= r'.steps && |r'.steps| <= |r.steps| + n
  }

  lemma GExtend(r: GRun, step: GStep) returns (r': GRun)
    requires IsGRun(r) && GEnabled(GLast(r), step)
    ensures GExtends(r', r, 1) && GLast(r') == GApply(GLast(r), step)
  {
    r' := GRun(r.states + [GApply(GLast(r), step)], r.steps + [step]);
    GExtendRun(r, step, GApply(GLast(r), step));
  }

  lemma GExtendRun(r: GRun, step: GStep, next: GState)
    requires IsGRun(r) && GEnabled(r.states[|r.steps|], step) && next == GApply(r.states[|r.steps|], step)
    ensures IsGRun(GRun(r.states + [next], r.steps + [step]))
  {
    var states, steps := r.states + [next], r.steps + [step];
    assert states[0] == r.states[0];
    forall i | 0 <= i < |steps| ensures GEnabled(states[i], steps[i]) && states[i + 1] == GApply(states[i], steps[i]) {
      assert states[i] == r.states[i];
      if i < |r.steps| { assert steps[i] == r.steps[i] && states[i + 1] == r.states[i + 1]; }
    }
  }

  /** What the gate will be told: the decision taken, or the one sent, or expiry. */
  function Outlook(g: GState, id: Id): Decision
    requires id in g.sys.tickets && id in g.sys.reg.shots
  {
    match DecisionOf(g.sys.tickets[id].phase)
    case Some(d) => d
    case None => SentOrExpired(g.sys, id)
  }

  /** How the gate then ends. */
  function EndOf(d: Decision): Outcome {
    if d == Approved then Ran else NotRun(d)
  }

  /** How far the waiter is from returning. */
  function ToGo(phase: Phase): nat {
    match phase
    case Registered => 4
    case Waiting(_) => 3
    case Resolved(_) => 2
    case ClearedPhase(_) => 1
    case Returned(_) => 0
    case Dropped => 0
  }

  /** No open gate hangs: from any point of any run, time and at most six other steps of its
      own bring it to an end. An approval that was sent starts the run, once; anything else
      that was decided is reported, and silence is reported as expiry. */
  lemma EveryGateCanEnd(r: GRun, id: Id) returns (r': GRun)
    requires IsGRun(r) && id in GLast(r).gates && !GLast(r).gates[id].Done?
    ensures GExtends(r', r, 7) && id in GLast(r).sys.tickets && id in GLast(r).sys.reg.shots
    ensures var d := Outlook(GLast(r), id);
            && id in GLast(r').gates && GLast(r').gates[id] == Done(EndOf(d))
            && GLast(r').starts == GLast(r).starts + if d == Approved then [id] else []
  {
    GReachableIsOk(r, |r.steps|);
    GSysIsOk(r, |r.steps|);
    assert GateOk(GLast(r), id);
    var d, starts, togo := Outlook(GLast(r), id), GLast(r).starts, ToGo(GLast(r).sys.tickets[id].phase);
    var delivered := r;
    if GLast(r).gates[id].Sending? { delivered := GExtend(r, Deliver(id, true)); }
    r' := AwaitingGateEnds(delivered, id, d, starts, togo);
  }

  /** The gate waits for its plan's answer, of which nothing has been lost. */
  ghost predicate Holds(g: GState, id: Id, d: Decision, starts: seq<Id>, togo: nat) {
    && id in g.gates && g.gates[id].Awaiting? && g.starts == starts
    && id in g.sys.tickets && !g.sys.tickets[id].phase.Dropped? && ToGo(g.sys.tickets[id].phase) == togo
    && id in g.sys.reg.shots && Outlook(g, id) == d
  }

  /** What the waiter does next. */
  function NextOf(phase: Phase, id: Id): Step {
    match phase
    case Registered => Wait(id)
    case Waiting(_) => Resolve(id)
    case Resolved(_) => Clear(id)
    case _ => Return(id)
  }

  lemma WaiterAdvances(g: GState, id: Id, d: Decision, starts: seq<Id>, togo: nat)
    requires Holds(g, id, d, starts, togo) && togo > 0
    requires g.sys.tickets[id].phase.Waiting? ==>
               Enabled(g.sys, Resolve(id)) && id in Apply(g.sys, Resolve(id)).tickets
               && Apply(g.sys, Resolve(id)).tickets[id].phase == Resolved(SentOrExpired(g.sys, id))
    ensures var step := Holder(NextOf(g.sys.tickets[id].phase, id));
            GEnabled(g, step) && Holds(GApply(g, step), id, d, starts, togo - 1)
  {
  }

  /** Time passes until the waiter can decide. */
  lemma GateIsReady(r: GRun, id: Id, d: Decision, starts: seq<Id>, togo: nat) returns (r': GRun)
    requires IsGRun(r) && Holds(GLast(r), id, d, starts, togo)
    ensures GExtends(r', r, if togo == 3 then 1 else 0) && Holds(GLast(r'), id, d, starts, togo)
    ensures GLast(r').sys.tickets[id].phase.Waiting? ==>
              var s := GLast(r').sys;
              Enabled(s, Resolve(id)) && id in Apply(s, Resolve(id)).tickets
              && Apply(s, Resolve(id)).tickets[id].phase == Resolved(SentOrExpired(s, id))
  {
    var s := GLast(r).sys;
    if s.tickets[id].phase.Waiting? {
      r' := GExtend(r, Outside(Tick(if s.reg.shots[id].value.Some? then 0 else TimeLeft(s, id))));
      GWaitEnds(r', id);
    } else {
      r' := r;
    }
  }

  lemma {:induction false} AwaitingGateEnds(r: GRun, id: Id, d: Decision, starts: seq<Id>, togo: nat) returns (r': GRun)
    requires IsGRun(r) && Holds(GLast(r), id, d, starts, togo)
    ensures GExtends(r', r, togo + if togo >= 3 then 2 else 1)
    ensures id in GLast(r').gates && GLast(r').gates[id] == Done(EndOf(d))
    ensures GLast(r').starts == starts + if d == Approved then [id] else []
    decreases togo
  {
    if togo == 0 {
      r' := GExtend(r, if d == Approved then Launch(id, true) else Tell(id, true));
    } else {
      var ready := GateIsReady(r, id, d, starts, togo);
      var g := GLast(ready);
      WaiterAdvances(g, id, d, starts, togo);
      var moved := GExtend(ready, Holder(NextOf(g.sys.tickets[id].phase, id)));
      r' := AwaitingGateEnds(moved, id, d, starts, togo - 1);
    }
  }

  lemma GWaitEnds(r: GRun, id: Id)
    requires IsGRun(r) && id in GLast(r).sys.tickets && GLast(r).sys.tickets[id].phase.Waiting?
    ensures var s := GLast(r).sys;
            && id in s.reg.shots
            && (Enabled(s, Resolve(id)) <==> s.reg.shots[id].value.Some? || s.now >= s.tickets[id].phase.timer)
            && (Enabled(s, Resolve(id)) ==>
                  && id in Apply(s, Resolve(id)).tickets
                  && Apply(s, Resolve(id)).tickets[id].phase == Resolved(SentOrExpired(s, id)))
  {
    ProjectIsRun(r, |r.steps|);
    var p := Project(r, |r.steps|);
    WaitEndsExactly(p.run, |p.run.steps|, id);
  }

  /** The step begins a gated run for the sender. */
  predicate OpensFor(step: GStep, key: Key) {
    step.Open? && Key(step.channel, step.user) == key
  }

  /** A plan that could not be delivered leaves its entry behind, exactly until its sender
      begins another run: till then the sender counts as having an approval pending,
      although nobody waits for it. */
  lemma UndeliveredPlanLeavesEntry(r: GRun, i: nat, n: nat, id: Id)
    requires IsGRun(r) && i < n < |r.states| && r.steps[i] == Deliver(id, false)
    requires id in r.states[i].sys.tickets && Live(r.states[i].sys, id)
    ensures id in r.states[n].sys.tickets
    ensures Live(r.states[n].sys, id) <==>
            forall k | i < k < n :: !OpensFor(r.steps[k], r.states[i].sys.tickets[id].KeyOf())
  {
    GSysIsOk(r, i);
    SysAfter(r.states[i], r.steps[i]);
    PhaseAfter(r.states[i].sys, Drop(id), id);
    DropKeepsEntry(r.states[i].sys, id);
    LeftBehind(r, i + 1, n, id);
  }

  /** Such an entry outlives its deadline: a plan that had one tick to be answered is not
      delivered, and ten ticks later its entry is still registered. */
  lemma UndeliveredEntryOutlivesDeadline(now: Time, caps: Caps)
    ensures var begun, failed, wait := Open("r", "u", "c", caps, 1), Deliver("r", false), Outside(Tick(10));
            var g := GStart(now);
            GEnabled(g, begun) && GEnabled(GApply(g, begun), failed) && GEnabled(GApply(GApply(g, begun), failed), wait)
            && var last := GApply(GApply(GApply(g, begun), failed), wait).sys;
               && "r" in last.tickets && last.tickets["r"].phase.Dropped?
               && last.now > last.tickets["r"].deadline && Live(last, "r")
  {
  }

  lemma DropKeepsEntry(s: State, id: Id)
    requires Enabled(s, Drop(id)) && Live(s, id)
    ensures id in Apply(s, Drop(id)).tickets && Live(Apply(s, Drop(id)), id)
  {
  }

  lemma {:induction false} LeftBehind(r: GRun, i: nat, n: nat, id: Id)
    requires IsGRun(r) && i <= n < |r.states|
    requires id in r.states[i].sys.tickets && r.states[i].sys.tickets[id].phase.Dropped? && Live(r.states[i].sys, id)
    ensures id in r.states[n].sys.tickets
    ensures Live(r.states[n].sys, id) <==>
            forall k | i <= k < n :: !OpensFor(r.steps[k], r.states[i].sys.tickets[id].KeyOf())
    decreases n - i
  {
    if i < n {
      var key := r.states[i].sys.tickets[id].KeyOf();
      LeftBehindAfter(r, i, id);
      if OpensFor(r.steps[i], key) {
        GGoneStaysGone(r, i + 1, n, id);
      } else {
        LeftBehind(r, i + 1, n, id);
      }
    }
  }

  lemma LeftBehindAfter(r: GRun, i: nat, id: Id)
    requires IsGRun(r) && i < |r.steps|
    requires id in r.states[i].sys.tickets && r.states[i].sys.tickets[id].phase.Dropped? && Live(r.states[i].sys, id)
    ensures var s, s' := r.states[i].sys, r.states[i + 1].sys;
            && id in s'.tickets && s'.tickets[id] == s.tickets[id]
            && (Live(s', id) <==> !OpensFor(r.steps[i], s.tickets[id].KeyOf()))
  {
    GSysIsOk(r, i);
    SysAfter(r.states[i], r.steps[i]);
    OnlyOpenBegins(r.states[i], r.steps[i]);
    if SysStep(r.steps[i]).Some? {
      AbandonedSurvives(r.states[i].sys, SysStep(r.steps[i]).value, id);
      PhaseAfter(r.states[i].sys, SysStep(r.steps[i]).value, id);
    }
  }

  lemma {:induction false} GGoneStaysGone(r: GRun, i: nat, n: nat, id: Id)
    requires IsGRun(r) && i <= n < |r.states| && id in r.states[i].sys.tickets && !Live(r.states[i].sys, id)
    ensures id in r.states[n].sys.tickets && !Live(r.states[n].sys, id)
    decreases n - i
  {
    if i < n {
      GSysIsOk(r, i);
      SysAfter(r.states[i], r.steps[i]);
      if SysStep(r.steps[i]).Some? { GoneAfter(r.states[i].sys, SysStep(r.steps[i]).value, id); }
      GGoneStaysGone(r, i + 1, n, id);
    }
  }

  /** A registry begin is an opening for the same sender. */
  lemma OnlyOpenBegins(g: GState, step: GStep)
    requires GEnabled(g, step)
    ensures forall key :: SysStep(step).Some? && BeginsFor(SysStep(step).value, key) <==> OpensFor(step, key)
  {
  }
}
