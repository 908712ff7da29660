/** The approval guarantees over whole runs: every interleaving of begins, replies,
    waiter steps, abandonments and clock ticks. */
module ApprovalRuns {
  import opened Prelude
  import opened Replies
  import opened Approval
  import opened ApprovalSafety

  datatype Run = Run(states: seq<State>, steps: seq<Step>)

  ghost predicate IsRun(r: Run) {
    && |r.states| == |r.steps| + 1
    && r.states[0] == Start(r.states[0].now)
    && forall i | 0 <= i < |r.steps| :: Enabled(r.states[i], r.steps[i]) && r.states[i + 1] == Apply(r.states[i], r.steps[i])
  }

  lemma ExtendRun(r: Run, step: Step, next: State)
    requires IsRun(r) && Enabled(r.states[|r.steps|], step) && next == Apply(r.states[|r.steps|], step)
    ensures IsRun(Run(r.states + [next], r.steps + [step]))
  {
  }

  lemma {:induction false} ReachableIsOk(r: Run, n: nat)
    requires IsRun(r) && n < |r.states|
    ensures Inv(r.states[n])
  {
    if n == 0 {
      StartIsOk(r.states[0].now);
    } else {
      ReachableIsOk(r, n - 1);
      StepKeeps(r.states[n - 1], r.steps[n - 1]);
    }
  }

  // ── What never changes once it is there ───────────────────────────────────

  ghost predicate Grows(s: State, s': State, id: Id)
    requires id in s.tickets && id in s.reg.shots
  {
    && id in s'.tickets && id in s'.reg.shots && s.now <= s'.now
    && s'.tickets[id].(phase := s.tickets[id].phase) == s.tickets[id]
    && (s.reg.shots[id].value.Some? ==> s'.reg.shots[id].value == s.reg.shots[id].value)
    && (DecisionOf(s.tickets[id].phase).Some? ==> s'.tickets[id].phase.Dropped? || DecisionOf(s'.tickets[id].phase) == DecisionOf(s.tickets[id].phase))
    && (s.tickets[id].phase.Dropped? ==> s'.tickets[id].phase.Dropped?)
  }

  lemma StepGrows(s: State, step: Step, id: Id)
    requires Inv(s) && Enabled(s, step) && id in s.tickets
    ensures Grows(s, Apply(s, step), id)
  {
    assert TicketOk(s, id);
    if step.Reply? {
      ReplyGrows(s, step, id);
    } else if step.Begin? {
      BeginGrows(s, step, id);
    } else if Waiter(step) && step.id != id {
      WaiterLeavesOthers(s, step, id);
    }
  }

  lemma ReplyGrows(s: State, step: Step, id: Id)
    requires Inv(s) && step.Reply? && id in s.tickets
    ensures Grows(s, Apply(s, step), id)
  {
    assert TicketOk(s, id);
    if Settles(s, step.user, step.channel, step.text) {
      EntryIsLive(s, Key(step.channel, step.user));
      assert TicketOk(s, s.reg.pending[Key(step.channel, step.user)].id);
    }
  }

  lemma BeginGrows(s: State, step: Step, id: Id)
    requires Inv(s) && step.Begin? && Enabled(s, step) && id in s.tickets
    ensures Grows(s, Apply(s, step), id)
  {
    assert TicketOk(s, id);
    if Key(step.channel, step.user) in s.reg.pending {
      EntryIsLive(s, Key(step.channel, step.user));
      assert TicketOk(s, s.reg.pending[Key(step.channel, step.user)].id);
    }
  }

  lemma {:induction false} RunGrows(r: Run, i: nat, j: nat, id: Id)
    requires IsRun(r) && i <= j < |r.states| && id in r.states[i].tickets
    ensures id in r.states[i].reg.shots && Grows(r.states[i], r.states[j], id)
    decreases j - i
  {
    ReachableIsOk(r, i);
    if i < j {
      StepGrows(r.states[i], r.steps[i], id);
      RunGrows(r, i + 1, j, id);
    }
  }

  // ── Approval needs a reply ────────────────────────────────────────────────

  /** Step `i` is a reply that settles the entry of `id` with the decision `d`. */
  ghost predicate SettledBy(r: Run, i: nat, id: Id, d: Decision)
    requires |r.states| == |r.steps| + 1 && i < |r.steps|
  {
    var s, step := r.states[i], r.steps[i];
    && step.Reply? && id in s.tickets
    && var t := s.tickets[id];
       && step.user == t.user && step.channel == t.channel
       && Live(s, id) && s.now < t.deadline
       && LoneWord(step.text, if d == Approved then APPROVE_WORDS else CANCEL_WORDS)
  }

  lemma {:induction false} AcceptedCameFrom(r: Run, n: nat, e: Accepted) returns (i: nat)
    requires IsRun(r) && n < |r.states| && e in r.states[n].accepted
    ensures i < n && r.steps[i] == Reply(e.user, e.channel, e.text) && r.states[i].now == e.at
    ensures Settles(r.states[i], e.user, e.channel, e.text)
    ensures r.states[i].reg.pending[Key(e.channel, e.user)].id == e.id
  {
    var s, step := r.states[n - 1], r.steps[n - 1];
    if e in s.accepted {
      i := AcceptedCameFrom(r, n - 1, e);
    } else {
      i := n - 1;
    }
  }

  /** A decision other than expiry or superseding was made by an earlier reply: from the
      ticket's own user, on its own channel, a lone word of that meaning, before the
      deadline, while the ticket was the registered entry. */
  lemma DecisionNeedsAReply(r: Run, n: nat, id: Id, d: Decision)
    requires IsRun(r) && n < |r.states| && id in r.states[n].tickets
    requires DecisionOf(r.states[n].tickets[id].phase) == Some(d) && (d == Approved || d == Cancelled)
    ensures exists i | 0 <= i < n :: SettledBy(r, i, id, d)
  {
    ReachableIsOk(r, n);
    var s := r.states[n];
    assert TicketOk(s, id);
    var e :| e in s.accepted && Warrants(e, id, s.tickets[id], d);
    var i := AcceptedCameFrom(r, n, e);
    ReachableIsOk(r, i);
    assert EntryOk(r.states[i], Key(e.channel, e.user));
    RunGrows(r, i, n, id);
    ApproveExactly(e.text);
    CancelExactly(e.text);
    assert SettledBy(r, i, id, d);
  }

  /** Silence is never consent: `wait` returns `Approved` only after an explicit approval. */
  lemma ApprovedNeedsAnApproval(r: Run, n: nat, id: Id)
    requires IsRun(r) && n < |r.states| && id in r.states[n].tickets
    requires r.states[n].tickets[id].phase == Returned(Approved)
    ensures exists i | 0 <= i < n :: SettledBy(r, i, id, Approved)
  {
    DecisionNeedsAReply(r, n, id, Approved);
  }

  /** Expiry is decided only once the deadline has passed. */
  lemma ExpiryIsNotEarly(r: Run, n: nat, id: Id)
    requires IsRun(r) && n < |r.states| && id in r.states[n].tickets
    requires DecisionOf(r.states[n].tickets[id].phase) == Some(Expired)
    ensures r.states[n].now >= r.states[n].tickets[id].deadline
  {
    ReachableIsOk(r, n);
    assert TicketOk(r.states[n], id);
  }

  // ── A wait comes to an end ────────────────────────────────────────────────

  /** What a waiter finds on its channel, or expiry when nothing was sent. */
  function SentOrExpired(s: State, id: Id): Decision
    requires id in s.reg.shots
  {
    match s.reg.shots[id].value
    case Some(d) => d
    case None => Expired
  }

  /** Waiting starts a timer that runs out one timeout later. */
  lemma WaitStartsTheTimer(s: State, id: Id)
    requires Enabled(s, Wait(id))
    ensures id in Apply(s, Wait(id)).tickets
    ensures Apply(s, Wait(id)).tickets[id] == s.tickets[id].(phase := Waiting(s.now + s.tickets[id].timeout))
    ensures Apply(s, Wait(id)).reg == s.reg && Apply(s, Wait(id)).now == s.now
  {
  }

  /** So the timer of a waiter was started by its `wait`, one timeout before it runs out. */
  lemma {:induction false} TimerIsFromWait(r: Run, n: nat, id: Id) returns (i: nat)
    requires IsRun(r) && n < |r.states| && id in r.states[n].tickets && r.states[n].tickets[id].phase.Waiting?
    ensures i < n && r.steps[i] == Wait(id)
    ensures r.states[n].tickets[id].phase.timer == r.states[i].now + r.states[n].tickets[id].timeout
  {
    var s, step := r.states[n - 1], r.steps[n - 1];
    if step == Wait(id) {
      i := n - 1;
    } else {
      WaitingBefore(s, step, id);
      i := TimerIsFromWait(r, n - 1, id);
    }
  }

  lemma WaitingBefore(s: State, step: Step, id: Id)
    requires Enabled(s, step) && step != Wait(id)
    requires id in Apply(s, step).tickets && Apply(s, step).tickets[id].phase.Waiting?
    ensures id in s.tickets && s.tickets[id] == Apply(s, step).tickets[id]
  {
  }

  /** In every reachable state a waiter comes to a decision exactly when one was sent or its
      timer has run out: the decision sent when there is one, expiry otherwise. */
  lemma WaitEndsExactly(r: Run, n: nat, id: Id)
    requires IsRun(r) && n < |r.states| && id in r.states[n].tickets && r.states[n].tickets[id].phase.Waiting?
    ensures var s := r.states[n];
            && id in s.reg.shots
            && (Enabled(s, Resolve(id)) <==> s.reg.shots[id].value.Some? || s.now >= s.tickets[id].phase.timer)
            && (Enabled(s, Resolve(id)) ==>
                  && id in Apply(s, Resolve(id)).tickets
                  && Apply(s, Resolve(id)).tickets[id].phase == Resolved(SentOrExpired(s, id)))
  {
    ReachableIsOk(r, n);
    assert TicketOk(r.states[n], id);
  }

  function Last(r: Run): State
    requires r.states != []
  {
    r.states[|r.states| - 1]
  }

  /** The run has been carried on. */
  ghost predicate Extends(r': Run, r: Run) {
    IsRun(r) && IsRun(r') && r.states <= r'.states && r.steps <= r'.steps
  }

  lemma Extend(r: Run, step: Step) returns (r': Run)
    requires IsRun(r) && Enabled(Last(r), step)
    ensures Extends(r', r) && r'.steps == r.steps + [step] && Last(r') == Apply(Last(r), step)
  {
    r' := Run(r.states + [Apply(Last(r), step)], r.steps + [step]);
    ExtendRun(r, step, Apply(Last(r), step));
  }

  /** How long the timer of a waiter still has to run. */
  function TimeLeft(s: State, id: Id): nat
    requires id in s.tickets && s.tickets[id].phase.Waiting?
  {
    if s.now >= s.tickets[id].phase.timer then 0 else s.tickets[id].phase.timer - s.now
  }

  /** A waiter never hangs: from any reachable state, time and three steps of its own bring
      it to return what was sent, at once, or `Expired` as soon as its timer has run out. */
  lemma EveryWaitReturns(r: Run, id: Id) returns (r': Run)
    requires IsRun(r) && id in Last(r).tickets && Last(r).tickets[id].phase.Waiting?
    ensures Extends(r', r) && id in Last(r).reg.shots && id in Last(r').tickets
    ensures var elapsed := if Last(r).reg.shots[id].value.Some? then 0 else TimeLeft(Last(r), id);
            && r'.steps == r.steps + [Tick(elapsed), Resolve(id), Clear(id), Return(id)]
            && Last(r').now == Last(r).now + elapsed
    ensures Last(r').tickets[id].phase == Returned(SentOrExpired(Last(r), id))
  {
    var s := Last(r);
    WaitEndsExactly(r, |r.steps|, id);
    var elapsed := if s.reg.shots[id].value.Some? then 0 else TimeLeft(s, id);
    var ticked := Extend(r, Tick(elapsed));
    WaitEndsExactly(ticked, |ticked.steps|, id);
    var resolved := Extend(ticked, Resolve(id));
    r' := Finish(resolved, id, SentOrExpired(s, id));
  }

  /** Once decided, nothing holds a waiter up. */
  lemma Finish(r: Run, id: Id, d: Decision) returns (r': Run)
    requires IsRun(r) && id in Last(r).tickets && Last(r).tickets[id].phase == Resolved(d)
    ensures Extends(r', r) && r'.steps == r.steps + [Clear(id), Return(id)]
    ensures id in Last(r').tickets && Last(r').tickets[id].phase == Returned(d) && Last(r').now == Last(r).now
  {
    var cleared := Extend(r, Clear(id));
    r' := Extend(cleared, Return(id));
  }

  /** A request's deadline is the time of its begin plus its timeout, and its entry, as long
      as it is registered, has that deadline. */
  lemma {:induction false} DeadlineIsFromBegin(r: Run, n: nat, id: Id) returns (i: nat)
    requires IsRun(r) && n < |r.states| && id in r.states[n].tickets
    ensures i < n && var t := r.states[n].tickets[id];
            && r.steps[i] == Begin(id, t.user, t.channel, t.caps, t.timeout)
            && t.deadline == r.states[i].now + t.timeout
            && (Live(r.states[n], id) ==> r.states[n].reg.pending[t.KeyOf()].deadline == t.deadline)
  {
    ReachableIsOk(r, n);
    var s, step := r.states[n - 1], r.steps[n - 1];
    if id in s.tickets {
      i := DeadlineIsFromBegin(r, n - 1, id);
      ReachableIsOk(r, n - 1);
      StepGrows(s, step, id);
    } else {
      i := n - 1;
    }
    if Live(r.states[n], id) { assert EntryOk(r.states[n], r.states[n].tickets[id].KeyOf()); }
  }

  /** What a sender is answered: nothing is pending unless a request of theirs on that channel
      is registered and in time; to such a request a lone word of either vocabulary is a
      decision, and anything else a question. */
  lemma AnswersExactly(r: Run, n: nat, user: string, channel: string, text: string)
    requires IsRun(r) && n < |r.states|
    ensures var s, answer := r.states[n], Answer(r.states[n].reg, r.states[n].now, user, channel, text);
            && (answer.NothingPending? <==> forall id :: !Answerable(s, id, user, channel))
            && (!answer.NothingPending? ==> Answerable(s, answer.id, user, channel))
            && (answer.Settled? && answer.decision == Approved <==>
                  !answer.NothingPending? && LoneWord(text, APPROVE_WORDS))
            && (answer.Settled? && answer.decision == Cancelled <==>
                  !answer.NothingPending? && LoneWord(text, CANCEL_WORDS))
            && (answer.Settled? ==> answer.decision == Approved || answer.decision == Cancelled)
  {
    var s := r.states[n];
    ReachableIsOk(r, n);
    ApproveExactly(text);
    CancelExactly(text);
    if Key(channel, user) in s.reg.pending {
      EntryIsLive(s, Key(channel, user));
      assert EntryOk(s, Key(channel, user));
    }
    if Answer(s.reg, s.now, user, channel, text).NothingPending? {
      forall id ensures !Answerable(s, id, user, channel) { NothingAnswerable(s, user, channel, text, id); }
    } else {
      assert Answerable(s, s.reg.pending[Key(channel, user)].id, user, channel);
    }
  }

  lemma NothingAnswerable(s: State, user: string, channel: string, text: string, id: Id)
    requires Inv(s) && Answer(s.reg, s.now, user, channel, text).NothingPending?
    ensures !Answerable(s, id, user, channel)
  {
    if Key(channel, user) in s.reg.pending { assert EntryOk(s, Key(channel, user)); }
  }

  /** The sender's request is registered on that channel and in time. */
  predicate Answerable(s: State, id: Id, user: string, channel: string) {
    && id in s.tickets && Live(s, id) && s.tickets[id].KeyOf() == Key(channel, user)
    && s.now < s.tickets[id].deadline
  }

  // ── The first decision stands ─────────────────────────────────────────────

  /** In every reachable state an unresolved ticket is the live entry, still answerable,
      or its channel already holds its decision. */
  lemma UnresolvedIsLiveOrDecided(r: Run, n: nat, id: Id)
    requires IsRun(r) && n < |r.states| && id in r.states[n].tickets && r.states[n].tickets[id].Open()
    ensures var s := r.states[n];
            && id in s.reg.shots
            && if s.reg.shots[id].value.Some? then !s.reg.shots[id].sender
               else Live(s, id) && s.reg.pending[s.tickets[id].KeyOf()].settle
  {
    ReachableIsOk(r, n);
    assert TicketOk(r.states[n], id);
  }

  /** Once the channel holds a decision, no reply, superseding request or timeout changes
      it, and it is what `wait` comes to return. */
  lemma FirstDecisionStands(r: Run, i: nat, j: nat, id: Id, d: Decision)
    requires IsRun(r) && i <= j < |r.states|
    requires id in r.states[i].tickets && id in r.states[i].reg.shots && r.states[i].reg.shots[id].value == Some(d)
    ensures id in r.states[j].reg.shots && r.states[j].reg.shots[id].value == Some(d)
    ensures id in r.states[j].tickets && DecisionOf(r.states[j].tickets[id].phase) in {None, Some(d)}
  {
    RunGrows(r, i, j, id);
    ReachableIsOk(r, j);
    assert TicketOk(r.states[j], id);
  }

  // ── When a settling reply decides ─────────────────────────────────────────

  /** The reply puts its own word into the empty channel of the ticket. */
  predicate Decides(s: State, id: Id, text: string, s': State)
    requires id in s.reg.shots && id in s'.reg.shots
  {
    s.reg.shots[id].value.None? && s'.reg.shots[id].value == Some(Wanted(text))
  }

  /** Every recognised reply in time to a registered entry is reported as settling it, with
      its own word. It decides the request exactly when the ticket is still held open and
      its entry not yet answered; otherwise no channel changes its value. */
  lemma SettlingDecidesExactly(s: State, id: Id, text: string)
    requires Inv(s) && id in s.tickets && Live(s, id) && s.now < s.tickets[id].deadline
    requires Classify(text) != Unrecognised
    ensures var t := s.tickets[id];
            var s' := Apply(s, Reply(t.user, t.channel, text));
            && Answer(s.reg, s.now, t.user, t.channel, text) == Settled(id, Wanted(text))
            && id in s'.reg.shots
            && (Decides(s, id, text, s') <==> t.Open() && s.reg.pending[t.KeyOf()].settle)
            && (!Decides(s, id, text, s') ==> SameValues(s, s'))
  {
    assert TicketOk(s, id) && EntryOk(s, s.tickets[id].KeyOf());
  }

  /** No channel holds another value than before. */
  predicate SameValues(s: State, s': State) {
    s'.reg.shots.Keys == s.reg.shots.Keys && forall i | i in s.reg.shots :: s'.reg.shots[i].value == s.reg.shots[i].value
  }

  /** Over whole runs: a reply that decides gives the decision for good, and a reply that
      only looks settling leaves whatever is decided, then or later, to others. */
  lemma ReplyDecidesExactly(r: Run, i: nat, j: nat, id: Id)
    requires IsRun(r) && i < |r.steps| && i < j < |r.states| && r.steps[i].Reply?
    requires var s, step := r.states[i], r.steps[i];
             && id in s.tickets && Live(s, id) && s.tickets[id].KeyOf() == Key(step.channel, step.user)
             && s.now < s.tickets[id].deadline && Classify(step.text) != Unrecognised
    ensures var s, step := r.states[i], r.steps[i];
            && Answer(s.reg, s.now, step.user, step.channel, step.text) == Settled(id, Wanted(step.text))
            && id in s.reg.shots && id in r.states[j].reg.shots && id in r.states[j].tickets
            && if s.tickets[id].Open() && s.reg.pending[s.tickets[id].KeyOf()].settle
               then s.reg.shots[id].value.None? && r.states[j].reg.shots[id].value == Some(Wanted(step.text))
                    && DecisionOf(r.states[j].tickets[id].phase) in {None, Some(Wanted(step.text))}
               else SameValues(s, r.states[i + 1])
  {
    var s, step := r.states[i], r.steps[i];
    ReachableIsOk(r, i);
    SettlingDecidesExactly(s, id, step.text);
    RunGrows(r, i, j, id);
    if Decides(s, id, step.text, r.states[i + 1]) { FirstDecisionStands(r, i + 1, j, id, Wanted(step.text)); }
  }

  /** A state in which one request has just begun. */
  function Asked(now: Time, caps: Caps): State {
    Apply(Start(now), Begin("r", "u", "c", caps, 1))
  }

  lemma AskedIsAnswerable(now: Time, caps: Caps)
    ensures var s := Asked(now, caps);
            && Inv(s) && "r" in s.tickets && s.tickets["r"].KeyOf() == Key("c", "u") && s.tickets["r"].Open()
            && Live(s, "r") && s.now < s.tickets["r"].deadline && s.reg.pending[Key("c", "u")].settle
  {
    StartIsOk(now);
    StepKeeps(Start(now), Begin("r", "u", "c", caps, 1));
  }

  /** The two ways to fail. A "no" after a "yes" is acknowledged and ignored; and a "yes" to
      a request whose waiter has gone is acknowledged and lost. */
  lemma SettledRepliesCanBeIgnored(now: Time, caps: Caps)
    ensures var answered := Apply(Asked(now, caps), Reply("u", "c", "yes"));
            && Answer(answered.reg, now, "u", "c", "no") == Settled("r", Cancelled)
            && !Decides(answered, "r", "no", Apply(answered, Reply("u", "c", "no")))
    ensures Enabled(Asked(now, caps), Drop("r"))
    ensures var dropped := Apply(Asked(now, caps), Drop("r"));
            && Answer(dropped.reg, now, "u", "c", "yes") == Settled("r", Approved)
            && !Decides(dropped, "r", "yes", Apply(dropped, Reply("u", "c", "yes")))
  {
    BareWordsCount();
    SecondReplyIsIgnored(now, caps, "yes", "no");
    ReplyToNobodyIsLost(now, caps, "yes");
  }

  lemma SecondReplyIsIgnored(now: Time, caps: Caps, first: string, second: string)
    requires Classify(first) != Unrecognised && Classify(second) != Unrecognised
    ensures var answered := Apply(Asked(now, caps), Reply("u", "c", first));
            && Answer(answered.reg, now, "u", "c", second) == Settled("r", Wanted(second))
            && "r" in answered.reg.shots && "r" in Apply(answered, Reply("u", "c", second)).reg.shots
            && !Decides(answered, "r", second, Apply(answered, Reply("u", "c", second)))
  {
    var s := Asked(now, caps);
    AskedIsAnswerable(now, caps);
    StepKeeps(s, Reply("u", "c", first));
    SettlingDecidesExactly(s, "r", first);
    SettlingDecidesExactly(Apply(s, Reply("u", "c", first)), "r", second);
  }

  lemma ReplyToNobodyIsLost(now: Time, caps: Caps, text: string)
    requires Classify(text) != Unrecognised
    ensures Enabled(Asked(now, caps), Drop("r"))
    ensures var dropped := Apply(Asked(now, caps), Drop("r"));
            && Answer(dropped.reg, now, "u", "c", text) == Settled("r", Wanted(text))
            && "r" in dropped.reg.shots && "r" in Apply(dropped, Reply("u", "c", text)).reg.shots
            && !Decides(dropped, "r", text, Apply(dropped, Reply("u", "c", text)))
  {
    var s := Asked(now, caps);
    AskedIsAnswerable(now, caps);
    StepKeeps(s, Drop("r"));
    SettlingDecidesExactly(Apply(s, Drop("r")), "r", text);
  }

  /** A waiter's cleanup removes its own entry only. */
  lemma CleanupSparesOthers(s: State, id: Id, key: Key)
    requires Inv(s) && Enabled(s, Clear(id)) && key in s.reg.pending && s.reg.pending[key].id != id
    ensures key in Apply(s, Clear(id)).reg.pending
            && Apply(s, Clear(id)).reg.pending[key] == s.reg.pending[key]
  {
    EntryIsLive(s, key);
    WaiterLeavesOthers(s, Clear(id), s.reg.pending[key].id);
    assert EntryOk(s, key);
  }

  // ── The audit log ─────────────────────────────────────────────────────────

  function Verdicts(records: seq<Decision>): seq<Decision> {
    if records == [] then []
    else (if records[0] == Superseded then [] else [records[0]]) + Verdicts(records[1..])
  }

  /** For every request that finishes, the last audit record is the decision returned, and
      at most one record is not `Superseded`. */
  lemma AuditAgrees(r: Run, n: nat, id: Id, d: Decision)
    requires IsRun(r) && n < |r.states| && id in r.states[n].tickets
    requires r.states[n].tickets[id].phase == Returned(d)
    ensures var records := RecordsOf(r.states[n].reg.log, id);
            records != [] && records[|records| - 1] == d && |Verdicts(records)| <= 1
  {
    ReachableIsOk(r, n);
    assert TicketOk(r.states[n], id);
    assert Verdicts([]) == [] && [d][1..] == [] && [Superseded, d][1..] == [d] && [Superseded][1..] == [];
    assert Verdicts([d]) == (if d == Superseded then [] else [d]);
    assert Verdicts([Superseded, d]) == Verdicts([d]);
  }

  /** Every audit record names the sender, the channel and the caps of its request. */
  lemma {:induction false} AuditNamesTheRequest(r: Run, n: nat, rec: Record)
    requires IsRun(r) && n < |r.states| && rec in r.states[n].reg.log
    ensures rec.id in r.states[n].tickets
    ensures var t := r.states[n].tickets[rec.id]; rec == Record(rec.id, t.user, t.channel, rec.decision, t.caps)
  {
    var s, step := r.states[n - 1], r.steps[n - 1];
    ReachableIsOk(r, n - 1);
    if rec in s.reg.log {
      AuditNamesTheRequest(r, n - 1, rec);
      SameRequest(s, step, rec.id);
    } else {
      NewRecord(s, step, rec);
    }
  }

  lemma SameRequest(s: State, step: Step, id: Id)
    requires Enabled(s, step) && id in s.tickets
    ensures id in Apply(s, step).tickets
    ensures var t, t' := s.tickets[id], Apply(s, step).tickets[id];
            t'.user == t.user && t'.channel == t.channel && t'.caps == t.caps
  {
  }

  lemma NewRecord(s: State, step: Step, rec: Record)
    requires Inv(s) && Enabled(s, step) && rec in Apply(s, step).reg.log && rec !in s.reg.log
    ensures rec.id in Apply(s, step).tickets
    ensures var t := Apply(s, step).tickets[rec.id];
            rec == Record(rec.id, t.user, t.channel, rec.decision, t.caps)
  {
    match step {
      case Begin(_, user, channel, _, _) => assert EntryOk(s, Key(channel, user));
      case Return(id) =>
      case _ =>
    }
  }

  // ── Abandoned requests ────────────────────────────────────────────────────

  /** The step begins a request for the sender. */
  predicate BeginsFor(step: Step, key: Key) {
    step.Begin? && Key(step.channel, step.user) == key
  }

  /** A request given up while registered is never reaped: its entry stays, and its sender
      counts as having one pending, exactly until that sender begins another. */
  lemma {:induction false} AbandonedEntryStays(r: Run, i: nat, j: nat, id: Id)
    requires IsRun(r) && i <= j < |r.states|
    requires id in r.states[i].tickets && r.states[i].tickets[id].phase.Dropped? && Live(r.states[i], id)
    ensures id in r.states[j].tickets
    ensures Live(r.states[j], id) <==>
            forall k | i <= k < j :: !BeginsFor(r.steps[k], r.states[i].tickets[id].KeyOf())
    decreases j - i
  {
    if i < j {
      ReachableIsOk(r, i);
      AbandonedSurvives(r.states[i], r.steps[i], id);
      PhaseAfter(r.states[i], r.steps[i], id);
      if BeginsFor(r.steps[i], r.states[i].tickets[id].KeyOf()) {
        GoneStaysGone(r, i + 1, j, id);
      } else {
        AbandonedEntryStays(r, i + 1, j, id);
      }
    }
  }

  /** An entry that has left the registry never comes back. */
  lemma {:induction false} GoneStaysGone(r: Run, i: nat, j: nat, id: Id)
    requires IsRun(r) && i <= j < |r.states| && id in r.states[i].tickets && !Live(r.states[i], id)
    ensures id in r.states[j].tickets && !Live(r.states[j], id)
    decreases j - i
  {
    if i < j {
      ReachableIsOk(r, i);
      GoneAfter(r.states[i], r.steps[i], id);
      GoneStaysGone(r, i + 1, j, id);
    }
  }

  lemma GoneAfter(s: State, step: Step, id: Id)
    requires Inv(s) && Enabled(s, step) && id in s.tickets && !Live(s, id)
    ensures id in Apply(s, step).tickets && !Live(Apply(s, step), id)
  {
    PhaseAfter(s, step, id);
  }

  /** What a step does to the phase of a ticket. */
  lemma PhaseAfter(s: State, step: Step, id: Id)
    requires Enabled(s, step) && id in s.tickets
    ensures id in Apply(s, step).tickets
    ensures var t, t' := s.tickets[id], Apply(s, step).tickets[id];
            && t'.KeyOf() == t.KeyOf()
            && (!(Waiter(step) && step.id == id) ==> t' == t)
            && (t.phase.Returned? ==> t' == t)
            && (t.phase.Dropped? ==> t' == t)
            && (step == Drop(id) ==> t'.phase.Dropped?)
  {
  }

  /** An abandoned live entry survives every step but a begin for its own sender, and no
      such begin. */
  lemma AbandonedSurvives(s: State, step: Step, id: Id)
    requires Inv(s) && Enabled(s, step) && id in s.tickets && s.tickets[id].phase.Dropped? && Live(s, id)
    ensures id in Apply(s, step).tickets
    ensures Live(Apply(s, step), id) <==> !BeginsFor(step, s.tickets[id].KeyOf())
  {
    PhaseAfter(s, step, id);
    if step.Begin? {
      if !BeginsFor(step, s.tickets[id].KeyOf()) { BeginLeavesOthers(s, step, id); }
    } else if Waiter(step) {
      WaiterLeavesOthers(s, step, id);
    }
  }
}
