/** What every step of the approval protocol keeps. */
module ApprovalSafety {
  import opened Prelude
  import opened Replies
  import opened Approval

  /** The ticket's entry is the one registered for its sender. */
  predicate Live(s: State, id: Id)
    requires id in s.tickets
  {
    var key := s.tickets[id].KeyOf();
    key in s.reg.pending && s.reg.pending[key].id == id
  }

  function DecisionOf(p: Phase): Option<Decision> {
    match p
    case Resolved(d) => Some(d)
    case ClearedPhase(d) => Some(d)
    case Returned(d) => Some(d)
    case _ => None
  }

  function RecordsOf(log: seq<Record>, id: Id): seq<Decision> {
    if log == [] then []
    else
      var r := log[|log| - 1];
      RecordsOf(log[..|log| - 1], id) + if r.id == id then [r.decision] else []
  }

  /** A reply that warrants the decision: from the ticket's own sender on its own channel,
      a lone word, before the deadline. */
  predicate Warrants(e: Accepted, id: Id, t: Ticket, d: Decision) {
    && e.id == id && e.user == t.user && e.channel == t.channel && e.at < t.deadline
    && Classify(e.text) != Unrecognised && Wanted(e.text) == d
  }

  // ── The invariant ─────────────────────────────────────────────────────────

  /** An unresolved ticket is the live entry with its sending end unused, or its channel
      already holds exactly one decision. */
  ghost predicate ShotOk(s: State, id: Id)
    requires id in s.tickets && id in s.reg.shots
  {
    var t, sh := s.tickets[id], s.reg.shots[id];
    && (sh.sender <==> Live(s, id) && s.reg.pending[t.KeyOf()].settle)
    && (sh.value.Some? ==> !sh.sender)
    && sh.value != Some(Expired)
    && (sh.receiver <==> t.Open())
    && (t.Open() && sh.value.None? ==> sh.sender)
    && (sh.value == Some(Superseded) ==> !Live(s, id))
    && t.deadline <= s.now + t.timeout
    && (t.phase.Waiting? ==> t.phase.timer >= t.deadline)
  }

  /** A decided ticket was decided by its channel, or by its deadline. */
  ghost predicate DecisionOk(s: State, id: Id)
    requires id in s.tickets && id in s.reg.shots
  {
    var t, sh := s.tickets[id], s.reg.shots[id];
    && (DecisionOf(t.phase).Some? ==>
          && DecisionOf(t.phase) == (if sh.value.Some? then sh.value else Some(Expired))
          && (sh.value.None? ==> s.now >= t.deadline))
    && (t.phase.ClearedPhase? || t.phase.Returned? ==> !Live(s, id))
  }

  ghost predicate AuditOk(s: State, id: Id)
    requires id in s.tickets
  {
    var t, recs := s.tickets[id], RecordsOf(s.reg.log, id);
    match t.phase
    case Returned(d) =>
      if d == Superseded then recs == [Superseded] else recs == [d] || recs == [Superseded, d]
    case _ =>
      && (if Live(s, id) then recs == [] else recs == [] || recs == [Superseded])
      && (!Live(s, id) && (t.Open() || t.phase.Resolved?) ==> recs == [Superseded])
      && (DecisionOf(t.phase) == Some(Superseded) ==> recs == [Superseded])
  }

  ghost predicate WarrantOk(s: State, id: Id)
    requires id in s.tickets && id in s.reg.shots
  {
    var v := s.reg.shots[id].value;
    v.Some? && v.value != Superseded ==>
      exists e | e in s.accepted :: Warrants(e, id, s.tickets[id], v.value)
  }

  ghost predicate TicketOk(s: State, id: Id)
    requires id in s.tickets && id in s.reg.shots
  {
    ShotOk(s, id) && DecisionOk(s, id) && AuditOk(s, id) && WarrantOk(s, id)
  }

  ghost predicate EntryOk(s: State, key: Key)
    requires key in s.reg.pending
  {
    var p := s.reg.pending[key];
    && key == Key(p.channel, p.user) && p.id in s.tickets
    && var t := s.tickets[p.id]; t.KeyOf() == key && t.deadline == p.deadline && t.caps == p.caps
  }

  ghost predicate Inv(s: State) {
    && s.tickets.Keys == s.reg.shots.Keys
    && (forall r | r in s.reg.log :: r.id in s.tickets)
    && (forall key | key in s.reg.pending :: EntryOk(s, key))
    && forall id | id in s.tickets :: TicketOk(s, id)
  }

  // ── Frames ────────────────────────────────────────────────────────────────

  /** Nothing that concerns the ticket has changed. */
  ghost predicate Untouched(s: State, s': State, id: Id)
    requires id in s.tickets && id in s.reg.shots
  {
    && id in s'.tickets && id in s'.reg.shots
    && s'.tickets[id] == s.tickets[id] && s'.reg.shots[id] == s.reg.shots[id]
    && (Live(s', id) <==> Live(s, id))
    && (Live(s, id) ==> s'.reg.pending[s.tickets[id].KeyOf()] == s.reg.pending[s.tickets[id].KeyOf()])
    && RecordsOf(s'.reg.log, id) == RecordsOf(s.reg.log, id)
    && s.now <= s'.now && s.accepted <= s'.accepted
  }

  lemma UntouchedStaysOk(s: State, s': State, id: Id)
    requires id in s.tickets && id in s.reg.shots && TicketOk(s, id) && Untouched(s, s', id)
    ensures TicketOk(s', id)
  {
    WarrantStays(s, s', id);
  }

  lemma WarrantStays(s: State, s': State, id: Id)
    requires id in s.tickets && id in s.reg.shots && WarrantOk(s, id)
    requires id in s'.tickets && id in s'.reg.shots && s.accepted <= s'.accepted
    requires s'.tickets[id].(phase := s.tickets[id].phase) == s.tickets[id]
    requires s'.reg.shots[id].value == s.reg.shots[id].value
    ensures WarrantOk(s', id)
  {
    var v := s.reg.shots[id].value;
    if v.Some? && v.value != Superseded {
      var e :| e in s.accepted && Warrants(e, id, s.tickets[id], v.value);
      assert e in s'.accepted && Warrants(e, id, s'.tickets[id], v.value);
    }
  }

  lemma RecordsOfAppend(log: seq<Record>, r: Record, id: Id)
    ensures RecordsOf(log + [r], id) == RecordsOf(log, id) + if r.id == id then [r.decision] else []
  {
    assert (log + [r])[..|log + [r]| - 1] == log;
  }

  lemma {:induction false} NoRecords(log: seq<Record>, id: Id)
    requires forall r | r in log :: r.id != id
    ensures RecordsOf(log, id) == []
  {
    if log != [] { NoRecords(log[..|log| - 1], id); }
  }

  // ── Every step keeps the invariant ────────────────────────────────────────

  lemma StartIsOk(now: Time)
    ensures Inv(Start(now))
  {
  }

  /** A live entry's ticket, seen from the entry. */
  lemma EntryIsLive(s: State, key: Key)
    requires Inv(s) && key in s.reg.pending
    ensures s.reg.pending[key].id in s.tickets && Live(s, s.reg.pending[key].id)
  {
    assert EntryOk(s, key);
  }

  lemma BeginKeeps(s: State, id: Id, user: string, channel: string, caps: Caps, timeout: nat)
    requires Inv(s) && Enabled(s, Begin(id, user, channel, caps, timeout))
    ensures Inv(Apply(s, Begin(id, user, channel, caps, timeout)))
  {
    var step := Begin(id, user, channel, caps, timeout);
    var s' := Apply(s, step);
    var key := Key(channel, user);
    if key in s.reg.pending { EntryIsLive(s, key); }
    forall k | k in s'.reg.pending ensures EntryOk(s', k) {
      if k != key { assert EntryOk(s, k); }
    }
    forall i | i in s'.tickets ensures TicketOk(s', i) {
      if i == id {
        BeginOpens(s, step);
      } else if Live(s, i) && s.tickets[i].KeyOf() == key {
        BeginSupersedes(s, step, i);
      } else {
        BeginLeavesOthers(s, step, i);
        UntouchedStaysOk(s, s', i);
      }
    }
  }

  lemma BeginRecords(s: State, step: Step, i: Id)
    requires Inv(s) && step.Begin? && Enabled(s, step) && i in s.tickets
    ensures RecordsOf(Apply(s, step).reg.log, i)
            == RecordsOf(s.reg.log, i)
               + if Live(s, i) && s.tickets[i].KeyOf() == Key(step.channel, step.user) then [Superseded] else []
  {
    var key := Key(step.channel, step.user);
    if key in s.reg.pending {
      assert EntryOk(s, key);
      RecordsOfAppend(s.reg.log, Apply(s, step).reg.log[|s.reg.log|], i);
    }
  }

  lemma BeginOpens(s: State, step: Step)
    requires Inv(s) && step.Begin? && Enabled(s, step)
    ensures TicketOk(Apply(s, step), step.id)
  {
    BeginHasNoRecords(s, step);
    var s', id := Apply(s, step), step.id;
    assert s'.reg.shots[id] == Shot(None, true, true) && s'.tickets[id].phase.Registered?;
    assert Live(s', id) && s'.reg.pending[s'.tickets[id].KeyOf()].settle;
  }

  lemma BeginHasNoRecords(s: State, step: Step)
    requires Inv(s) && step.Begin? && Enabled(s, step)
    ensures RecordsOf(Apply(s, step).reg.log, step.id) == []
  {
    NoRecords(s.reg.log, step.id);
    var key := Key(step.channel, step.user);
    if key in s.reg.pending {
      assert EntryOk(s, key);
      RecordsOfAppend(s.reg.log, Apply(s, step).reg.log[|s.reg.log|], step.id);
    }
  }

  /** A superseded ticket keeps the decision it already holds, or gets this one. */
  lemma BeginSupersedes(s: State, step: Step, i: Id)
    requires Inv(s) && step.Begin? && Enabled(s, step)
    requires i in s.tickets && Live(s, i) && s.tickets[i].KeyOf() == Key(step.channel, step.user)
    ensures TicketOk(Apply(s, step), i)
  {
    var s' := Apply(s, step);
    assert TicketOk(s, i);
    BeginRecords(s, step, i);
    if s'.reg.shots[i].value == s.reg.shots[i].value { WarrantStays(s, s', i); }
  }

  lemma BeginLeavesOthers(s: State, step: Step, i: Id)
    requires Inv(s) && step.Begin? && Enabled(s, step)
    requires i in s.tickets && !(Live(s, i) && s.tickets[i].KeyOf() == Key(step.channel, step.user))
    ensures Untouched(s, Apply(s, step), i)
  {
    BeginRecords(s, step, i);
    var key := Key(step.channel, step.user);
    if key in s.reg.pending { assert EntryOk(s, key); }
  }

  lemma ReplyKeeps(s: State, user: string, channel: string, text: string)
    requires Inv(s)
    ensures Inv(Apply(s, Reply(user, channel, text)))
  {
    var s' := Apply(s, Reply(user, channel, text));
    var key := Key(channel, user);
    if Settles(s, user, channel, text) {
      EntryIsLive(s, key);
      forall k | k in s'.reg.pending ensures EntryOk(s', k) { assert EntryOk(s, k); }
      forall i | i in s'.tickets ensures TicketOk(s', i) {
        if i == s.reg.pending[key].id {
          ReplySettles(s, user, channel, text);
        } else {
          ReplyLeavesOthers(s, user, channel, text, i);
          UntouchedStaysOk(s, s', i);
        }
      }
    }
  }

  lemma ReplySettles(s: State, user: string, channel: string, text: string)
    requires Inv(s) && Settles(s, user, channel, text)
    ensures var id := s.reg.pending[Key(channel, user)].id;
            id in s.tickets && TicketOk(Apply(s, Reply(user, channel, text)), id)
  {
    var s', key := Apply(s, Reply(user, channel, text)), Key(channel, user);
    EntryIsLive(s, key);
    var id := s.reg.pending[key].id;
    assert EntryOk(s, key) && TicketOk(s, id);
    var e := Accepted(id, user, channel, text, s.now);
    assert e in s'.accepted && Warrants(e, id, s'.tickets[id], Wanted(text));
  }

  lemma ReplyLeavesOthers(s: State, user: string, channel: string, text: string, i: Id)
    requires Inv(s) && Settles(s, user, channel, text)
    requires i in s.tickets && i != s.reg.pending[Key(channel, user)].id
    ensures Untouched(s, Apply(s, Reply(user, channel, text)), i)
  {
    EntryIsLive(s, Key(channel, user));
  }

  predicate Waiter(step: Step) {
    step.Wait? || step.Resolve? || step.Clear? || step.Return? || step.Drop?
  }

  /** Steps of one ticket's holder leave every other ticket alone; in particular a
      cleanup never removes another request's entry. */
  lemma WaiterLeavesOthers(s: State, step: Step, i: Id)
    requires Inv(s) && Waiter(step) && Enabled(s, step) && i in s.tickets && i != step.id
    ensures Untouched(s, Apply(s, step), i)
  {
    if step.Clear? {
      ClearLeavesOthers(s, step.id, i);
    } else {
      var s' := Apply(s, step);
      assert s'.reg.pending == s.reg.pending && s'.reg.shots[i] == s.reg.shots[i];
      if step.Return? && s'.reg.log != s.reg.log {
        RecordsOfAppend(s.reg.log, s'.reg.log[|s.reg.log|], i);
      }
    }
  }

  lemma ClearLeavesOthers(s: State, id: Id, i: Id)
    requires Inv(s) && Enabled(s, Clear(id)) && i in s.tickets && i != id
    ensures Untouched(s, Apply(s, Clear(id)), i)
  {
    var s', key := Apply(s, Clear(id)), s.tickets[i].KeyOf();
    assert s'.reg.log == s.reg.log && s'.reg.shots[i] == s.reg.shots[i];
    if key in s.reg.pending && s.reg.pending[key].id == i {
      assert key in s'.reg.pending;
    }
  }

  /** A waiter only ever removes an entry, and changes nothing of a ticket but its phase. */
  lemma WaiterKeepsRest(s: State, step: Step)
    requires Waiter(step) && Enabled(s, step)
    ensures var s' := Apply(s, step);
            && (forall k | k in s'.reg.pending :: k in s.reg.pending && s'.reg.pending[k] == s.reg.pending[k])
            && forall i | i in s.tickets :: i in s'.tickets && s'.tickets[i].(phase := s.tickets[i].phase) == s.tickets[i]
  {
  }

  lemma EntryStays(s: State, s': State, k: Key)
    requires k in s.reg.pending && EntryOk(s, k) && k in s'.reg.pending && s'.reg.pending[k] == s.reg.pending[k]
    requires var id := s.reg.pending[k].id;
             id in s'.tickets && s'.tickets[id].(phase := s.tickets[id].phase) == s.tickets[id]
    ensures EntryOk(s', k)
  {
  }

  lemma WaiterKeepsEntries(s: State, step: Step)
    requires Inv(s) && Waiter(step) && Enabled(s, step)
    ensures var s' := Apply(s, step); forall k | k in s'.reg.pending :: EntryOk(s', k)
  {
    var s' := Apply(s, step);
    WaiterKeepsRest(s, step);
    forall k | k in s'.reg.pending ensures EntryOk(s', k) {
      assert EntryOk(s, k);
      EntryStays(s, s', k);
    }
  }

  lemma WaiterKeepsOwn(s: State, step: Step)
    requires Inv(s) && Waiter(step) && Enabled(s, step)
    ensures TicketOk(Apply(s, step), step.id)
  {
    var s', id := Apply(s, step), step.id;
    assert TicketOk(s, id);
    WarrantStays(s, s', id);
    if step.Return? {
      ReturnLogs(s, id);
    } else if step.Clear? {
      ClearRemovesOwn(s, id);
    } else if step.Resolve? {
      ResolveDecides(s, id);
    } else if step.Wait? {
      WaitStarts(s, id);
    } else {
      DropLetsGo(s, id);
    }
  }

  lemma WaitStarts(s: State, id: Id)
    requires Inv(s) && Enabled(s, Wait(id))
    ensures var s' := Apply(s, Wait(id)); ShotOk(s', id) && DecisionOk(s', id) && AuditOk(s', id)
  {
    assert TicketOk(s, id) && Apply(s, Wait(id)).reg == s.reg;
  }

  /** The decision is what the channel holds, or expiry once the timer has run out. */
  lemma ResolveDecides(s: State, id: Id)
    requires Inv(s) && Enabled(s, Resolve(id))
    ensures var s' := Apply(s, Resolve(id)); ShotOk(s', id) && DecisionOk(s', id) && AuditOk(s', id)
  {
    var s' := Apply(s, Resolve(id));
    assert TicketOk(s, id);
    assert s'.reg.pending == s.reg.pending && s'.reg.log == s.reg.log;
  }

  lemma DropLetsGo(s: State, id: Id)
    requires Inv(s) && Enabled(s, Drop(id))
    ensures var s' := Apply(s, Drop(id)); ShotOk(s', id) && DecisionOk(s', id) && AuditOk(s', id)
  {
    var s' := Apply(s, Drop(id));
    assert TicketOk(s, id);
    assert s'.reg.pending == s.reg.pending && s'.reg.log == s.reg.log;
  }

  lemma ReturnLogs(s: State, id: Id)
    requires Inv(s) && Enabled(s, Return(id))
    ensures var s' := Apply(s, Return(id)); ShotOk(s', id) && DecisionOk(s', id) && AuditOk(s', id)
  {
    var s', t := Apply(s, Return(id)), s.tickets[id];
    assert TicketOk(s, id);
    assert s'.reg.pending == s.reg.pending && s'.reg.shots == s.reg.shots;
    ReturnRecords(s, id);
  }

  lemma ReturnRecords(s: State, id: Id)
    requires Enabled(s, Return(id))
    ensures var d, log, log' := s.tickets[id].phase.d, s.reg.log, Apply(s, Return(id)).reg.log;
            RecordsOf(log', id) == if d == Superseded then RecordsOf(log, id) else RecordsOf(log, id) + [d]
  {
    var s', t := Apply(s, Return(id)), s.tickets[id];
    if t.phase.d != Superseded {
      RecordsOfAppend(s.reg.log, Record(id, t.user, t.channel, t.phase.d, t.caps), id);
    }
  }

  lemma ClearRemovesOwn(s: State, id: Id)
    requires Inv(s) && Enabled(s, Clear(id))
    ensures var s' := Apply(s, Clear(id)); ShotOk(s', id) && DecisionOk(s', id) && AuditOk(s', id)
  {
    var s' := Apply(s, Clear(id));
    assert TicketOk(s, id);
    assert s'.reg.log == s.reg.log && !Live(s', id);
  }

  lemma WaiterKeeps(s: State, step: Step)
    requires Inv(s) && Waiter(step) && Enabled(s, step)
    ensures Inv(Apply(s, step))
  {
    var s' := Apply(s, step);
    WaiterKeepsEntries(s, step);
    WaiterKeepsOwn(s, step);
    forall i | i in s'.tickets ensures TicketOk(s', i) {
      if i != step.id {
        WaiterLeavesOthers(s, step, i);
        UntouchedStaysOk(s, s', i);
      }
    }
  }

  lemma TickKeeps(s: State, elapsed: nat)
    requires Inv(s)
    ensures Inv(Apply(s, Tick(elapsed)))
  {
    var s' := Apply(s, Tick(elapsed));
    forall k | k in s'.reg.pending ensures EntryOk(s', k) { assert EntryOk(s, k); }
    forall i | i in s'.tickets ensures TicketOk(s', i) { UntouchedStaysOk(s, s', i); }
  }

  lemma StepKeeps(s: State, step: Step)
    requires Inv(s) && Enabled(s, step)
    ensures Inv(Apply(s, step))
  {
    if step.Begin? {
      BeginKeeps(s, step.id, step.user, step.channel, step.caps, step.timeout);
    } else if step.Reply? {
      ReplyKeeps(s, step.user, step.channel, step.text);
    } else if step.Tick? {
      TickKeeps(s, step.elapsed);
    } else {
      WaiterKeeps(s, step);
    }
  }
}
