/** The plan-approval registry as a class, its operations as functions on registry
    values, and the protocol of tickets, replies, waiters and clock around it. */
module Approval {
  import opened Prelude
  import opened Replies

  type Id = string

  type Time = int

  datatype Decision = Approved | Cancelled | Expired | Superseded {
    predicate MaySpend() {
      match this
      case Approved => true
      case Cancelled | Expired | Superseded => false
    }
  }

  datatype Key = Key(channel: string, user: string)

  datatype Caps = Caps(spend: Option<int>, latency: Option<nat>, due: Option<string>)

  /** A one-shot channel: what was sent, and whether each end still exists. */
  datatype Shot = Shot(value: Option<Decision>, sender: bool, receiver: bool)

  /** An entry awaiting its sender; `settle` says whether it still holds the sending end. */
  datatype Pending = Pending(id: Id, user: string, channel: string, settle: bool, deadline: Time, caps: Caps)

  datatype Record = Record(id: Id, user: string, channel: string, decision: Decision, caps: Caps)

  datatype Registry = Registry(pending: map<Key, Pending>, shots: map<Id, Shot>, log: seq<Record>)

  datatype ReplyOutcome =
    | Settled(id: Id, decision: Decision)
    | NeedsClarification(id: Id)
    | NothingPending

  // ── Operations on registry values ─────────────────────────────────────────

  /** Sending consumes the sending end; the value is lost when nobody listens. */
  function Send(shots: map<Id, Shot>, id: Id, d: Decision): map<Id, Shot> {
    if id !in shots then shots
    else
      var s := shots[id];
      shots[id := Shot(if s.receiver then Some(d) else s.value, false, s.receiver)]
  }

  function DropSender(shots: map<Id, Shot>, id: Id): map<Id, Shot> {
    if id !in shots then shots else shots[id := shots[id].(sender := false)]
  }

  function DropReceiver(shots: map<Id, Shot>, id: Id): map<Id, Shot> {
    if id !in shots then shots else shots[id := shots[id].(receiver := false)]
  }

  function Begun(r: Registry, id: Id, user: string, channel: string, caps: Caps, deadline: Time): Registry {
    var key := Key(channel, user);
    var settled :=
      if key in r.pending && r.pending[key].settle
      then Send(r.shots, r.pending[key].id, Superseded) else r.shots;
    var log :=
      if key in r.pending
      then r.log + [Record(r.pending[key].id, r.pending[key].user, r.pending[key].channel, Superseded, r.pending[key].caps)]
      else r.log;
    Registry(r.pending[key := Pending(id, user, channel, true, deadline, caps)],
             settled[id := Shot(None, true, true)], log)
  }

  /** The decision a recognised reply asks for. */
  function Wanted(text: string): Decision {
    if Classify(text) == Approve then Approved else Cancelled
  }

  /** What `submit_reply` answers. */
  function Answer(r: Registry, now: Time, user: string, channel: string, text: string): ReplyOutcome {
    var key := Key(channel, user);
    if key !in r.pending then NothingPending
    else
      var e := r.pending[key];
      if e.user != user || e.channel != channel || now >= e.deadline then NothingPending
      else if Classify(text) == Unrecognised then NeedsClarification(e.id)
      else Settled(e.id, Wanted(text))
  }

  /** And what it leaves behind. */
  function Replied(r: Registry, now: Time, user: string, channel: string, text: string): Registry {
    var key := Key(channel, user);
    if Answer(r, now, user, channel, text).Settled? && r.pending[key].settle then
      r.(pending := r.pending[key := r.pending[key].(settle := false)],
         shots := Send(r.shots, r.pending[key].id, Wanted(text)))
    else r
  }

  /** The waiter's locked cleanup: its own entry goes, a newer one stays. */
  function Cleared(r: Registry, id: Id, user: string, channel: string): Registry {
    var key := Key(channel, user);
    if key in r.pending && r.pending[key].id == id then
      r.(pending := r.pending - {key},
         shots := if r.pending[key].settle then DropSender(r.shots, id) else r.shots)
    else r
  }

  function Logged(r: Registry, id: Id, user: string, channel: string, d: Decision, caps: Caps): Registry {
    if d == Superseded then r else r.(log := r.log + [Record(id, user, channel, d, caps)])
  }

  // ── The registry itself ───────────────────────────────────────────────────

  class ApprovalRegistry {
    var pending: map<Key, Pending>
    var shots: map<Id, Shot>
    var log: seq<Record>

    constructor ()
      ensures View() == Registry(map[], map[], [])
    {
      pending, shots, log := map[], map[], [];
    }

    function View(): Registry
      reads this
    {
      Registry(pending, shots, log)
    }

    method HasPending(user: string, channel: string) returns (r: bool)
      ensures r <==> Key(channel, user) in pending
    {
      r := Key(channel, user) in pending;
    }

    method Begin(id: Id, user: string, channel: string, caps: Caps, now: Time, timeout: nat)
      modifies this
      ensures View() == Begun(old(View()), id, user, channel, caps, now + timeout)
    {
      var key := Key(channel, user);
      if key in pending {
        var replaced := pending[key];
        pending := pending - {key};
        if replaced.settle {
          shots := Send(shots, replaced.id, Superseded);
        }
        log := log + [Record(replaced.id, replaced.user, replaced.channel, Superseded, replaced.caps)];
      }
      shots := shots[id := Shot(None, true, true)];
      pending := pending[key := Pending(id, user, channel, true, now + timeout, caps)];
    }

    method SubmitReply(user: string, channel: string, text: string, now: Time) returns (r: ReplyOutcome)
      modifies this
      ensures r == Answer(old(View()), now, user, channel, text)
      ensures View() == Replied(old(View()), now, user, channel, text)
    {
      var key := Key(channel, user);
      if key !in pending {
        return NothingPending;
      }
      var entry := pending[key];
      if entry.user != user || entry.channel != channel {
        return NothingPending;
      }
      if now >= entry.deadline {
        return NothingPending;
      }
      var reply := Classify(text);
      if reply == Unrecognised {
        return NeedsClarification(entry.id);
      }
      var decision := if reply == Approve then Approved else Cancelled;
      if entry.settle {
        pending := pending[key := entry.(settle := false)];
        shots := Send(shots, entry.id, decision);
      }
      r := Settled(entry.id, decision);
    }

    /** The waiter's cleanup, under the lock. */
    method ClearOwnEntry(id: Id, user: string, channel: string)
      modifies this
      ensures View() == Cleared(old(View()), id, user, channel)
    {
      var key := Key(channel, user);
      if key in pending && pending[key].id == id {
        if pending[key].settle {
          shots := DropSender(shots, id);
        }
        pending := pending - {key};
      }
    }

    method LogDecision(id: Id, user: string, channel: string, d: Decision, caps: Caps)
      modifies this
      ensures View() == Logged(old(View()), id, user, channel, d, caps)
    {
      if d != Superseded {
        log := log + [Record(id, user, channel, d, caps)];
      }
    }
  }

  // ── The protocol ──────────────────────────────────────────────────────────

  /** Where a ticket's holder is. */
  datatype Phase =
    | Registered                 // begun; the plan message may still be on its way
    | Waiting(timer: Time)       // waiting on the channel until the timer
    | Resolved(d: Decision)      // decided; the entry not yet cleared
    | ClearedPhase(d: Decision)  // entry cleared; decision not yet logged
    | Returned(d: Decision)      // `wait` has returned
    | Dropped                    // given up without an answer

  datatype Ticket = Ticket(user: string, channel: string, caps: Caps, timeout: nat, deadline: Time, phase: Phase) {
    function KeyOf(): Key {
      Key(channel, user)
    }

    predicate Open() {
      phase.Registered? || phase.Waiting?
    }
  }

  /** A reply that settled an entry: an observer's note of the step that did it. */
  datatype Accepted = Accepted(id: Id, user: string, channel: string, text: string, at: Time)

  datatype State = State(now: Time, reg: Registry, tickets: map<Id, Ticket>, accepted: seq<Accepted>)

  function Start(now: Time): State {
    State(now, Registry(map[], map[], []), map[], [])
  }

  datatype Step =
    | Begin(id: Id, user: string, channel: string, caps: Caps, timeout: nat)
    | Reply(user: string, channel: string, text: string)
    | Wait(id: Id)
    | Resolve(id: Id)
    | Clear(id: Id)
    | Return(id: Id)
    | Drop(id: Id)
    | Tick(elapsed: nat)

  /** The waiter's poll: the channel first, then the timer. */
  function Poll(shot: Shot, now: Time, timer: Time): Option<Decision> {
    match shot.value
    case Some(d) => Some(d)
    case None => if !shot.sender || now >= timer then Some(Expired) else None
  }

  predicate Enabled(s: State, step: Step) {
    match step
    case Begin(id, _, _, _, _) => id !in s.tickets
    case Reply(_, _, _) => true
    case Wait(id) => id in s.tickets && s.tickets[id].phase.Registered?
    case Resolve(id) =>
      && id in s.tickets && s.tickets[id].phase.Waiting? && id in s.reg.shots
      && Poll(s.reg.shots[id], s.now, s.tickets[id].phase.timer).Some?
    case Clear(id) => id in s.tickets && s.tickets[id].phase.Resolved?
    case Return(id) => id in s.tickets && s.tickets[id].phase.ClearedPhase?
    case Drop(id) => id in s.tickets && !s.tickets[id].phase.Returned? && !s.tickets[id].phase.Dropped?
    case Tick(_) => true
  }

  function Move(s: State, id: Id, phase: Phase): map<Id, Ticket>
    requires id in s.tickets
  {
    s.tickets[id := s.tickets[id].(phase := phase)]
  }

  /** The reply uses up a live entry's sending end. */
  predicate Settles(s: State, user: string, channel: string, text: string) {
    Answer(s.reg, s.now, user, channel, text).Settled? && s.reg.pending[Key(channel, user)].settle
  }

  function Apply(s: State, step: Step): State
    requires Enabled(s, step)
  {
    match step
    case Begin(id, user, channel, caps, timeout) =>
      s.(reg := Begun(s.reg, id, user, channel, caps, s.now + timeout),
         tickets := s.tickets[id := Ticket(user, channel, caps, timeout, s.now + timeout, Registered)])
    case Reply(user, channel, text) =>
      s.(reg := Replied(s.reg, s.now, user, channel, text),
         accepted := if Settles(s, user, channel, text)
                     then s.accepted + [Accepted(s.reg.pending[Key(channel, user)].id, user, channel, text, s.now)]
                     else s.accepted)
    case Wait(id) => s.(tickets := Move(s, id, Waiting(s.now + s.tickets[id].timeout)))
    case Resolve(id) =>
      var d := Poll(s.reg.shots[id], s.now, s.tickets[id].phase.timer).value;
      s.(tickets := Move(s, id, Resolved(d)), reg := s.reg.(shots := DropReceiver(s.reg.shots, id)))
    case Clear(id) =>
      var t := s.tickets[id];
      s.(tickets := Move(s, id, ClearedPhase(t.phase.d)), reg := Cleared(s.reg, id, t.user, t.channel))
    case Return(id) =>
      var t := s.tickets[id];
      s.(tickets := Move(s, id, Returned(t.phase.d)),
         reg := Logged(s.reg, id, t.user, t.channel, t.phase.d, t.caps))
    case Drop(id) => s.(tickets := Move(s, id, Dropped), reg := s.reg.(shots := DropReceiver(s.reg.shots, id)))
    case Tick(elapsed) => s.(now := s.now + elapsed)
  }
}
