/** One message through the whole pipeline without interruption, over the real registry,
    duplicate window and limiter. */
module Gateway {
  import opened Approval
  import opened Pipeline
  import Dedup = Deduplicator
  import Limiter = RateLimiter

  /** What the three parts hold when a message comes in, and the clock. */
  datatype Before = Before(reg: Registry, window: seq<string>, table: Limiter.Table, now: Time, clock: Limiter.Clock)

  predicate Awaits(setup: Setup, b: Before, user: string, channel: string) {
    setup.registry && Key(channel, user) in b.reg.pending
  }

  predicate Repeats(setup: Setup, b: Before, user: string, channel: string, content: string) {
    setup.capacity.Some? && !Awaits(setup, b, user, channel) && Dedup.Key(user, content) in b.window
  }

  predicate Refused(setup: Setup, b: Before, user: string) {
    Limits(setup) && !Limiter.Decide(Limiter.Lookup(b.table, user), setup.limit.value, b.clock).1
  }

  /** How the message must end. */
  function Due(setup: Setup, b: Before, user: string, channel: string, content: string): Ending {
    var answer := if Awaits(setup, b, user, channel) then Answer(b.reg, b.now, user, channel, content) else NothingPending;
    if Repeats(setup, b, user, channel, content) then Duplicate
    else if answer.Settled? then GateSettled
    else if answer.NeedsClarification? then GateClarified
    else if Refused(setup, b, user) then RateDenied
    else Processed
  }

  class MessageHandler {
    const setup: Setup
    const registry: ApprovalRegistry
    const dedup: Dedup.Window
    const limiter: Limiter.Limiter
    /** What the agent was given, and who was told about the rate limit or re-prompted. */
    var agent: seq<(string, string)>
    var denials: seq<string>
    var prompts: seq<string>

    constructor (setup: Setup)
      ensures this.setup == setup && agent == [] && denials == [] && prompts == []
      ensures fresh(registry) && fresh(dedup) && fresh(limiter)
      ensures setup.capacity.Some? ==> dedup.capacity == setup.capacity.value
      ensures registry.View() == Registry(map[], map[], []) && dedup.window == [] && limiter.limits == map[]
    {
      this.setup := setup;
      registry := new ApprovalRegistry();
      dedup := new Dedup.Window(if setup.capacity.Some? then setup.capacity.value else 0);
      limiter := new Limiter.Limiter();
      agent, denials, prompts := [], [], [];
    }

    function Snapshot(now: Time, clock: Limiter.Clock): Before
      reads this, registry, dedup, limiter
    {
      Before(registry.View(), dedup.window, limiter.limits, now, clock)
    }

    /** The message ends in the one way its sender's pending approval, the duplicate window
        and the limiter call for. Only a fresh message that no approval awaits enters the
        window; only a message that is no duplicate and no reply is counted by the limiter;
        only a processed one reaches the agent. */
    method HandleMessage(user: string, channel: string, content: string, now: Time, clock: Limiter.Clock)
      returns (ending: Ending)
      modifies this`agent, this`denials, this`prompts, registry, dedup, limiter
      ensures ending == Due(setup, old(Snapshot(now, clock)), user, channel, content)
      ensures registry.View() ==
              if ending == GateSettled then Replied(old(registry.View()), now, user, channel, content)
              else old(registry.View())
      ensures dedup.window ==
              if setup.capacity.Some? && !Awaits(setup, old(Snapshot(now, clock)), user, channel)
              then Dedup.Offer(old(dedup.window), dedup.capacity, Dedup.Key(user, content))
              else old(dedup.window)
      ensures limiter.limits ==
              if Limits(setup) && ending in {RateDenied, Processed}
              then old(limiter.limits)[user := Limiter.Decide(old(Limiter.Lookup(limiter.limits, user)), setup.limit.value, clock).0]
              else old(limiter.limits)
      ensures agent == old(agent) + (if ending == Processed then [(user, content)] else [])
      ensures denials == old(denials) + (if ending == RateDenied then [channel] else [])
      ensures prompts == old(prompts) + (if ending == GateClarified then [channel] else [])
    {
      var awaiting := false;
      if setup.registry {
        awaiting := registry.HasPending(user, channel);
      }
      if setup.capacity.Some? && !awaiting {
        var seen := dedup.Seen(user, content);
        if seen {
          return Duplicate;
        }
      }
      if awaiting {
        var answer := registry.SubmitReply(user, channel, content, now);
        match answer {
          case Settled(_, _) => return GateSettled;
          case NeedsClarification(_) =>
            prompts := prompts + [channel];
            return GateClarified;
          case NothingPending =>
        }
      }
      if setup.limit.Some? {
        var allowed := limiter.CheckAndRecord(user, setup.limit.value, clock);
        if !allowed {
          denials := denials + [channel];
          return RateDenied;
        }
      }
      agent := agent + [(user, content)];
      return Processed;
    }
  }

  /** Run without interruption, the steps of the pipeline end a message in the same way. */
  lemma StepsAgree(setup: Setup, s: PState, mid: Mid, clock: Limiter.Clock)
    requires At(s, mid, Arrived)
    requires Limiter.Ordered(Calls(s.checks) + [Limiter.Call(s.messages[mid].user, clock)])
    ensures var m := s.messages[mid];
            var last := Finish(setup, s, mid, clock);
            mid in last.messages && last.messages[mid].stage == Ended(Due(setup, Now(s, clock), m.user, m.channel, m.content))
  {
    var m, b := s.messages[mid], Now(s, clock);
    CheckThenDeduplicate(setup, s, mid, b);
    if !Repeats(setup, b, m.user, m.channel, m.content) {
      var kept := PApply(setup, PApply(setup, s, CheckPending(mid)), Deduplicate(mid));
      OfferStage(setup, kept, mid);
      var offered := PApply(setup, kept, Offer(mid));
      if !offered.messages[mid].stage.Ended? { LimitStage(setup, offered, mid, clock); }
    }
  }

  function Now(s: PState, clock: Limiter.Clock): Before {
    Before(s.gate.sys.reg, s.window, s.table, s.gate.sys.now, clock)
  }

  lemma CheckThenDeduplicate(setup: Setup, s: PState, mid: Mid, b: Before)
    requires At(s, mid, Arrived) && b == Now(s, b.clock)
    ensures var m := s.messages[mid];
            var last := PApply(setup, PApply(setup, s, CheckPending(mid)), Deduplicate(mid));
            && At(last, mid, if Repeats(setup, b, m.user, m.channel, m.content) then Ended(Duplicate)
                             else Fresh(Awaits(setup, b, m.user, m.channel)))
            && last.messages[mid] == m.(stage := last.messages[mid].stage)
            && last.gate == s.gate && last.table == s.table && last.checks == s.checks
  {
  }

  lemma OfferStage(setup: Setup, s: PState, mid: Mid)
    requires At(s, mid, Fresh(true)) || At(s, mid, Fresh(false))
    ensures var m := s.messages[mid];
            var last := PApply(setup, s, Offer(mid));
            var answer := if m.stage.awaiting then AnswerTo(s, m) else NothingPending;
            && At(last, mid, if answer.Settled? then Ended(GateSettled)
                             else if answer.NeedsClarification? then Ended(GateClarified) else Ordinary)
            && last.messages[mid] == m.(stage := last.messages[mid].stage)
            && last.table == s.table && last.checks == s.checks
  {
  }

  lemma LimitStage(setup: Setup, s: PState, mid: Mid, clock: Limiter.Clock)
    requires PEnabled(setup, s, Limit(mid, clock))
    ensures At(PApply(setup, s, Limit(mid, clock)), mid,
               if Refused(setup, Now(s, clock), s.messages[mid].user)
               then Ended(RateDenied) else Admitted)
  {
  }

  /** The steps of one message, one after another, until it ends. */
  ghost function Finish(setup: Setup, s: PState, mid: Mid, clock: Limiter.Clock): PState
    requires At(s, mid, Arrived)
    requires Limiter.Ordered(Calls(s.checks) + [Limiter.Call(s.messages[mid].user, clock)])
  {
    var checked := PApply(setup, s, CheckPending(mid));
    var deduplicated := PApply(setup, checked, Deduplicate(mid));
    if deduplicated.messages[mid].stage.Ended? then deduplicated
    else
      var offered := PApply(setup, deduplicated, Offer(mid));
      if offered.messages[mid].stage.Ended? then offered
      else
        var limited := PApply(setup, offered, Limit(mid, clock));
        if limited.messages[mid].stage.Ended? then limited else PApply(setup, limited, Process(mid))
  }
}
