/** Local time in a zone given by its offset changes, and how a wall time is turned into
    an instant. Instants and wall times count nanoseconds; days count from the epoch. */
module TimeZone {
  import opened Prelude

  const MINUTE := 60_000_000_000
  const DAY := 1440 * MINUTE
  const LONGEST_JUMP := 180 * MINUTE

  datatype Change = Change(at: int, offset: int)

  /** The offset before the first change, then each change in order of time. */
  datatype Zone = Zone(first: int, changes: seq<Change>)

  predicate Ordered(z: Zone) {
    forall i, j | 0 <= i < j < |z.changes| :: z.changes[i].at < z.changes[j].at
  }

  function Later(z: Zone): Zone
    requires z.changes != []
  {
    Zone(z.changes[0].offset, z.changes[1..])
  }

  function Offset(z: Zone, t: int): int
    decreases |z.changes|
  {
    if z.changes == [] || t < z.changes[0].at then z.first else Offset(Later(z), t)
  }

  function Local(z: Zone, t: int): int {
    t + Offset(z, t)
  }

  /** The instants from `since` on whose local time is `wall`, earliest first. */
  function InstantsSince(z: Zone, since: Option<int>, wall: int): seq<int>
    decreases |z.changes|
  {
    if z.changes == [] then InFirst(z, since, wall)
    else InFirst(z, since, wall) + InstantsSince(Later(z), Some(z.changes[0].at), wall)
  }

  /** The instant before the first change that shows the wall time, if it lies there. */
  function InFirst(z: Zone, since: Option<int>, wall: int): seq<int> {
    var t := wall - z.first;
    if (since.Some? ==> since.value <= t) && (z.changes != [] ==> t < z.changes[0].at) then [t] else []
  }

  function Instants(z: Zone, wall: int): seq<int> {
    InstantsSince(z, None, wall)
  }

  /** These are exactly the instants that show the wall time, in strict order. */
  lemma {:induction false} InstantsAreExact(z: Zone, since: Option<int>, wall: int, t: int)
    requires Ordered(z)
    requires since.Some? && z.changes != [] ==> since.value < z.changes[0].at
    requires since.Some? ==> since.value <= t
    ensures t in InstantsSince(z, since, wall) <==> Local(z, t) == wall
    decreases |z.changes|
  {
    if z.changes != [] {
      var at := z.changes[0].at;
      assert Ordered(Later(z));
      if at <= t {
        InstantsAreExact(Later(z), Some(at), wall, t);
      } else {
        NoEarlier(Later(z), at, wall);
      }
    }
  }

  lemma {:induction false} NoEarlier(z: Zone, since: int, wall: int)
    requires Ordered(z) && (z.changes != [] ==> since < z.changes[0].at)
    ensures forall t | t in InstantsSince(z, Some(since), wall) :: since <= t
    decreases |z.changes|
  {
    if z.changes != [] {
      assert Ordered(Later(z));
      NoEarlier(Later(z), z.changes[0].at, wall);
    }
  }

  datatype LocalResult = Missing | Single(t: int) | Doubled(earlier: int)

  function FromLocal(z: Zone, wall: int): LocalResult {
    var ts := Instants(z, wall);
    if ts == [] then Missing else if |ts| == 1 then Single(ts[0]) else Doubled(ts[0])
  }

  /** The walk out of a gap: the first later whole minute with a single instant. */
  function WalkForward(z: Zone, wall: int, add: nat): Option<int>
    decreases 181 - add
  {
    if add > 180 then None
    else
      match FromLocal(z, wall + add * MINUTE)
      case Single(t) => Some(t)
      case _ => WalkForward(z, wall, add + 1)
  }

  function Resolve(z: Zone, wall: int): Option<int> {
    match FromLocal(z, wall)
    case Single(t) => Some(t)
    case Doubled(earlier) => Some(earlier)
    case Missing => WalkForward(z, wall, 1)
  }

  method ResolveLocal(z: Zone, wall: int) returns (r: Option<int>)
    ensures r == Resolve(z, wall)
  {
    match FromLocal(z, wall)
    case Single(t) => return Some(t);
    case Doubled(earlier) => return Some(earlier);
    case Missing =>
      for add := 1 to 181
        invariant WalkForward(z, wall, add) == WalkForward(z, wall, 1)
      {
        var found := FromLocal(z, wall + add * MINUTE);
        if found.Single? {
          return Some(found.t);
        }
      }
      return None;
  }

  // ── Zones that only jump forward ──────────────────────────────────────────

  predicate ForwardOnly(z: Zone)
    decreases |z.changes|
  {
    Ordered(z) &&
    (z.changes != [] ==>
       z.first < z.changes[0].offset <= z.first + LONGEST_JUMP && ForwardOnly(Later(z)))
  }

  lemma {:induction false} OffsetGrows(z: Zone, t: int, u: int)
    requires ForwardOnly(z) && t <= u
    ensures z.first <= Offset(z, t) <= Offset(z, u)
    decreases |z.changes|
  {
    if z.changes != [] {
      if z.changes[0].at <= t {
        OffsetGrows(Later(z), t, u);
      } else if z.changes[0].at <= u {
        OffsetGrows(Later(z), u, u);
      }
    }
  }

  /** Local time never stands still or goes back. */
  lemma LocalIncreases(z: Zone, t: int, u: int)
    requires ForwardOnly(z)
    ensures t < u <==> Local(z, t) < Local(z, u)
  {
    if t <= u { OffsetGrows(z, t, u); } else { OffsetGrows(z, u, t); }
  }

  lemma {:induction false} JumpIsBounded(z: Zone, t: int)
    requires ForwardOnly(z)
    ensures Offset(z, t) <= Offset(z, t - 1) + LONGEST_JUMP
    decreases |z.changes|
  {
    if z.changes != [] {
      var at := z.changes[0].at;
      if at < t {
        JumpIsBounded(Later(z), t);
      } else if at == t && z.changes[1..] != [] {
        assert Later(z).changes[0] == z.changes[1];
      }
    }
  }

  lemma ShownOnce(z: Zone, t: int)
    requires ForwardOnly(z)
    ensures FromLocal(z, Local(z, t)) == Single(t)
  {
    var ts := Instants(z, Local(z, t));
    InstantsAreExact(z, None, Local(z, t), t);
    forall u | u in ts ensures u == t {
      InstantsAreExact(z, None, Local(z, t), u);
      LocalIncreases(z, t, u);
      LocalIncreases(z, u, t);
    }
    IncreasingInstants(z, None, Local(z, t));
    OnlyOne(ts, t);
  }

  predicate Increasing(ts: seq<int>) {
    |ts| > 1 ==> ts[0] < ts[1] && Increasing(ts[1..])
  }

  lemma IncreasingCons(t: int, more: seq<int>)
    requires Increasing(more) && forall u | u in more :: t < u
    ensures Increasing([t] + more)
  {
    assert ([t] + more)[1..] == more;
    if more != [] { assert more[0] in more; }
  }

  lemma Prepended(first: seq<int>, at: int, more: seq<int>)
    requires Increasing(more) && (forall u | u in more :: at <= u)
    requires |first| <= 1 && (first != [] ==> first[0] < at)
    ensures Increasing(first + more)
  {
    if first == [] {
      assert first + more == more;
    } else {
      assert first == [first[0]];
      IncreasingCons(first[0], more);
    }
  }

  lemma OnlyOne(ts: seq<int>, t: int)
    requires t in ts && forall u | u in ts :: u == t
    requires Increasing(ts)
    ensures ts == [t]
  {
    forall i | 0 <= i < |ts| ensures ts[i] == t {
      assert ts[i] in ts;
    }
  }

  lemma {:induction false} IncreasingInstants(z: Zone, since: Option<int>, wall: int)
    requires Ordered(z)
    ensures Increasing(InstantsSince(z, since, wall))
    decreases |z.changes|
  {
    if z.changes != [] {
      var at := z.changes[0].at;
      assert Ordered(Later(z));
      IncreasingInstants(Later(z), Some(at), wall);
      NoEarlier(Later(z), at, wall);
      Prepended(InFirst(z, since, wall), at, InstantsSince(Later(z), Some(at), wall));
    }
  }

  /** A single instant shows the wall time asked for. */
  lemma SingleShows(z: Zone, wall: int)
    requires Ordered(z)
    ensures FromLocal(z, wall).Single? ==> Local(z, FromLocal(z, wall).t) == wall
    ensures FromLocal(z, wall).Doubled? ==> Local(z, FromLocal(z, wall).earlier) == wall
  {
    var ts := Instants(z, wall);
    if ts != [] { InstantsAreExact(z, None, wall, ts[0]); }
  }

  lemma {:induction false} WalkShowsLater(z: Zone, wall: int, add: nat)
    requires Ordered(z)
    ensures var r := WalkForward(z, wall, add);
            r.Some? ==> wall + add * MINUTE <= Local(z, r.value) <= wall + LONGEST_JUMP
    decreases 181 - add
  {
    if add <= 180 {
      SingleShows(z, wall + add * MINUTE);
      WalkShowsLater(z, wall, add + 1);
    }
  }

  /** In any zone, a resolved wall time is shown exactly, or up to three hours later when
      it is skipped; never earlier. */
  lemma ResolvedIsNotEarlier(z: Zone, wall: int)
    requires Ordered(z)
    ensures var r := Resolve(z, wall);
            r.Some? ==> wall <= Local(z, r.value) <= wall + LONGEST_JUMP
                        && (FromLocal(z, wall) != Missing ==> Local(z, r.value) == wall)
  {
    SingleShows(z, wall);
    WalkShowsLater(z, wall, 1);
  }

  lemma {:induction false} FirstIsLeast(ts: seq<int>, t: int)
    requires Increasing(ts) && t in ts
    ensures ts[0] <= t
  {
    if t != ts[0] {
      assert t in ts[1..];
      FirstIsLeast(ts[1..], t);
    }
  }

  /** A wall time shown more than once, in whatever zone, resolves to its first showing:
      it never grants more time than was asked. */
  lemma DoubledTimeTakesTheEarliest(z: Zone, wall: int, t: int)
    requires Ordered(z) && Local(z, t) == wall
    ensures Resolve(z, wall).Some? && Resolve(z, wall).value <= t
    ensures Local(z, Resolve(z, wall).value) == wall
  {
    InstantsAreExact(z, None, wall, t);
    IncreasingInstants(z, None, wall);
    FirstIsLeast(Instants(z, wall), t);
    SingleShows(z, wall);
  }

  // ── Gaps ──────────────────────────────────────────────────────────────────

  /** The change at `at` skips the wall time. */
  ghost predicate SkippedAt(z: Zone, wall: int, at: int) {
    wall < Local(z, at) && forall t | t < at :: Local(z, t) < wall
  }

  /** A wall time that no instant shows is skipped by a change. */
  lemma MissingIsSkipped(z: Zone, wall: int) returns (at: int)
    requires ForwardOnly(z) && FromLocal(z, wall) == Missing
    ensures SkippedAt(z, wall, at)
  {
    at := FindSkip(z, None, wall);
  }

  lemma {:induction false} FindSkip(z: Zone, since: Option<int>, wall: int) returns (at: int)
    requires ForwardOnly(z) && InstantsSince(z, since, wall) == []
    requires since.Some? ==> since.value + z.first <= wall
    ensures SkippedAt(z, wall, at)
    decreases |z.changes|
  {
    var c := z.changes[0];
    assert Offset(Later(z), c.at) == c.offset by {
      if z.changes[1..] != [] { assert z.changes[1..][0] == z.changes[1]; }
    }
    if wall < c.at + c.offset {
      at := c.at;
      assert Offset(z, at) == Offset(Later(z), at);
      forall t | t < at ensures Local(z, t) < wall {
        assert Offset(z, t) == z.first;
      }
    } else {
      at := FindSkip(Later(z), Some(c.at), wall);
      assert Local(Later(z), c.at) <= wall;
      LocalIncreases(Later(z), at, c.at);
      assert Offset(z, at) == Offset(Later(z), at);
      forall t | t < at ensures Local(z, t) < wall {
        if t < c.at {
          assert Offset(z, t) == z.first;
        } else {
          assert Offset(z, t) == Offset(Later(z), t) && Local(Later(z), t) < wall;
        }
      }
    }
  }

  /** When the wall time lies whole minutes before the end of its gap, it resolves to the
      instant of the change itself. */
  lemma GapResolvesToItsEnd(z: Zone, wall: int, at: int)
    requires ForwardOnly(z) && SkippedAt(z, wall, at) && (Local(z, at) - wall) % MINUTE == 0
    ensures Resolve(z, wall) == Some(at)
  {
    JumpIsBounded(z, at);
    var n := (Local(z, at) - wall) / MINUTE;
    assert Local(z, at - 1) < wall;
    assert 1 <= n <= 180;
    GapIsMissing(z, wall, at, n);
    assert MissingAfter(z, wall, 0);
    ShownOnce(z, at);
    WalkTo(z, wall, 1, n, at);
  }

  lemma NothingInGap(z: Zone, wall: int, at: int)
    requires ForwardOnly(z) && SkippedAt(z, wall, at)
    ensures forall w | wall <= w < Local(z, at) :: FromLocal(z, w) == Missing
  {
    forall w | wall <= w < Local(z, at) ensures FromLocal(z, w) == Missing {
      var ts := Instants(z, w);
      if ts != [] {
        InstantsAreExact(z, None, w, ts[0]);
        LocalIncreases(z, ts[0], at);
      }
    }
  }

  predicate MissingAfter(z: Zone, wall: int, n: nat) {
    FromLocal(z, wall + n * MINUTE) == Missing
  }

  /** The walk stops at the first later whole minute that is shown once. */
  lemma {:induction false} WalkTo(z: Zone, wall: int, add: nat, n: nat, t: int)
    requires add <= n <= 180 && FromLocal(z, wall + n * MINUTE) == Single(t)
    requires forall i: nat | add <= i < n :: MissingAfter(z, wall, i)
    ensures WalkForward(z, wall, add) == Some(t)
    decreases n - add
  {
    if add < n {
      assert MissingAfter(z, wall, add);
      WalkTo(z, wall, add + 1, n, t);
    }
  }

  lemma GapIsMissing(z: Zone, wall: int, at: int, n: nat)
    requires ForwardOnly(z) && SkippedAt(z, wall, at) && (n > 0 ==> wall + (n - 1) * MINUTE < Local(z, at))
    ensures forall i: nat | i < n :: MissingAfter(z, wall, i)
  {
    NothingInGap(z, wall, at);
    forall i: nat | i < n ensures MissingAfter(z, wall, i) {
      assert wall <= wall + i * MINUTE < Local(z, at);
    }
  }

  /** Every offset and every change falls on a whole minute. */
  predicate MinuteAligned(z: Zone) {
    && z.first % MINUTE == 0
    && forall c | c in z.changes :: c.at % MINUTE == 0 && c.offset % MINUTE == 0
  }

  lemma {:induction false} AlignedOffset(z: Zone, t: int)
    requires MinuteAligned(z)
    ensures Offset(z, t) % MINUTE == 0
    decreases |z.changes|
  {
    if z.changes != [] && z.changes[0].at <= t {
      assert z.changes[0] in z.changes;
      AlignedOffset(Later(z), t);
    }
  }

  lemma {:induction false} SkipsAtChange(z: Zone, wall: int, at: int)
    requires ForwardOnly(z) && SkippedAt(z, wall, at)
    ensures exists c | c in z.changes :: c.at == at
    decreases |z.changes|
  {
    assert Local(z, at - 1) < wall < Local(z, at);
    if z.changes != [] && z.changes[0].at < at {
      var c := z.changes[0];
      assert SkippedAt(Later(z), wall, at) by {
        forall t | t < at ensures Local(Later(z), t) < wall {
          LocalIncreases(Later(z), t, at - 1);
        }
      }
      SkipsAtChange(Later(z), wall, at);
      var d :| d in Later(z).changes && d.at == at;
      assert d in z.changes;
    } else if z.changes != [] {
      assert z.changes[0] in z.changes;
    }
  }

  lemma WholeMinutes(at: int, offset: int, wall: int)
    requires at % MINUTE == 0 && offset % MINUTE == 0 && wall % MINUTE == 0
    ensures (at + offset - wall) % MINUTE == 0
  {
  }

  /** In a zone of whole minutes every skipped whole minute resolves to the change that
      skips it. */
  lemma SkippedMinuteResolves(z: Zone, wall: int) returns (at: int)
    requires ForwardOnly(z) && MinuteAligned(z) && wall % MINUTE == 0 && FromLocal(z, wall) == Missing
    ensures SkippedAt(z, wall, at) && Resolve(z, wall) == Some(at)
  {
    at := MissingIsSkipped(z, wall);
    SkipsAtChange(z, wall, at);
    AlignedOffset(z, at);
    WholeMinutes(at, Offset(z, at), wall);
    GapResolvesToItsEnd(z, wall, at);
  }

  // ── Gaps as the table shows them ──────────────────────────────────────────

  /** The offset before a change. */
  function OffsetBefore(z: Zone, k: nat): int
    requires k < |z.changes|
  {
    if k == 0 then z.first else z.changes[k - 1].offset
  }

  /** The wall time at which a change leaves the clock. */
  function End(z: Zone, k: nat): int
    requires k < |z.changes|
  {
    z.changes[k].at + z.changes[k].offset
  }

  /** The `k`th change takes the clock over the wall time. */
  predicate Skips(z: Zone, k: nat, wall: int) {
    k < |z.changes| && z.changes[k].at + OffsetBefore(z, k) <= wall < End(z, k)
  }

  predicate Skipped(z: Zone, wall: int) {
    exists k: nat | k < |z.changes| :: Skips(z, k, wall)
  }

  lemma {:induction false} OffsetsAround(z: Zone, k: nat, t: int)
    requires Ordered(z) && k < |z.changes| && z.changes[k].at <= t
    requires k + 1 < |z.changes| ==> t < z.changes[k + 1].at
    ensures Offset(z, t) == z.changes[k].offset
    ensures Offset(z, z.changes[k].at - 1) == OffsetBefore(z, k)
    decreases k
  {
    var later := Later(z);
    assert Ordered(later);
    if k > 0 {
      assert later.changes[k - 1] == z.changes[k];
      assert k + 1 < |z.changes| ==> later.changes[k] == z.changes[k + 1];
      OffsetsAround(later, k - 1, t);
    } else if later.changes != [] {
      assert later.changes[0] == z.changes[1];
    }
  }

  /** The table's gaps are the wall times no instant shows. */
  lemma SkippedExactly(z: Zone, wall: int)
    requires ForwardOnly(z)
    ensures FromLocal(z, wall) == Missing <==> Skipped(z, wall)
  {
    if FromLocal(z, wall) == Missing { MissingIsInTable(z, wall); }
    if Skipped(z, wall) {
      var k: nat :| k < |z.changes| && Skips(z, k, wall);
      SkipsAtItsChange(z, k, wall);
      NothingInGap(z, wall, z.changes[k].at);
    }
  }

  lemma MissingIsInTable(z: Zone, wall: int)
    requires ForwardOnly(z) && FromLocal(z, wall) == Missing
    ensures Skipped(z, wall)
  {
    var at := MissingIsSkipped(z, wall);
    SkipsAtChange(z, wall, at);
    var c :| c in z.changes && c.at == at;
    var k: nat :| k < |z.changes| && z.changes[k] == c;
    OffsetsAround(z, k, at);
    assert Local(z, at - 1) < wall;
    assert Skips(z, k, wall);
  }

  lemma SkipsAtItsChange(z: Zone, k: nat, wall: int)
    requires ForwardOnly(z) && Skips(z, k, wall)
    ensures SkippedAt(z, wall, z.changes[k].at) && Local(z, z.changes[k].at) == End(z, k) <= wall + LONGEST_JUMP
  {
    var at := z.changes[k].at;
    OffsetsAround(z, k, at);
    JumpIsBounded(z, at);
    forall t | t < at ensures Local(z, t) < wall {
      LocalIncreases(z, at - 1, t);
    }
  }

  /** A wall time that is not skipped is shown exactly once. */
  lemma ShownIfNotSkipped(z: Zone, wall: int)
    requires ForwardOnly(z) && !Skipped(z, wall)
    ensures FromLocal(z, wall).Single? && Local(z, FromLocal(z, wall).t) == wall
  {
    SkippedExactly(z, wall);
    var t := Instants(z, wall)[0];
    InstantsAreExact(z, None, wall, t);
    ShownOnce(z, t);
  }

  // ── What a wall time resolves to ──────────────────────────────────────────

  /** The wall time `n` minutes on is not skipped. */
  predicate ShownAfter(z: Zone, wall: int, n: nat) {
    !Skipped(z, wall + n * MINUTE)
  }

  lemma {:induction false} WalkExactly(z: Zone, wall: int, add: nat)
    requires ForwardOnly(z)
    ensures WalkForward(z, wall, add).Some? <==> exists n: nat | add <= n <= 180 :: ShownAfter(z, wall, n)
    decreases 181 - add
  {
    if add <= 180 {
      SkippedExactly(z, wall + add * MINUTE);
      if ShownAfter(z, wall, add) {
        ShownIfNotSkipped(z, wall + add * MINUTE);
      } else {
        WalkExactly(z, wall, add + 1);
      }
    }
  }

  /** A wall time resolves exactly when it, or one of the 180 minutes after it, is not
      skipped. */
  lemma ResolvesExactly(z: Zone, wall: int)
    requires ForwardOnly(z)
    ensures Resolve(z, wall).Some? <==> exists n: nat | n <= 180 :: ShownAfter(z, wall, n)
  {
    SkippedExactly(z, wall);
    WalkExactly(z, wall, 1);
    if FromLocal(z, wall) != Missing {
      ShownIfNotSkipped(z, wall);
      assert ShownAfter(z, wall, 0);
    }
  }

  /** No two changes lie within a minute of each other. */
  predicate Spaced(z: Zone) {
    forall k: nat | k + 1 < |z.changes| :: z.changes[k].at + MINUTE <= z.changes[k + 1].at
  }

  /** The first of the minutes counted from `wall` on that is not before `end`. */
  function UpTo(wall: int, end: int): int {
    wall + Minutes(end - wall) * MINUTE
  }

  function Minutes(d: int): int {
    (d + MINUTE - 1) / MINUTE
  }

  lemma UpToIsNext(wall: int, end: int)
    requires wall < end <= wall + LONGEST_JUMP
    ensures end <= UpTo(wall, end) < end + MINUTE
    ensures 1 <= Minutes(end - wall) <= 180
  {
  }

  /** The wall time shown by the instant a wall time resolves to. */
  ghost function ShownFrom(z: Zone, wall: int): int {
    if Skipped(z, wall) then
      var k: nat :| k < |z.changes| && Skips(z, k, wall);
      UpTo(wall, End(z, k))
    else wall
  }

  /** The instant that shows the first minute past a gap. */
  lemma ShownPastGap(z: Zone, wall: int, k: nat) returns (t: int)
    requires ForwardOnly(z) && Spaced(z) && Skips(z, k, wall)
    ensures Local(z, t) == UpTo(wall, End(z, k))
  {
    var at, end := z.changes[k].at, End(z, k);
    SkipsAtItsChange(z, k, wall);
    UpToIsNext(wall, end);
    t := at + (UpTo(wall, end) - end);
    OffsetsAround(z, k, t);
  }

  /** A skipped wall time resolves within the minute that follows the change. */
  lemma GapResolvesWithinAMinute(z: Zone, wall: int, k: nat)
    requires ForwardOnly(z) && Spaced(z) && Skips(z, k, wall)
    ensures Resolve(z, wall).Some? && Local(z, Resolve(z, wall).value) == UpTo(wall, End(z, k))
  {
    var at, end := z.changes[k].at, End(z, k);
    var n := Minutes(end - wall);
    SkipsAtItsChange(z, k, wall);
    UpToIsNext(wall, end);
    var t := ShownPastGap(z, wall, k);
    ShownOnce(z, t);
    GapIsMissing(z, wall, at, n);
    assert MissingAfter(z, wall, 0);
    WalkTo(z, wall, 1, n, t);
  }

  /** With changes a minute apart every wall time resolves, to an instant that shows it or
      the first of its minutes past the gap. */
  lemma ResolvedShows(z: Zone, wall: int)
    requires ForwardOnly(z) && Spaced(z)
    ensures Resolve(z, wall).Some? && Local(z, Resolve(z, wall).value) == ShownFrom(z, wall)
  {
    if Skipped(z, wall) {
      var k: nat :| k < |z.changes| && Skips(z, k, wall) && ShownFrom(z, wall) == UpTo(wall, End(z, k));
      GapResolvesWithinAMinute(z, wall, k);
    } else {
      ShownIfNotSkipped(z, wall);
    }
  }

  // ── Past and future ───────────────────────────────────────────────────────

  /** A wall time still ahead of the local clock resolves to an instant after now. */
  lemma AheadStaysAhead(z: Zone, wall: int, now: int)
    requires ForwardOnly(z) && Local(z, now) < wall
    ensures Resolve(z, wall).Some? ==> Resolve(z, wall).value > now
  {
    ResolvedIsNotEarlier(z, wall);
    if Resolve(z, wall).Some? { LocalIncreases(z, now, Resolve(z, wall).value); }
  }

  /** A wall time resolves to the future exactly when the local clock has not reached what
      its instant shows. */
  lemma AheadExactly(z: Zone, wall: int, now: int)
    requires ForwardOnly(z) && Spaced(z)
    ensures Resolve(z, wall).Some?
    ensures Resolve(z, wall).value > now <==> Local(z, now) < ShownFrom(z, wall)
  {
    ResolvedShows(z, wall);
    LocalIncreases(z, now, Resolve(z, wall).value);
  }

  /** In a zone of whole minutes, a whole minute resolves to the future exactly when the
      local clock has not reached that minute itself. */
  lemma MinuteAheadExactly(z: Zone, wall: int, now: int)
    requires ForwardOnly(z) && MinuteAligned(z) && wall % MINUTE == 0
    ensures Resolve(z, wall).Some?
    ensures Resolve(z, wall).value > now <==> Local(z, now) < wall
  {
    if FromLocal(z, wall) == Missing {
      var at := SkippedMinuteResolves(z, wall);
      if at <= now { LocalIncreases(z, now, at); }
    } else {
      ResolvedIsNotEarlier(z, wall);
      LocalIncreases(z, now, Resolve(z, wall).value);
    }
  }
}
