/** The bounded duplicate window. The hash of a key is taken to be injective, so the
    window holds the keys themselves. */
module Deduplicator {
  /** What is hashed for a message. */
  function Key(user: string, content: string): string {
    user + ":" + content
  }

  /** The window after offering `key`. */
  function Offer(window: seq<string>, capacity: nat, key: string): seq<string> {
    if key in window then window
    else (if |window| == capacity && window != [] then window[1..] else window) + [key]
  }

  class Window {
    var window: seq<string>
    const capacity: nat

    constructor (capacity: nat)
      ensures window == [] && this.capacity == capacity
    {
      window := [];
      this.capacity := capacity;
    }

    method Seen(user: string, content: string) returns (seen: bool)
      modifies this
      ensures seen == (Key(user, content) in old(window))
      ensures window == Offer(old(window), capacity, Key(user, content))
    {
      var key := Key(user, content);
      if key in window {
        return true;
      }
      if |window| == capacity {
        if window != [] {
          window := window[1..];
        }
      }
      window := window + [key];
      seen := false;
    }
  }

  // ── Keys ──────────────────────────────────────────────────────────────────

  /** Two users' keys identify their messages exactly when neither name followed by a colon
      begins the other; in particular when neither has a colon. */
  lemma KeysIdentifyMessages(u: string, v: string)
    ensures (forall a, b :: Key(u, a) == Key(v, b) ==> u == v && a == b) <==> !(u + ":" <= v) && !(v + ":" <= u)
    ensures ':' !in u && ':' !in v ==> !(u + ":" <= v) && !(v + ":" <= u)
  {
    if u + ":" <= v { PrefixesCollide(u, v); }
    if v + ":" <= u { PrefixesCollide(v, u); }
    forall a, b | Key(u, a) == Key(v, b) && !(u + ":" <= v) && !(v + ":" <= u) ensures u == v && a == b {
      if |u| <= |v| { KeysSplit(u, a, v, b); } else { KeysSplit(v, b, u, a); }
    }
  }

  lemma PrefixesCollide(u: string, v: string)
    requires u + ":" <= v
    ensures Key(v, "") == Key(u, v[|u| + 1..] + ":") && ':' in v
  {
    var rest := v[|u| + 1..];
    assert v[|u|] == ':';
    assert v == u + ":" + rest;
    ColonsCollide(u, rest, "");
    assert rest + ":" + "" == rest + ":";
  }

  lemma KeysSplit(u: string, a: string, v: string, b: string)
    requires |u| <= |v| && Key(u, a) == Key(v, b)
    ensures (u == v && a == b) || u + ":" <= v
  {
    var k := Key(u, a);
    assert u == k[..|u|] && v == k[..|v|] && k[|u|] == ':';
    if |u| == |v| {
      assert a == k[|u| + 1..] && b == k[|v| + 1..];
    } else {
      assert u + ":" == k[..|u| + 1] == v[..|u| + 1];
    }
  }

  /** With a colon in a user name they need not. */
  lemma ColonsCollide(u: string, v: string, b: string)
    ensures Key(u + ":" + v, b) == Key(u, v + ":" + b)
  {
    assert u + ":" + v + ":" + b == u + ":" + (v + ":" + b);
  }

  // ── Runs ──────────────────────────────────────────────────────────────────

  /** The window after a run of offers to an empty window. */
  function After(capacity: nat, keys: seq<string>): seq<string> {
    if keys == [] then []
    else Offer(After(capacity, keys[..|keys| - 1]), capacity, keys[|keys| - 1])
  }

  /** The keys that were new when offered, in order. */
  function Accepted(capacity: nat, keys: seq<string>): seq<string> {
    if keys == [] then []
    else
      var before, key := keys[..|keys| - 1], keys[|keys| - 1];
      Accepted(capacity, before) + if key in After(capacity, before) then [] else [key]
  }

  function LastOf(s: seq<string>, n: nat): seq<string> {
    if |s| <= n then s else s[|s| - n..]
  }

  predicate Distinct(s: seq<string>) {
    forall i, j | 0 <= i < j < |s| :: s[i] != s[j]
  }

  /** The window is the last accepted keys, as many as fit, without repeats; so a key is
      reported as seen exactly when it is among them. */
  lemma {:induction false} WindowIsRecentKeys(capacity: nat, keys: seq<string>)
    requires capacity >= 1
    ensures After(capacity, keys) == LastOf(Accepted(capacity, keys), capacity)
    ensures Distinct(After(capacity, keys))
  {
    if keys != [] {
      var before, key := keys[..|keys| - 1], keys[|keys| - 1];
      WindowIsRecentKeys(capacity, before);
      OfferKeepsDistinct(After(capacity, before), capacity, key);
      if key in After(capacity, before) {
        assert Accepted(capacity, before) + [] == Accepted(capacity, before);
      } else {
        LastOfAppend(Accepted(capacity, before), capacity, key);
      }
    }
  }

  lemma OfferKeepsDistinct(window: seq<string>, capacity: nat, key: string)
    requires Distinct(window)
    ensures Distinct(Offer(window, capacity, key))
  {
  }

  lemma LastOfAppend(s: seq<string>, n: nat, key: string)
    requires n >= 1
    ensures LastOf(s + [key], n)
            == (if |LastOf(s, n)| == n then LastOf(s, n)[1..] else LastOf(s, n)) + [key]
  {
  }

  lemma RecentAreInLast(s: seq<string>, n: nat)
    ensures forall i | 0 <= i < |s| && |s| - i <= n :: s[i] in LastOf(s, n)
  {
    forall i | 0 <= i < |s| && |s| - i <= n ensures s[i] in LastOf(s, n) {
      assert LastOf(s, n)[i - (|s| - |LastOf(s, n)|)] == s[i];
    }
  }

  /** A key is accepted again only after at least `capacity` other acceptances. */
  lemma {:induction false} RepeatsAreFarApart(capacity: nat, keys: seq<string>, i: nat, j: nat)
    requires capacity >= 1 && i < j < |Accepted(capacity, keys)|
    requires Accepted(capacity, keys)[i] == Accepted(capacity, keys)[j]
    ensures j - i > capacity
  {
    var before := keys[..|keys| - 1];
    var acc := Accepted(capacity, before);
    if j < |acc| {
      RepeatsAreFarApart(capacity, before, i, j);
    } else {
      WindowIsRecentKeys(capacity, before);
      RecentAreInLast(acc, capacity);
    }
  }

  /** Without room for a single key, nothing is ever evicted: the window is every key
      offered so far, each once. */
  lemma {:induction false} ZeroCapacityNeverForgets(keys: seq<string>)
    ensures After(0, keys) == Accepted(0, keys) && Distinct(After(0, keys))
    ensures forall k | k in keys :: k in After(0, keys)
  {
    if keys != [] {
      var before := keys[..|keys| - 1];
      ZeroCapacityNeverForgets(before);
      assert keys == before + [keys[|keys| - 1]];
    }
  }
}
