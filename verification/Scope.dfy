/** Scope tags: minting, the canonical key, and why the key identifies its sender. */
module Scope {
  import opened Prelude
  import opened Text

  // ── A sorted map from strings to strings ──────────────────────────────────

  datatype Tag = Tag(key: string, value: string)

  /** The order of the tags' keys. */
  predicate Less(a: string, b: string) {
    b != "" && (a == "" || a[0] < b[0] || (a[0] == b[0] && Less(a[1..], b[1..])))
  }

  lemma {:induction false} LessIsTotal(a: string, b: string)
    ensures (Less(a, b) || Less(b, a)) <==> a != b
    ensures !(Less(a, b) && Less(b, a))
  {
    if a != "" && b != "" && a[0] == b[0] {
      LessIsTotal(a[1..], b[1..]);
      assert a == [a[0]] + a[1..] && b == [b[0]] + b[1..];
    }
  }

  lemma {:induction false} LessIsTransitive(a: string, b: string, c: string)
    requires Less(a, b) && Less(b, c)
    ensures Less(a, c)
  {
    if a != "" && a[0] == b[0] && b[0] == c[0] { LessIsTransitive(a[1..], b[1..], c[1..]); }
  }

  predicate Sorted(tags: seq<Tag>) {
    tags != [] ==>
      && (|tags| > 1 ==> Less(tags[0].key, tags[1].key))
      && Sorted(tags[1..])
  }

  function Lookup(tags: seq<Tag>, key: string): Option<string> {
    if tags == [] then None
    else if tags[0].key == key then Some(tags[0].value)
    else Lookup(tags[1..], key)
  }

  function Insert(tags: seq<Tag>, key: string, value: string): (r: seq<Tag>)
    ensures r != []
  {
    if tags == [] then [Tag(key, value)]
    else if tags[0].key == key then [Tag(key, value)] + tags[1..]
    else if Less(key, tags[0].key) then [Tag(key, value)] + tags
    else [tags[0]] + Insert(tags[1..], key, value)
  }

  /** Keys above the front of a sorted map are not confused with it. */
  lemma {:induction false} AbsentBelow(tags: seq<Tag>, key: string)
    requires Sorted(tags) && (tags != [] ==> Less(key, tags[0].key))
    ensures Lookup(tags, key).None?
  {
    if tags != [] {
      LessIsTotal(key, tags[0].key);
      if |tags| > 1 { LessIsTransitive(key, tags[0].key, tags[1].key); }
      AbsentBelow(tags[1..], key);
    }
  }

  lemma {:induction false} InsertKeepsOrder(tags: seq<Tag>, key: string, value: string)
    requires Sorted(tags)
    ensures Sorted(Insert(tags, key, value))
    ensures forall k | Less(k, key) && (tags != [] ==> Less(k, tags[0].key)) ::
              Less(k, Insert(tags, key, value)[0].key)
  {
    if tags != [] {
      LessIsTotal(tags[0].key, key);
      var r := Insert(tags, key, value);
      if tags[0].key == key {
        assert r[1..] == tags[1..];
      } else if Less(key, tags[0].key) {
        assert r[1..] == tags;
      } else {
        InsertKeepsOrder(tags[1..], key, value);
        assert r[1..] == Insert(tags[1..], key, value);
      }
    }
  }

  lemma {:induction false} InsertThenLookup(tags: seq<Tag>, key: string, value: string, k: string)
    requires Sorted(tags)
    ensures Lookup(Insert(tags, key, value), k) == if k == key then Some(value) else Lookup(tags, k)
  {
    if tags != [] {
      var r := Insert(tags, key, value);
      if tags[0].key == key {
        assert r[1..] == tags[1..];
      } else if Less(key, tags[0].key) {
        assert r[1..] == tags;
      } else {
        InsertThenLookup(tags[1..], key, value, k);
        assert r[1..] == Insert(tags[1..], key, value);
      }
    }
  }

  // ── Minting ───────────────────────────────────────────────────────────────

  predicate Forbidden(c: char) {
    c == '=' || c == ';' || c as int <= 0x1F || 0x7F <= c as int <= 0x9F
  }

  /** The first character that may not stand in a tag. */
  function ForbiddenIn(s: string): Option<char> {
    if s == "" then None else if Forbidden(s[0]) then Some(s[0]) else ForbiddenIn(s[1..])
  }

  datatype ScopeError =
    | ForbiddenCharacter(key: string, found: char)
    | EmptyKey
    | Empty

  function TagFault(t: Tag): Option<ScopeError> {
    if t.key == "" then Some(EmptyKey)
    else if ForbiddenIn(t.key).Some? then Some(ForbiddenCharacter(t.key, ForbiddenIn(t.key).value))
    else if ForbiddenIn(t.value).Some? then Some(ForbiddenCharacter(t.key, ForbiddenIn(t.value).value))
    else None
  }

  /** The fault of the first bad tag. */
  function FirstFault(tags: seq<Tag>): Option<ScopeError> {
    if tags == [] then None
    else if TagFault(tags[0]).Some? then TagFault(tags[0])
    else FirstFault(tags[1..])
  }

  predicate CleanText(s: string) {
    forall c | c in s :: !Forbidden(c)
  }

  predicate CleanTag(t: Tag) {
    t.key != "" && CleanText(t.key) && CleanText(t.value)
  }

  /** What a minted scope holds. */
  predicate Minted(tags: seq<Tag>) {
    tags != [] && Sorted(tags) && forall t | t in tags :: CleanTag(t)
  }

  lemma {:induction false} ForbiddenInFinds(s: string)
    ensures ForbiddenIn(s).None? <==> CleanText(s)
  {
    if s != "" {
      ForbiddenInFinds(s[1..]);
      assert s[0] in s && forall c | c in s[1..] :: c in s;
    }
  }

  lemma {:induction false} FirstFaultFinds(tags: seq<Tag>)
    ensures FirstFault(tags).None? <==> forall t | t in tags :: CleanTag(t)
  {
    if tags != [] {
      FirstFaultFinds(tags[1..]);
      ForbiddenInFinds(tags[0].key);
      ForbiddenInFinds(tags[0].value);
      assert tags[0] in tags && forall t | t in tags[1..] :: t in tags;
    }
  }

  /** What the fault of a tag is: an empty key, or the first forbidden character of the key
      and then the value. */
  predicate Faulty(t: Tag, fault: ScopeError) {
    match fault
    case EmptyKey => t.key == ""
    case ForbiddenCharacter(key, found) => t.key != "" && key == t.key && FirstForbidden(t.key + t.value, found)
    case Empty => false
  }

  predicate FirstForbidden(s: string, c: char) {
    exists k | 0 <= k < |s| :: s[k] == c && Forbidden(c) && CleanText(s[..k])
  }

  lemma {:induction false} ForbiddenIsFirst(s: string)
    requires ForbiddenIn(s).Some?
    ensures FirstForbidden(s, ForbiddenIn(s).value)
  {
    if !Forbidden(s[0]) {
      ForbiddenIsFirst(s[1..]);
      FirstBehind([s[0]], s[1..], ForbiddenIn(s[1..]).value);
      assert s == [s[0]] + s[1..];
    } else {
      assert s[..0] == "";
    }
  }

  lemma FirstBehind(a: string, b: string, c: char)
    requires CleanText(a) && FirstForbidden(b, c)
    ensures FirstForbidden(a + b, c)
  {
    var k :| 0 <= k < |b| && b[k] == c && Forbidden(c) && CleanText(b[..k]);
    assert (a + b)[|a| + k] == c && (a + b)[..|a| + k] == a + b[..k];
  }

  lemma FirstBefore(a: string, b: string, c: char)
    requires FirstForbidden(a, c)
    ensures FirstForbidden(a + b, c)
  {
    var k :| 0 <= k < |a| && a[k] == c && Forbidden(c) && CleanText(a[..k]);
    assert (a + b)[k] == c && (a + b)[..k] == a[..k];
  }

  lemma FaultIsTagFault(t: Tag)
    requires TagFault(t).Some?
    ensures Faulty(t, TagFault(t).value)
  {
    if t.key != "" {
      if ForbiddenIn(t.key).Some? {
        ForbiddenIsFirst(t.key);
        FirstBefore(t.key, t.value, ForbiddenIn(t.key).value);
      } else {
        ForbiddenInFinds(t.key);
        ForbiddenIsFirst(t.value);
        FirstBehind(t.key, t.value, ForbiddenIn(t.value).value);
      }
    }
  }

  /** The first tag that is not clean has the fault. */
  ghost predicate FaultFirst(tags: seq<Tag>, fault: ScopeError) {
    exists k | 0 <= k < |tags| :: Faulty(tags[k], fault) && forall j | 0 <= j < k :: CleanTag(tags[j])
  }

  lemma {:induction false} FirstFaultIsFirst(tags: seq<Tag>)
    requires FirstFault(tags).Some?
    ensures FaultFirst(tags, FirstFault(tags).value)
  {
    var more := tags[1..];
    if TagFault(tags[0]).Some? {
      FaultIsTagFault(tags[0]);
    } else {
      FirstFaultIsFirst(more);
      ForbiddenInFinds(tags[0].key);
      ForbiddenInFinds(tags[0].value);
      FaultBehind(tags, FirstFault(more).value);
    }
  }

  lemma FaultBehind(tags: seq<Tag>, fault: ScopeError)
    requires tags != [] && CleanTag(tags[0]) && FaultFirst(tags[1..], fault)
    ensures FaultFirst(tags, fault)
  {
    var more := tags[1..];
    var k :| 0 <= k < |more| && Faulty(more[k], fault) && forall j | 0 <= j < k :: CleanTag(more[j]);
    assert Faulty(tags[k + 1], fault);
    forall j | 0 <= j < k + 1 ensures CleanTag(tags[j]) { if j > 0 { assert tags[j] == more[j - 1]; } }
  }

  /** A refused set of tags is refused for being empty, or for its first tag that is not clean
      and what is wrong with that. */
  lemma RefusedForFirstFault(tags: seq<Tag>)
    requires MintResult(tags).Err?
    ensures if tags == [] then MintResult(tags).error == Empty else FaultFirst(tags, MintResult(tags).error)
  {
    if tags != [] { FirstFaultIsFirst(tags); }
  }

  /** A scope is minted exactly from a non-empty set of clean tags; one bad tag refuses
      the whole set rather than being dropped. */
  method Mint(tags: seq<Tag>) returns (r: Result<seq<Tag>, ScopeError>)
    requires Sorted(tags)
    ensures r.Ok? <==> tags != [] && forall t | t in tags :: CleanTag(t)
    ensures r.Ok? ==> r.value == tags && Minted(r.value)
    ensures r == MintResult(tags)
  {
    FirstFaultFinds(tags);
    if tags == [] {
      return Err(Empty);
    }
    for i := 0 to |tags|
      invariant FirstFault(tags) == FirstFault(tags[i..])
    {
      var k, v := tags[i].key, tags[i].value;
      assert tags[i..][0] == tags[i] && tags[i..][1..] == tags[i + 1..];
      if k == "" {
        return Err(EmptyKey);
      }
      var found := ForbiddenIn(k);
      if found.Some? {
        return Err(ForbiddenCharacter(k, found.value));
      }
      found := ForbiddenIn(v);
      if found.Some? {
        return Err(ForbiddenCharacter(k, found.value));
      }
    }
    r := Ok(tags);
  }

  function MintResult(tags: seq<Tag>): Result<seq<Tag>, ScopeError> {
    if tags == [] then Err(Empty)
    else
      match FirstFault(tags)
      case Some(e) => Err(e)
      case None => Ok(tags)
  }

  /** A tag is refused exactly for an empty key, a separator or a control character. */
  lemma TagIsMintedExactly(t: Tag)
    ensures MintResult([t]).Ok? <==>
            && t.key != ""
            && forall c | c in t.key + t.value ::
                 c !in "=;" && 32 <= c as int && !(127 <= c as int < 160)
  {
    FirstFaultFinds([t]);
    assert [t][0] in [t];
    assert forall c :: c in t.key + t.value <==> c in t.key || c in t.value;
  }

  // ── The canonical key ─────────────────────────────────────────────────────

  function KeyText(tags: seq<Tag>): string {
    if tags == [] then "" else tags[0].key + "=" + tags[0].value + ";" + KeyText(tags[1..])
  }

  method Key(tags: seq<Tag>) returns (out: string)
    ensures out == KeyText(tags)
  {
    out := "";
    for i := 0 to |tags|
      invariant out + KeyText(tags[i..]) == KeyText(tags)
    {
      var piece := tags[i].key + "=" + tags[i].value + ";";
      assert tags[i..][0] == tags[i] && tags[i..][1..] == tags[i + 1..];
      assert out + (piece + KeyText(tags[i + 1..])) == (out + piece) + KeyText(tags[i + 1..]);
      out := out + piece;
    }
  }

  /** Reads tags back from a key. */
  function Parse(s: string): seq<Tag>
    decreases |s|
  {
    match CutOnce(s, "=")
    case None => []
    case Some(k) =>
      match CutOnce(k.after, ";")
      case None => []
      case Some(v) => [Tag(k.before, v.before)] + Parse(v.after)
  }

  /** The parser inverts the key on every clean set of tags. */
  lemma {:induction false} ParseInvertsKey(tags: seq<Tag>)
    requires forall t | t in tags :: CleanTag(t)
    ensures Parse(KeyText(tags)) == tags
  {
    if tags != [] {
      var t, more := tags[0], KeyText(tags[1..]);
      assert t in tags && forall u | u in tags[1..] :: u in tags;
      ParseInvertsKey(tags[1..]);
      FourPieces(t.key, t.value, more);
      ParseTag(t, more);
      assert tags == [t] + tags[1..];
    }
  }

  lemma ParseTag(t: Tag, more: string)
    requires CleanTag(t)
    ensures Parse(t.key + (['='] + (t.value + ([';'] + more)))) == [t] + Parse(more)
  {
    CutAtSymbol(t.key, '=', t.value + ([';'] + more));
    CutAtSymbol(t.value, ';', more);
  }

  lemma FourPieces(a: string, b: string, c: string)
    ensures a + "=" + b + ";" + c == a + (['='] + (b + ([';'] + c)))
  {
  }

  /** Distinct minted scopes have distinct keys. */
  lemma KeyIsInjective(a: seq<Tag>, b: seq<Tag>)
    requires Minted(a) && Minted(b) && KeyText(a) == KeyText(b)
    ensures a == b
  {
    ParseInvertsKey(a);
    ParseInvertsKey(b);
  }

  /** Without the check at minting, one tag can forge the key of any two. */
  lemma UncheckedTagsCollide(t: Tag, u: Tag)
    ensures var forged := Tag(t.key, t.value + ";" + u.key + "=" + u.value);
            KeyText([t, u]) == KeyText([forged]) && MintResult([forged]).Err?
  {
    var v := t.value + ";" + u.key + "=" + u.value;
    var forged := Tag(t.key, v);
    assert [t, u][1..] == [u] && [u][1..] == [] && [forged][1..] == [];
    SixPieces(t.key, t.value, u.key, u.value);
    FirstFaultFinds([forged]);
    assert [forged][0] in [forged] && v[|t.value|] == ';' && v[|t.value|] in v;
  }

  lemma SixPieces(a: string, b: string, c: string, d: string)
    ensures a + "=" + b + ";" + (c + "=" + d + ";" + "") == a + "=" + (b + ";" + c + "=" + d) + ";" + ""
  {
  }

  // ── The sender's scope ────────────────────────────────────────────────────

  predicate Reserved(key: string) {
    key == "user" || key == "channel"
  }

  /** Operator tags are added one by one, except the reserved ones. */
  function AddOperatorTags(tags: seq<Tag>, extra: seq<Tag>): seq<Tag>
    decreases |extra|
  {
    if extra == [] then tags
    else AddOperatorTags(if Reserved(extra[0].key) then tags else Insert(tags, extra[0].key, extra[0].value), extra[1..])
  }

  function IdentityTags(user: string, channel: string): seq<Tag> {
    Insert(Insert([], "user", user), "channel", channel)
  }

  function SenderTags(user: string, channel: string, extra: seq<Tag>): seq<Tag> {
    AddOperatorTags(IdentityTags(user, channel), extra)
  }

  lemma {:induction false} OperatorTagsKeepIdentity(tags: seq<Tag>, extra: seq<Tag>, key: string)
    requires Sorted(tags) && Reserved(key)
    ensures Sorted(AddOperatorTags(tags, extra))
    ensures Lookup(AddOperatorTags(tags, extra), key) == Lookup(tags, key)
    decreases |extra|
  {
    if extra != [] {
      var t := extra[0];
      if !Reserved(t.key) {
        InsertKeepsOrder(tags, t.key, t.value);
        InsertThenLookup(tags, t.key, t.value, key);
      }
      OperatorTagsKeepIdentity(if Reserved(t.key) then tags else Insert(tags, t.key, t.value), extra[1..], key);
    }
  }

  lemma SenderTagsHoldIdentity(user: string, channel: string, extra: seq<Tag>)
    ensures var tags := SenderTags(user, channel, extra);
            Sorted(tags) && Lookup(tags, "user") == Some(user) && Lookup(tags, "channel") == Some(channel)
  {
    var one := Insert([], "user", user);
    assert one == [Tag("user", user)] && one[1..] == [];
    InsertKeepsOrder(one, "channel", channel);
    InsertThenLookup(one, "channel", channel, "user");
    InsertThenLookup(one, "channel", channel, "channel");
    OperatorTagsKeepIdentity(IdentityTags(user, channel), extra, "user");
    OperatorTagsKeepIdentity(IdentityTags(user, channel), extra, "channel");
  }

  /** What the operator's tags say of a key: of several, the last. */
  function LastValue(extra: seq<Tag>, key: string): Option<string> {
    if extra == [] then None
    else if extra[|extra| - 1].key == key then Some(extra[|extra| - 1].value)
    else LastValue(extra[..|extra| - 1], key)
  }

  lemma {:induction false} LastValueOf(extra: seq<Tag>, key: string)
    requires extra != []
    ensures LastValue(extra, key)
            == if LastValue(extra[1..], key).Some? then LastValue(extra[1..], key)
               else if extra[0].key == key then Some(extra[0].value) else None
  {
    if |extra| > 1 {
      var front := extra[..|extra| - 1];
      LastValueOf(front, key);
      assert extra[1..][..|extra| - 2] == front[1..];
    }
  }

  lemma {:induction false} AddedTags(tags: seq<Tag>, extra: seq<Tag>, key: string)
    requires Sorted(tags) && !Reserved(key)
    ensures Lookup(AddOperatorTags(tags, extra), key)
            == if LastValue(extra, key).Some? then LastValue(extra, key) else Lookup(tags, key)
    decreases |extra|
  {
    if extra != [] {
      var t := extra[0];
      LastValueOf(extra, key);
      if !Reserved(t.key) {
        InsertKeepsOrder(tags, t.key, t.value);
        InsertThenLookup(tags, t.key, t.value, key);
      }
      AddedTags(if Reserved(t.key) then tags else Insert(tags, t.key, t.value), extra[1..], key);
    }
  }

  /** Every tag of the operator but a reserved one is in the sender's scope, and beside them
      and the sender nothing else is. */
  lemma OperatorTagsAreKept(user: string, channel: string, extra: seq<Tag>, key: string)
    requires !Reserved(key)
    ensures Lookup(SenderTags(user, channel, extra), key) == LastValue(extra, key)
  {
    var one := Insert([], "user", user);
    assert one == [Tag("user", user)] && one[1..] == [];
    InsertKeepsOrder(one, "channel", channel);
    InsertThenLookup(one, "channel", channel, key);
    AddedTags(IdentityTags(user, channel), extra, key);
  }

  /** A sender with clean names gets a scope when the operator adds no tags. */
  lemma CleanSenderIsMinted(user: string, channel: string)
    requires CleanText(user) && CleanText(channel)
    ensures MintResult(SenderTags(user, channel, [])).Ok?
  {
    var tags := IdentityTags(user, channel);
    var one := Insert([], "user", user);
    assert one == [Tag("user", user)];
    assert Less("channel", "user");
    assert tags == [Tag("channel", channel), Tag("user", user)];
    assert CleanTag(tags[0]) && CleanTag(tags[1]);
    FirstFaultFinds(tags);
  }

  method MintScope(user: string, channel: string, extra: seq<Tag>) returns (r: Result<seq<Tag>, ScopeError>)
    ensures r == MintResult(SenderTags(user, channel, extra))
    ensures r.Ok? ==> Minted(r.value) && Lookup(r.value, "user") == Some(user)
                      && Lookup(r.value, "channel") == Some(channel)
  {
    var tags := Insert(Insert([], "user", user), "channel", channel);
    for i := 0 to |extra|
      invariant AddOperatorTags(tags, extra[i..]) == SenderTags(user, channel, extra)
    {
      assert extra[i..][0] == extra[i] && extra[i..][1..] == extra[i + 1..];
      if Reserved(extra[i].key) {
        continue;
      }
      tags := Insert(tags, extra[i].key, extra[i].value);
    }
    SenderTagsHoldIdentity(user, channel, extra);
    r := Mint(tags);
  }

  /** Equal keys come from the same sender on the same channel, whatever tags the
      operator added to either side. */
  lemma EqualKeysMeanSameSender(u: string, c: string, e: seq<Tag>, v: string, d: string, f: seq<Tag>)
    requires MintResult(SenderTags(u, c, e)).Ok? && MintResult(SenderTags(v, d, f)).Ok?
    requires KeyText(SenderTags(u, c, e)) == KeyText(SenderTags(v, d, f))
    ensures u == v && c == d && SenderTags(u, c, e) == SenderTags(v, d, f)
  {
    SenderTagsHoldIdentity(u, c, e);
    SenderTagsHoldIdentity(v, d, f);
    FirstFaultFinds(SenderTags(u, c, e));
    FirstFaultFinds(SenderTags(v, d, f));
    KeyIsInjective(SenderTags(u, c, e), SenderTags(v, d, f));
  }

  // ── Narrowing ─────────────────────────────────────────────────────────────

  /** Every tag of `a` is in `b` with the same value. */
  predicate NarrowsTo(a: seq<Tag>, b: seq<Tag>) {
    forall t | t in a :: Lookup(b, t.key) == Some(t.value)
  }

  lemma {:induction false} SortedLookup(tags: seq<Tag>, t: Tag)
    requires Sorted(tags)
    ensures Lookup(tags, t.key) == Some(t.value) <==> t in tags
  {
    if tags != [] {
      SortedLookup(tags[1..], t);
      assert t in tags <==> t == tags[0] || t in tags[1..];
      if tags[0].key == t.key { AbsentBelow(tags[1..], t.key); }
    }
  }

  lemma {:induction false} SameTagsSameOrder(a: seq<Tag>, b: seq<Tag>)
    requires Sorted(a) && Sorted(b)
    requires forall t :: t in a <==> t in b
    ensures a == b
  {
    if a != [] { assert a[0] in a; }
    if b != [] { assert b[0] in b; }
    if a != [] && b != [] {
      FrontIsLeast(a, b[0]);
      FrontIsLeast(b, a[0]);
      LessIsTotal(a[0].key, b[0].key);
      forall t ensures t in a[1..] <==> t in b[1..] {
        FrontIsOnce(a, t);
        FrontIsOnce(b, t);
      }
      SameTagsSameOrder(a[1..], b[1..]);
      assert a == [a[0]] + a[1..] && b == [b[0]] + b[1..];
    }
  }

  lemma {:induction false} FrontIsLeast(tags: seq<Tag>, t: Tag)
    requires Sorted(tags) && t in tags
    ensures t == tags[0] || Less(tags[0].key, t.key)
  {
    if t != tags[0] {
      assert t in tags[1..];
      FrontIsLeast(tags[1..], t);
      if t != tags[1] { LessIsTransitive(tags[0].key, tags[1].key, t.key); }
    }
  }

  lemma FrontIsOnce(tags: seq<Tag>, t: Tag)
    requires Sorted(tags) && tags != []
    ensures t in tags[1..] <==> t in tags && t != tags[0]
  {
    if t in tags[1..] {
      FrontIsLeast(tags[1..], t);
      if t != tags[1] { LessIsTransitive(tags[0].key, tags[1].key, t.key); }
      LessIsTotal(tags[0].key, t.key);
    }
  }

  /** Two minted scopes narrow to each other exactly when their keys agree: narrowing is
      a partial order and the key names its elements. */
  lemma NarrowingBothWaysIsEqualKeys(a: seq<Tag>, b: seq<Tag>)
    requires Minted(a) && Minted(b)
    ensures NarrowsTo(a, b) && NarrowsTo(b, a) <==> KeyText(a) == KeyText(b)
  {
    if KeyText(a) == KeyText(b) { KeyIsInjective(a, b); }
    NarrowingIsInclusion(a, b);
    NarrowingIsInclusion(b, a);
    if NarrowsTo(a, b) && NarrowsTo(b, a) { SameTagsSameOrder(a, b); }
  }

  lemma NarrowingIsInclusion(a: seq<Tag>, b: seq<Tag>)
    requires Sorted(b)
    ensures NarrowsTo(a, b) <==> forall t | t in a :: t in b
  {
    forall t | t in a ensures Lookup(b, t.key) == Some(t.value) <==> t in b {
      SortedLookup(b, t);
    }
  }
}
