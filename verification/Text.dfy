/** Text primitives the gateway takes from the standard library: substring search,
    replacement, white space and decimal rendering. Sequences are generic so that the
    same search runs over characters and over opaque items. */
module Text {
  import opened Prelude

  /** The code points with Unicode's White_Space property. */
  predicate IsWhitespaceCode(u: int) {
    || 0x9 <= u <= 0xD || u == 0x20 || u == 0x85 || u == 0xA0 || u == 0x1680
    || 0x2000 <= u <= 0x200A || u == 0x2028 || u == 0x2029 || u == 0x202F
    || u == 0x205F || u == 0x3000
  }

  predicate IsWhitespace(c: char) {
    IsWhitespaceCode(c as int)
  }

  predicate IsDigit(c: char) {
    '0' <= c <= '9'
  }

  predicate IsAlpha(c: char) {
    'a' <= c <= 'z' || 'A' <= c <= 'Z'
  }

  predicate IsAlphanumeric(c: char) {
    IsAlpha(c) || IsDigit(c)
  }

  /** `p` occurs in `s` at offset `k`. */
  predicate At<T(==)>(s: seq<T>, p: seq<T>, k: nat) {
    k + |p| <= |s| && s[k..k + |p|] == p
  }

  /** Offset of the first occurrence of `p`. */
  function Find<T(==)>(s: seq<T>, p: seq<T>): (r: Option<nat>)
    ensures r.Some? ==> At(s, p, r.value)
  {
    if |s| < |p| then None
    else if s[..|p|] == p then Some(0)
    else if s == [] then None
    else
      match Find(s[1..], p)
      case None => None
      case Some(k) =>
        assert s[1..][k..k + |p|] == s[1 + k..1 + k + |p|];
        Some(1 + k)
  }

  /** Offset of the first occurrence of `p` at or after `from`. */
  function FindFrom<T(==)>(s: seq<T>, p: seq<T>, from: nat): (r: Option<nat>)
    requires from <= |s|
    ensures r.Some? ==> from <= r.value && r.value + |p| <= |s|
  {
    match Find(s[from..], p)
    case None => None
    case Some(k) => Some(from + k)
  }

  /** The search misses nothing: no occurrence before the one reported, and none at
      all when it reports none. */
  lemma {:induction false} FindIsFirst<T>(s: seq<T>, p: seq<T>, k: nat)
    requires At(s, p, k)
    ensures Find(s, p).Some? && Find(s, p).value <= k
  {
    if s[..|p|] != p {
      assert k > 0;
      assert s[1..][k - 1..k - 1 + |p|] == s[k..k + |p|];
      FindIsFirst(s[1..], p, k - 1);
    }
  }

  /** The same for a search that starts further on. */
  lemma FindFromIsFirst<T>(s: seq<T>, p: seq<T>, from: nat)
    requires from <= |s|
    ensures var r := FindFrom(s, p, from);
            && (r.Some? ==> At(s, p, r.value))
            && forall k | from <= k && (r.Some? ==> k < r.value) :: !At(s, p, k)
  {
    var r := FindFrom(s, p, from);
    forall k | from <= k && (r.Some? ==> k < r.value) ensures !At(s, p, k) {
      if At(s, p, k) {
        assert s[from..][k - from..k - from + |p|] == s[k..k + |p|];
        FindIsFirst(s[from..], p, k - from);
      }
    }
  }

  lemma AtLetter(s: string, p: string, at: nat, k: nat)
    requires At(s, p, at) && k < |p|
    ensures s[at + k] == p[k]
  {
    assert s[at..at + |p|][k] == s[at + k];
  }

  lemma NotAtOtherLetter(s: string, p: string, at: nat, k: nat)
    requires k < |p| && at + k < |s| && s[at + k] != p[k]
    ensures !At(s, p, at)
  {
    if At(s, p, at) { AtLetter(s, p, at, k); }
  }

  /** No later part of the word, read to its end, is how the word begins. */
  predicate NoEcho(t: string) {
    forall k | 0 < k < |t| :: t[k] != t[0] || (k + 1 < |t| && t[k + 1] != t[1])
  }

  lemma OverlapEchoes(s: string, t: string, a: nat, k: nat)
    requires At(s, t, a) && At(s, t, a + k) && 0 < k < |t|
    ensures t[k] == t[0] && (k + 1 < |t| ==> t[k + 1] == t[1])
  {
    var b := a + k;
    assert s[b] == s[b..b + |t|][0] && s[b] == s[a..a + |t|][k];
    if k + 1 < |t| { assert s[b + 1] == s[b..b + |t|][1] && s[b + 1] == s[a..a + |t|][k + 1]; }
  }

  /** So two occurrences of such a word never overlap. */
  lemma NoOverlap(s: string, t: string, a: nat, b: nat)
    requires NoEcho(t) && At(s, t, a) && At(s, t, b) && a < b
    ensures a + |t| <= b
  {
    if b < a + |t| { OverlapEchoes(s, t, a, b - a); }
  }

  lemma Regroup<T>(a: seq<T>, b: seq<T>, c: seq<T>)
    ensures a + (b + c) == (a + b) + c
  {
  }

  /** What lies on either side of the first occurrence of a pattern. */
  datatype Cut<T> = Cut(before: seq<T>, after: seq<T>)

  function CutOnce<T(==)>(s: seq<T>, p: seq<T>): (r: Option<Cut<T>>)
    ensures r.Some? ==> |r.value.before| + |p| + |r.value.after| == |s|
    ensures r.Some? ==> s == r.value.before + p + r.value.after
  {
    match Find(s, p)
    case None => None
    case Some(k) => Some(Cut(s[..k], s[k + |p|..]))
  }

  /** Replace every occurrence, scanning left to right without overlap. */
  function Replace<T(==)>(s: seq<T>, p: seq<T>, subst: seq<T>): seq<T>
    requires p != []
    decreases |s|
  {
    match CutOnce(s, p)
    case None => s
    case Some(c) => c.before + subst + Replace(c.after, p, subst)
  }

  predicate Contains<T(==)>(s: seq<T>, p: seq<T>) {
    Find(s, p).Some?
  }

  predicate StartsWith<T(==)>(s: seq<T>, p: seq<T>) {
    |p| <= |s| && s[..|p|] == p
  }

  // ── Cutting past a run that cannot hold the pattern ───────────────────────

  lemma PrefixHead<T>(s: seq<T>, p: seq<T>)
    requires s != [] && p != []
    ensures StartsWith(s, p) ==> s[0] == p[0]
  {
    if StartsWith(s, p) { assert s[..|p|][0] == s[0]; }
  }

  ghost function Behind<T>(run: seq<T>, c: Option<Cut<T>>): Option<Cut<T>> {
    match c
    case None => None
    case Some(cut) => Some(Cut(run + cut.before, cut.after))
  }

  lemma CutStep<T>(x: T, s: seq<T>, p: seq<T>)
    requires p != [] && !StartsWith([x] + s, p)
    ensures CutOnce([x] + s, p) == Behind([x], CutOnce(s, p))
  {
    assert ([x] + s)[1..] == s;
    if Find(s, p).Some? {
      var k := Find(s, p).value;
      assert Find([x] + s, p) == Some(1 + k);
      assert ([x] + s)[..1 + k] == [x] + s[..k];
      assert ([x] + s)[1 + k + |p|..] == s[k + |p|..];
    }
  }

  /** The search skips a run that does not hold the first symbol of the pattern. */
  lemma {:induction false} CutRun<T>(run: seq<T>, s: seq<T>, p: seq<T>)
    requires p != [] && p[0] !in run
    ensures CutOnce(run + s, p) == Behind(run, CutOnce(s, p))
  {
    if run == [] {
      assert run + s == s;
      BehindNothing(CutOnce(s, p));
    } else {
      CutRun(run[1..], s, p);
      CutRunCons(run[0], run[1..], s, p);
      assert run == [run[0]] + run[1..];
    }
  }

  lemma CutRunCons<T>(x: T, run: seq<T>, s: seq<T>, p: seq<T>)
    requires p != [] && p[0] != x
    requires CutOnce(run + s, p) == Behind(run, CutOnce(s, p))
    ensures CutOnce([x] + run + s, p) == Behind([x] + run, CutOnce(s, p))
  {
    var tail := run + s;
    Regroup([x], run, s);
    assert ([x] + tail)[0] == x;
    PrefixHead([x] + tail, p);
    CutStep(x, tail, p);
    BehindTwice([x], run, CutOnce(s, p));
  }

  lemma BehindNothing<T>(c: Option<Cut<T>>)
    ensures Behind([], c) == c
  {
    if c.Some? { assert [] + c.value.before == c.value.before; }
  }

  lemma BehindTwice<T>(a: seq<T>, b: seq<T>, c: Option<Cut<T>>)
    ensures Behind(a, Behind(b, c)) == Behind(a + b, c)
  {
    if c.Some? { assert a + (b + c.value.before) == (a + b) + c.value.before; }
  }

  /** The cut falls at the first occurrence of a single symbol. */
  lemma CutAtSymbol<T>(a: seq<T>, x: T, b: seq<T>)
    requires x !in a
    ensures CutOnce(a + ([x] + b), [x]) == Some(Cut(a, b))
  {
    var s := [x] + b;
    assert s[..1] == [x] && s[1..] == b;
    assert CutOnce(s, [x]) == Some(Cut([], b));
    CutRun(a, s, [x]);
    assert a + [] == a;
  }

  /** Nor is there a cut without that first symbol. */
  lemma {:induction false} NoSymbolNoCut<T>(s: seq<T>, p: seq<T>)
    requires p != [] && p[0] !in s
    ensures CutOnce(s, p) == None
  {
    if s != [] {
      PrefixHead(s, p);
      NoSymbolNoCut(s[1..], p);
    }
  }

  /** Lower case, exact wherever the result is an ASCII letter: the capital letters and
      the Kelvin sign, whose lower case is `k`. */
  function LowerChar(c: char): char {
    if 'A' <= c <= 'Z' then (c as int + 32) as char
    else if c == '\U{212A}' then 'k'
    else c
  }

  function Lower(s: string): (r: string)
    ensures |r| == |s| && forall k | 0 <= k < |s| :: r[k] == LowerChar(s[k])
  {
    if s == "" then "" else [LowerChar(s[0])] + Lower(s[1..])
  }

  function TrimStart(s: string): string {
    if s != [] && IsWhitespace(s[0]) then TrimStart(s[1..]) else s
  }

  function TrimEnd(s: string): string {
    if s != [] && IsWhitespace(s[|s| - 1]) then TrimEnd(s[..|s| - 1]) else s
  }

  function Trim(s: string): string {
    TrimEnd(TrimStart(s))
  }

  // ── Decimal rendering ─────────────────────────────────────────────────────

  function Digit(n: nat): (c: char)
    requires n < 10
    ensures IsDigit(c)
  {
    ('0' as int + n) as char
  }

  function DigitValue(c: char): nat
    requires IsDigit(c)
  {
    c as int - '0' as int
  }

  function Decimal(n: nat): (s: string)
    ensures s != [] && forall c | c in s :: IsDigit(c)
  {
    if n < 10 then [Digit(n)] else Decimal(n / 10) + [Digit(n % 10)]
  }

  function DecimalValue(s: string): nat
    requires forall c | c in s :: IsDigit(c)
  {
    if s == [] then 0 else 10 * DecimalValue(s[..|s| - 1]) + DigitValue(s[|s| - 1])
  }

  /** Reading a rendered number back gives the number, so renderings are distinct. */
  lemma {:induction false} DecimalRoundTrip(n: nat)
    ensures DecimalValue(Decimal(n)) == n
  {
    if n >= 10 {
      DecimalRoundTrip(n / 10);
      assert Decimal(n)[..|Decimal(n)| - 1] == Decimal(n / 10);
    }
  }
}
