/** Why a fenced code block survives formatting: every rewrite acts on a token as on a
    single symbol, no rewrite can build something that reads as a token, and restoring
    the tokens one number at a time puts each block back exactly where its token was. */
module CodeBlocks {
  import opened Prelude
  import opened Text
  import opened Formatter

  const WORD := "CODEBLOCK"

  /** Text that cannot be confused with a token: no NUL and no token word. */
  predicate Plain(text: string) {
    '\0' !in text && !Contains(text, WORD)
  }

  /** No NUL outside tokens, and no token directly followed by the token word. */
  predicate Clean(items: seq<Item>) {
    items != [] ==>
      && Clean(items[1..])
      && match items[0]
         case Ch(c) => c != '\0'
         case Tok(_) => !StartsWith(items[1..], Chars(WORD))
  }

  ghost predicate GoodBlocks(blocks: seq<string>) {
    forall b | b in blocks :: b != "" && b[0] == '`' && '\0' !in b
  }

  /** A delimiter with no character a token or a fence starts with. */
  predicate Delimiter(d: string) {
    d != "" && forall c | c in d :: c != '\0' && c != '`'
  }

  /** A delimiter that shares no character with any token. */
  predicate Foreign(d: string) {
    Delimiter(d) && forall c | c in d :: c !in WORD && !IsDigit(c)
  }

  // ── Tokens ────────────────────────────────────────────────────────────────

  lemma TokenShape(n: nat)
    ensures |Token(n)| == |Decimal(n)| + 11
    ensures Token(n)[0] == '\0' && Token(n)[|Token(n)| - 1] == '\0'
    ensures Token(n)[1..10] == WORD
    ensures forall k | 1 <= k < |Token(n)| - 1 ::
              Token(n)[k] != '\0' && (Token(n)[k] in WORD || IsDigit(Token(n)[k]))
  {
    var t := Token(n);
    forall k | 1 <= k < |t| - 1 ensures t[k] != '\0' && (t[k] in WORD || IsDigit(t[k])) {
      if k < 10 { assert t[k] == WORD[k - 1] && WORD[k - 1] != '\0'; }
      if k >= 10 { assert t[k] == Decimal(n)[k - 10] && t[k] in Decimal(n); }
    }
  }

  lemma SameFirstNul(s: string, m: nat, n: nat)
    requires 1 <= m < |s| && 1 <= n < |s| && s[m] == s[n] == '\0'
    requires forall k | 1 <= k < m :: s[k] != '\0'
    requires forall k | 1 <= k < n :: s[k] != '\0'
    ensures m == n
  {
  }

  /** A token is not a prefix of anything that starts with a different token. */
  lemma TokensAreDistinct(i: nat, j: nat, rest: string)
    ensures StartsWith(Token(j) + rest, Token(i)) ==> i == j
  {
    if StartsWith(Token(j) + rest, Token(i)) {
      TokenShape(i);
      TokenShape(j);
      var s, m, n := Token(j) + rest, |Token(i)| - 1, |Token(j)| - 1;
      assert s[..m + 1] == Token(i);
      assert s[..n + 1] == Token(j);
      assert forall k | 0 <= k <= m :: s[k] == Token(i)[k];
      SameFirstNul(s, m, n);
      assert Token(i) == Token(j);
      assert Decimal(i) == Token(i)[10..m] == Decimal(j);
      DecimalRoundTrip(i);
      DecimalRoundTrip(j);
    }
  }

  /** Past its first character, a token starts with the token word. */
  lemma TokenNeedsWord(i: nat, s: string)
    ensures StartsWith(['\0'] + s, Token(i)) ==> StartsWith(s, WORD)
  {
    if StartsWith(['\0'] + s, Token(i)) {
      TokenShape(i);
      var t := Token(i);
      assert t == (['\0'] + s)[..|t|];
      assert t[1..] == s[..|t| - 1];
      assert t[1..10] == t[1..][..9];
      assert s[..|t| - 1][..9] == s[..9];
    }
  }

  // ── Searching rendered items ──────────────────────────────────────────────

  lemma RenderHead(items: seq<Item>, blocks: seq<string>, i: nat)
    requires i <= |blocks| && GoodBlocks(blocks) && items != []
    ensures var s := Render(items, blocks, i);
            s != "" && s[0] == match items[0]
                               case Ch(c) => c
                               case Tok(n) => if n < i then '`' else '\0'
  {
    if items[0].Tok? && items[0].n < i { assert blocks[items[0].n] in blocks; }
  }

  /** A delimiter starts the rendering exactly when it starts the items. */
  lemma {:induction false} PrefixAligned(items: seq<Item>, blocks: seq<string>, i: nat, d: string)
    requires i <= |blocks| && GoodBlocks(blocks)
    requires forall c | c in d :: c != '\0' && c != '`'
    ensures StartsWith(Render(items, blocks, i), d) <==> StartsWith(items, Chars(d))
  {
    if d != "" && items != [] {
      var s := Render(items, blocks, i);
      if items[0] == Ch(d[0]) {
        assert forall c | c in d[1..] :: c in d;
        PrefixAligned(items[1..], blocks, i, d[1..]);
        assert s[1..] == Render(items[1..], blocks, i);
        assert Chars(d)[1..] == Chars(d[1..]);
        PeelPrefix(s, d);
        PeelPrefix(items, Chars(d));
      } else {
        assert d[0] in d;
        RenderHead(items, blocks, i);
        PrefixHead(s, d);
        PrefixHead(items, Chars(d));
      }
    }
  }

  lemma PeelPrefix<T>(s: seq<T>, p: seq<T>)
    requires s != [] && p != [] && s[0] == p[0]
    ensures StartsWith(s, p) <==> StartsWith(s[1..], p[1..])
  {
    if StartsWith(s, p) { assert s[1..][..|p| - 1] == s[..|p|][1..] == p[1..]; }
    if StartsWith(s[1..], p[1..]) { assert s[..|p|] == [s[0]] + s[1..][..|p| - 1]; assert p == [p[0]] + p[1..]; }
  }

  /** Searching before or after rendering finds the same place. */
  ghost predicate SameCut(items: seq<Item>, d: string) {
    match CutOnce(items, Chars(d))
    case None => CutOnce(Flatten(items), d) == None
    case Some(c) => CutOnce(Flatten(items), d) == Some(Cut(Flatten(c.before), Flatten(c.after)))
  }

  lemma FlattenCons(it: Item, rest: seq<Item>)
    ensures Flatten([it] + rest) == Flatten([it]) + Flatten(rest)
    ensures Flatten([it]) == if it.Ch? then [it.c] else Token(it.n)
  {
    RenderAppend([it], rest, [], 0);
    assert [it][1..] == [];
  }

  lemma {:induction false} CutAligned(items: seq<Item>, d: string)
    requires Foreign(d)
    ensures SameCut(items, d)
  {
    PrefixAligned(items, [], 0, d);
    if StartsWith(items, Chars(d)) {
      CutHere(items, d);
    } else if items == [] {
      assert CutOnce(items, Chars(d)) == None;
    } else {
      var it, rest := items[0], items[1..];
      assert items == [it] + rest;
      CutAligned(rest, d);
      CutLater(it, rest, d);
    }
  }

  lemma CutHere(items: seq<Item>, d: string)
    requires Foreign(d) && StartsWith(items, Chars(d)) && StartsWith(Flatten(items), d)
    ensures SameCut(items, d)
  {
    assert items == Chars(d) + items[|d|..];
    RenderAppend(Chars(d), items[|d|..], [], 0);
    RenderChars(d, [], 0);
  }

  lemma CutLater(it: Item, rest: seq<Item>, d: string)
    requires Foreign(d) && SameCut(rest, d)
    requires !StartsWith([it] + rest, Chars(d)) && !StartsWith(Flatten([it] + rest), d)
    ensures SameCut([it] + rest, d)
  {
    CutStep(it, rest, Chars(d));
    FlattenCons(it, rest);
    GlyphIsSkipped(it, Flatten(rest), d);
    if CutOnce(rest, Chars(d)).Some? { FlattenCons(it, CutOnce(rest, Chars(d)).value.before); }
    SameCutBehind(it, rest, d);
  }

  lemma GlyphIsSkipped(it: Item, s: string, d: string)
    requires Foreign(d) && !StartsWith(Flatten([it]) + s, d)
    ensures CutOnce(Flatten([it]) + s, d) == Behind(Flatten([it]), CutOnce(s, d))
  {
    FlattenCons(it, []);
    match it {
      case Ch(c) => CutStep(c, s, d);
      case Tok(n) =>
        TokenShape(n);
        assert d[0] in d && d[0] !in Token(n);
        CutRun(Token(n), s, d);
    }
  }

  lemma SameCutBehind(it: Item, rest: seq<Item>, d: string)
    requires SameCut(rest, d)
    requires CutOnce([it] + rest, Chars(d)) == Behind([it], CutOnce(rest, Chars(d)))
    requires CutOnce(Flatten([it] + rest), d) == Behind(Flatten([it]), CutOnce(Flatten(rest), d))
    requires var c := CutOnce(rest, Chars(d));
             c.Some? ==> Flatten([it] + c.value.before) == Flatten([it]) + Flatten(c.value.before)
    ensures SameCut([it] + rest, d)
  {
  }

  // ── The rewrites act on rendered text as they do on items ─────────────────

  lemma FlattenWrapped(a: seq<Item>, m: string, b: seq<Item>, rest: seq<Item>)
    ensures Flatten(a + Chars(m) + b + Chars(m) + rest)
            == Flatten(a) + m + Flatten(b) + m + Flatten(rest)
  {
    RenderAppend(a + Chars(m) + b + Chars(m), rest, [], 0);
    RenderAppend(a + Chars(m) + b, Chars(m), [], 0);
    RenderAppend(a + Chars(m), b, [], 0);
    RenderAppend(a, Chars(m), [], 0);
    RenderChars(m, [], 0);
  }

  lemma {:induction false} BoldCommutes(items: seq<Item>, d: string, m: string)
    requires Foreign(d)
    ensures Flatten(Bold(items, Chars(d), Chars(m))) == Bold(Flatten(items), d, m)
    decreases |items|
  {
    CutAligned(items, d);
    if CutOnce(items, Chars(d)).Some? {
      var c := CutOnce(items, Chars(d)).value;
      CutAligned(c.after, d);
      if CutOnce(c.after, Chars(d)).Some? {
        var e := CutOnce(c.after, Chars(d)).value;
        BoldCommutes(e.after, d, m);
        FlattenWrapped(c.before, m, e.before, Bold(e.after, Chars(d), Chars(m)));
      }
    }
  }

  const MARKDOWN_ITEMS := Brackets(Ch('['), Ch(']'), Ch('('), Ch(')'))

  function SlackLinkItems(text: seq<Item>, url: seq<Item>): seq<Item> {
    [Ch('<')] + url + [Ch('|')] + text + [Ch('>')]
  }

  lemma SlackLinkCommutes(text: seq<Item>, url: seq<Item>)
    ensures Flatten(SlackLinkItems(text, url)) == SlackLink(Flatten(text), Flatten(url))
  {
    RenderAppend([Ch('<')] + url + [Ch('|')] + text, [Ch('>')], [], 0);
    RenderAppend([Ch('<')] + url + [Ch('|')], text, [], 0);
    RenderAppend([Ch('<')] + url, [Ch('|')], [], 0);
    RenderAppend([Ch('<')], url, [], 0);
    FlattenCons(Ch('<'), []);
    FlattenCons(Ch('|'), []);
    FlattenCons(Ch('>'), []);
  }

  lemma FlattenTail(items: seq<Item>)
    requires items != [] && items[0].Ch?
    ensures Flatten(items) != "" && Flatten(items)[1..] == Flatten(items[1..])
  {
    assert items == [items[0]] + items[1..];
    FlattenCons(items[0], items[1..]);
  }

  /** The address part of a link, found in items as in their rendering. */
  lemma AddressCommutes(tail: seq<Item>)
    requires StartsWith(tail, [Ch('(')]) && StartsWith(Flatten(tail), "(")
    ensures match CutOnce(tail, [Ch(')')])
            case None => CutOnce(Flatten(tail), ")") == None
            case Some(c) =>
              && c.before != []
              && CutOnce(Flatten(tail), ")") == Some(Cut(Flatten(c.before), Flatten(c.after)))
              && Flatten(c.before) != "" && Flatten(c.before)[1..] == Flatten(c.before[1..])
  {
    assert Chars(")") == [Ch(')')];
    CutAligned(tail, ")");
    if CutOnce(tail, Chars(")")).Some? {
      var c := CutOnce(tail, Chars(")")).value;
      assert tail[0] == Ch('(') && c.before[0] == tail[0];
      FlattenTail(c.before);
    }
  }

  lemma LinkAfterCommutes(items: seq<Item>)
    ensures match LinkAfter(items, MARKDOWN_ITEMS)
            case None => LinkAfter(Flatten(items), MARKDOWN) == None
            case Some(l) => LinkAfter(Flatten(items), MARKDOWN)
                            == Some(Link(Flatten(l.text), Flatten(l.url), Flatten(l.rest)))
  {
    assert Chars("]") == [Ch(']')] && Chars("(") == [Ch('(')];
    CutAligned(items, "]");
    if CutOnce(items, Chars("]")).Some? {
      var tail := CutOnce(items, Chars("]")).value.after;
      PrefixAligned(tail, [], 0, "(");
      if StartsWith(tail, Chars("(")) { AddressCommutes(tail); }
    }
  }

  lemma {:induction false} LinksCommute(items: seq<Item>)
    ensures Flatten(Links(items, MARKDOWN_ITEMS, SlackLinkItems))
            == Links(Flatten(items), MARKDOWN, SlackLink)
    decreases |items|
  {
    assert Chars("[") == [Ch('[')];
    CutAligned(items, "[");
    if CutOnce(items, Chars("[")).Some? {
      var c := CutOnce(items, Chars("[")).value;
      LinkAfterCommutes(c.after);
      match LinkAfter(c.after, MARKDOWN_ITEMS)
      case None =>
        LinksCommute(c.after);
        var more := Links(c.after, MARKDOWN_ITEMS, SlackLinkItems);
        RenderAppend(c.before + [Ch('[')], more, [], 0);
        RenderAppend(c.before, [Ch('[')], [], 0);
        FlattenCons(Ch('['), []);
      case Some(l) =>
        LinksCommute(l.rest);
        var more := Links(l.rest, MARKDOWN_ITEMS, SlackLinkItems);
        RenderAppend(c.before + SlackLinkItems(l.text, l.url), more, [], 0);
        RenderAppend(c.before, SlackLinkItems(l.text, l.url), [], 0);
        SlackLinkCommutes(l.text, l.url);
    }
  }

  lemma {:induction false} EscapeAppend<T>(x: seq<T>, y: seq<T>, specials: seq<T>, mark: T)
    ensures Escape(x + y, specials, mark) == Escape(x, specials, mark) + Escape(y, specials, mark)
  {
    if x == [] {
      assert x + y == y;
    } else {
      EscapeAppend(x[1..], y, specials, mark);
      assert (x + y)[1..] == x[1..] + y;
      Regroup((if x[0] in specials then [mark] else []) + [x[0]],
              Escape(x[1..], specials, mark), Escape(y, specials, mark));
    }
  }

  lemma {:induction false} EscapeInert<T>(x: seq<T>, specials: seq<T>, mark: T)
    requires forall t | t in x :: t !in specials
    ensures Escape(x, specials, mark) == x
  {
    if x != [] { EscapeInert(x[1..], specials, mark); }
  }

  lemma {:induction false} EscapeCommutes(items: seq<Item>, specials: string, mark: char)
    requires forall c | c in specials :: c != '\0' && c !in WORD && !IsDigit(c)
    ensures Flatten(Escape(items, Chars(specials), Ch(mark))) == Escape(Flatten(items), specials, mark)
  {
    if items != [] {
      var it, rest := items[0], items[1..];
      assert items == [it] + rest;
      EscapeCommutes(rest, specials, mark);
      EscapeAppend([it], rest, Chars(specials), Ch(mark));
      EscapeAppend(Flatten([it]), Flatten(rest), specials, mark);
      FlattenCons(it, rest);
      RenderAppend(Escape([it], Chars(specials), Ch(mark)), Escape(rest, Chars(specials), Ch(mark)), [], 0);
      EscapeOne(it, specials, mark);
    }
  }

  lemma EscapeOne(it: Item, specials: string, mark: char)
    requires forall c | c in specials :: c != '\0' && c !in WORD && !IsDigit(c)
    ensures Flatten(Escape([it], Chars(specials), Ch(mark))) == Escape(Flatten([it]), specials, mark)
  {
    FlattenCons(it, []);
    FlattenCons(Ch(mark), [it]);
    assert [it][1..] == [];
    match it
    case Ch(c) =>
      assert it in Chars(specials) <==> c in specials by { InChars(c, specials); }
      assert [c][1..] == "";
      if c in specials { assert [Ch(mark)] + [it] + [] == [Ch(mark)] + [it]; }
    case Tok(n) =>
      TokenShape(n);
      EscapeInert(Token(n), specials, mark);
  }

  lemma InChars(c: char, s: string)
    ensures Ch(c) in Chars(s) <==> c in s
  {
    if c in s {
      var k :| 0 <= k < |s| && s[k] == c;
      assert Chars(s)[k] == Ch(c);
    }
  }

  // ── The rewrites keep items clean ─────────────────────────────────────────

  predicate Separator(c: char) {
    c != '\0' && c !in WORD
  }

  lemma {:induction false} CleanTake(items: seq<Item>, k: nat)
    requires Clean(items) && k <= |items|
    ensures Clean(items[..k])
  {
    if k > 0 {
      CleanTake(items[1..], k - 1);
      assert items[..k][1..] == items[1..][..k - 1];
      if StartsWith(items[1..][..k - 1], Chars(WORD)) {
        assert items[1..][..|WORD|] == items[1..][..k - 1][..|WORD|];
      }
    }
  }

  lemma {:induction false} CleanDrop(items: seq<Item>, k: nat)
    requires Clean(items) && k <= |items|
    ensures Clean(items[k..])
  {
    if k > 0 {
      CleanDrop(items[1..], k - 1);
      assert items[k..] == items[1..][k - 1..];
    }
  }

  /** Joining clean pieces around a character no token holds. */
  lemma {:induction false} CleanJoin(x: seq<Item>, c: char, y: seq<Item>)
    requires Clean(x) && Clean(y) && Separator(c)
    ensures Clean(x + [Ch(c)] + y)
  {
    if x == [] {
      assert (x + [Ch(c)] + y)[1..] == y;
    } else {
      CleanJoin(x[1..], c, y);
      var tail := x[1..] + [Ch(c)] + y;
      assert (x + [Ch(c)] + y)[1..] == tail;
      WordStopsAt(x[1..], Ch(c), y);
    }
  }

  lemma WordStopsAt(x: seq<Item>, stop: Item, y: seq<Item>)
    requires stop.Ch? ==> Separator(stop.c)
    ensures StartsWith(x + [stop] + y, Chars(WORD)) ==> StartsWith(x, Chars(WORD))
  {
    var s := x + [stop] + y;
    if |x| < |WORD| {
      assert WORD[|x|] in WORD && s[|x|] == stop;
      PrefixElement(s, Chars(WORD), |x|);
    } else {
      assert x[..|WORD|] == s[..|WORD|];
    }
  }

  lemma PrefixElement<T>(s: seq<T>, p: seq<T>, k: nat)
    requires k < |s| && k < |p|
    ensures StartsWith(s, p) ==> s[k] == p[k]
  {
    if StartsWith(s, p) { assert s[..|p|][k] == s[k]; }
  }

  lemma CleanCut(items: seq<Item>, p: seq<Item>)
    requires Clean(items) && CutOnce(items, p).Some?
    ensures var c := CutOnce(items, p).value; Clean(c.before) && Clean(c.after)
  {
    CleanTake(items, Find(items, p).value);
    CleanDrop(items, Find(items, p).value + |p|);
  }

  lemma CleanWrapped(a: seq<Item>, m: char, b: seq<Item>, rest: seq<Item>)
    requires Clean(a) && Clean(b) && Clean(rest) && Separator(m)
    ensures Clean(a + [Ch(m)] + b + [Ch(m)] + rest)
  {
    CleanJoin(b, m, rest);
    CleanJoin(a, m, b + [Ch(m)] + rest);
    assert a + [Ch(m)] + (b + [Ch(m)] + rest) == a + [Ch(m)] + b + [Ch(m)] + rest;
  }

  lemma {:induction false} BoldClean(items: seq<Item>, d: seq<Item>, m: char)
    requires Clean(items) && d != [] && Separator(m)
    ensures Clean(Bold(items, d, [Ch(m)]))
    decreases |items|
  {
    if CutOnce(items, d).Some? {
      CleanCut(items, d);
      var c := CutOnce(items, d).value;
      if CutOnce(c.after, d).Some? {
        CleanCut(c.after, d);
        var e := CutOnce(c.after, d).value;
        BoldClean(e.after, d, m);
        var more := Bold(e.after, d, [Ch(m)]);
        CleanWrapped(c.before, m, e.before, more);
      }
    }
  }

  lemma SlackLinkClean(before: seq<Item>, text: seq<Item>, url: seq<Item>, rest: seq<Item>)
    requires Clean(before) && Clean(text) && Clean(url) && Clean(rest)
    ensures Clean(before + SlackLinkItems(text, url) + rest)
  {
    CleanJoin(text, '>', rest);
    var t := text + [Ch('>')] + rest;
    CleanJoin(url, '|', t);
    var u := url + [Ch('|')] + t;
    CleanJoin(before, '<', u);
    var open := [Ch('<')] + url + [Ch('|')];
    Regroup(open, text, [Ch('>')]);
    Regroup(open, text + [Ch('>')], rest);
    Regroup([Ch('<')] + url, [Ch('|')], t);
    Regroup([Ch('<')], url, [Ch('|')] + t);
    Regroup(url, [Ch('|')], t);
    Regroup(before, SlackLinkItems(text, url), rest);
    Regroup(before, [Ch('<')], u);
  }

  lemma LinkAfterClean(items: seq<Item>)
    requires Clean(items)
    ensures var l := LinkAfter(items, MARKDOWN_ITEMS);
            l.Some? ==> Clean(l.value.text) && Clean(l.value.url) && Clean(l.value.rest)
  {
    if CutOnce(items, [Ch(']')]).Some? {
      CleanCut(items, [Ch(']')]);
      var tail := CutOnce(items, [Ch(']')]).value.after;
      if StartsWith(tail, [Ch('(')]) && CutOnce(tail, [Ch(')')]).Some? {
        CleanCut(tail, [Ch(')')]);
        assert tail[0] == Ch('(');
        CleanDrop(CutOnce(tail, [Ch(')')]).value.before, 1);
      }
    }
  }

  lemma {:induction false} LinksClean(items: seq<Item>)
    requires Clean(items)
    ensures Clean(Links(items, MARKDOWN_ITEMS, SlackLinkItems))
    decreases |items|
  {
    if CutOnce(items, [Ch('[')]).Some? {
      CleanCut(items, [Ch('[')]);
      var c := CutOnce(items, [Ch('[')]).value;
      LinkAfterClean(c.after);
      match LinkAfter(c.after, MARKDOWN_ITEMS)
      case None =>
        LinksClean(c.after);
        CleanJoin(c.before, '[', Links(c.after, MARKDOWN_ITEMS, SlackLinkItems));
      case Some(l) =>
        LinksClean(l.rest);
        SlackLinkClean(c.before, l.text, l.url, Links(l.rest, MARKDOWN_ITEMS, SlackLinkItems));
    }
  }

  lemma {:induction false} EscapeClean(items: seq<Item>)
    requires Clean(items)
    ensures Clean(Escape(items, Chars(SPECIALS), Ch('\\')))
  {
    if items != [] {
      var it, rest := items[0], items[1..];
      EscapeClean(rest);
      var more := Escape(rest, Chars(SPECIALS), Ch('\\'));
      EscapeKeepsWord(rest, WORD);
      CleanDrop([it] + more, 0);
    }
  }

  /** Escaping cannot make a run of ordinary characters appear. */
  lemma {:induction false} EscapeKeepsWord(items: seq<Item>, w: string)
    requires forall c | c in w :: c != '\\' && c !in SPECIALS
    ensures StartsWith(Escape(items, Chars(SPECIALS), Ch('\\')), Chars(w)) ==> StartsWith(items, Chars(w))
  {
    if w != "" && items != [] {
      var it, rest := items[0], items[1..];
      var e := Escape(items, Chars(SPECIALS), Ch('\\'));
      assert w[0] in w && Chars(w)[0] == Ch(w[0]);
      InChars(w[0], SPECIALS);
      PrefixHead(e, Chars(w));
      if it == Ch(w[0]) {
        assert forall c | c in w[1..] :: c in w;
        EscapeKeepsWord(rest, w[1..]);
        assert Chars(w)[1..] == Chars(w[1..]);
        assert e == [it] + Escape(rest, Chars(SPECIALS), Ch('\\'));
        PeelPrefix(e, Chars(w));
        PeelPrefix(items, Chars(w));
      }
    }
  }
}
