/** Main results about formatting: blocks come out byte for byte, each exactly once. */
module BlockPreservation {
  import opened Prelude
  import opened Text
  import opened Formatter
  import opened CodeBlocks

  // ── Which blocks an item sequence mentions ────────────────────────────────

  function Toks(items: seq<Item>): seq<nat> {
    if items == [] then []
    else (if items[0].Tok? then [items[0].n] else []) + Toks(items[1..])
  }

  lemma {:induction false} ToksAppend(x: seq<Item>, y: seq<Item>)
    ensures Toks(x + y) == Toks(x) + Toks(y)
  {
    if x == [] {
      assert x + y == y;
    } else {
      ToksAppend(x[1..], y);
      assert (x + y)[1..] == x[1..] + y;
      Regroup(if x[0].Tok? then [x[0].n] else [], Toks(x[1..]), Toks(y));
    }
  }

  lemma {:induction false} ToksChars(s: string)
    ensures Toks(Chars(s)) == []
  {
    if s != "" {
      ToksChars(s[1..]);
      assert Chars(s)[1..] == Chars(s[1..]);
    }
  }

  lemma ToksSkipChar(x: seq<Item>, c: char, y: seq<Item>)
    ensures Toks(x + [Ch(c)] + y) == Toks(x) + Toks(y)
    ensures Toks([Ch(c)] + y) == Toks(y)
    ensures Toks(x + [Ch(c)]) == Toks(x)
  {
    ToksAppend(x + [Ch(c)], y);
    ToksAppend(x, [Ch(c)]);
    ToksAppend([Ch(c)], y);
    ToksChars([c]);
    assert Chars([c]) == [Ch(c)];
  }

  lemma ToksWrapped(a: seq<Item>, m: string, b: seq<Item>, rest: seq<Item>)
    ensures Toks(a + Chars(m) + b + Chars(m) + rest) == Toks(a) + Toks(b) + Toks(rest)
  {
    ToksChars(m);
    ToksAppend(a, Chars(m));
    assert Toks(a) + [] == Toks(a);
    ToksAppend(a + Chars(m), b);
    ToksAppend(a + Chars(m) + b, Chars(m));
    assert Toks(a) + Toks(b) + [] == Toks(a) + Toks(b);
    ToksAppend(a + Chars(m) + b + Chars(m), rest);
  }

  lemma ToksCut(items: seq<Item>, d: string)
    requires CutOnce(items, Chars(d)).Some?
    ensures var c := CutOnce(items, Chars(d)).value; Toks(items) == Toks(c.before) + Toks(c.after)
  {
    var c := CutOnce(items, Chars(d)).value;
    ToksAppend(c.before + Chars(d), c.after);
    ToksAppend(c.before, Chars(d));
    ToksChars(d);
  }

  lemma {:induction false} BoldToks(items: seq<Item>, d: string, m: string)
    requires d != ""
    ensures Toks(Bold(items, Chars(d), Chars(m))) == Toks(items)
    decreases |items|
  {
    if CutOnce(items, Chars(d)).Some? {
      ToksCut(items, d);
      var c := CutOnce(items, Chars(d)).value;
      if CutOnce(c.after, Chars(d)).Some? {
        ToksCut(c.after, d);
        var e := CutOnce(c.after, Chars(d)).value;
        BoldToks(e.after, d, m);
        ToksWrapped(c.before, m, e.before, Bold(e.after, Chars(d), Chars(m)));
        Regroup(Toks(c.before), Toks(e.before), Toks(e.after));
      }
    }
  }

  lemma {:induction false} EscapeToks(items: seq<Item>, specials: seq<Item>, mark: char)
    ensures Toks(Escape(items, specials, Ch(mark))) == Toks(items)
  {
    if items != [] {
      var it, rest := items[0], items[1..];
      EscapeToks(rest, specials, mark);
      var more := Escape(rest, specials, Ch(mark));
      ToksAppend([it], more);
      ToksAppend([Ch(mark)] + [it], more);
      ToksAppend([Ch(mark)], [it]);
      ToksChars([mark]);
      assert Chars([mark]) == [Ch(mark)];
      assert [] + [it] == [it] && items == [it] + rest;
      ToksAppend([it], rest);
    }
  }

  lemma SlackLinkToks(text: seq<Item>, url: seq<Item>)
    ensures Toks(SlackLinkItems(text, url)) == Toks(url) + Toks(text)
  {
    ToksSkipChar([Ch('<')] + url + [Ch('|')] + text, '>', []);
    ToksSkipChar([Ch('<')] + url, '|', text);
    ToksSkipChar([], '<', url);
  }

  lemma LinkAfterToks(items: seq<Item>)
    ensures var l := LinkAfter(items, MARKDOWN_ITEMS);
            l.Some? ==> Toks(items) == Toks(l.value.text) + Toks(l.value.url) + Toks(l.value.rest)
  {
    if CutOnce(items, [Ch(']')]).Some? {
      var c := CutOnce(items, [Ch(']')]).value;
      ToksSkipChar(c.before, ']', c.after);
      if StartsWith(c.after, [Ch('(')]) && CutOnce(c.after, [Ch(')')]).Some? {
        var u := CutOnce(c.after, [Ch(')')]).value;
        ToksSkipChar(u.before, ')', u.after);
        assert c.after[0] == Ch('(') && u.before[0] == c.after[0];
        assert u.before == [Ch('(')] + u.before[1..];
        ToksSkipChar([], '(', u.before[1..]);
        Regroup(Toks(c.before), Toks(u.before[1..]), Toks(u.after));
      }
    }
  }

  lemma SameBag<T>(a: seq<T>, t: seq<T>, u: seq<T>, r: seq<T>, r': seq<T>)
    requires multiset(r) == multiset(r')
    ensures multiset(a + (u + t) + r') == multiset(a + (t + u + r))
  {
  }

  /** A link swaps its text and its target, so blocks may be reordered, never lost. */
  lemma {:induction false} LinksToks(items: seq<Item>)
    ensures multiset(Toks(Links(items, MARKDOWN_ITEMS, SlackLinkItems))) == multiset(Toks(items))
    decreases |items|
  {
    if CutOnce(items, [Ch('[')]).Some? {
      var c := CutOnce(items, [Ch('[')]).value;
      ToksSkipChar(c.before, '[', c.after);
      LinkAfterToks(c.after);
      match LinkAfter(c.after, MARKDOWN_ITEMS)
      case None =>
        LinksToks(c.after);
        var more := Links(c.after, MARKDOWN_ITEMS, SlackLinkItems);
        ToksSkipChar(c.before, '[', more);
        SameBag(Toks(c.before), [], [], Toks(c.after), Toks(more));
      case Some(l) =>
        LinksToks(l.rest);
        var more := Links(l.rest, MARKDOWN_ITEMS, SlackLinkItems);
        ToksAppend(c.before + SlackLinkItems(l.text, l.url), more);
        ToksAppend(c.before, SlackLinkItems(l.text, l.url));
        SlackLinkToks(l.text, l.url);
        SameBag(Toks(c.before), Toks(l.text), Toks(l.url), Toks(l.rest), Toks(more));
    }
  }

  // ── The split text ────────────────────────────────────────────────────────

  lemma PartIsContained(a: string, b: string, p: string)
    ensures Contains(a, p) || Contains(b, p) ==> Contains(a + b, p)
  {
    if Contains(a, p) {
      var k := Find(a, p).value;
      assert (a + b)[k..k + |p|] == a[k..k + |p|];
      FindIsFirst(a + b, p, k);
    } else if Contains(b, p) {
      var k := Find(b, p).value;
      assert (a + b)[|a| + k..|a| + k + |p|] == b[k..k + |p|];
      FindIsFirst(a + b, p, |a| + k);
    }
  }

  lemma PlainPieces(a: string, b: string)
    requires Plain(a + b)
    ensures Plain(a) && Plain(b)
  {
    assert forall k | 0 <= k < |a| :: a[k] == (a + b)[k];
    assert forall k | 0 <= k < |b| :: b[k] == (a + b)[|a| + k];
    PartIsContained(a, b, WORD);
  }

  lemma PlainCut(text: string)
    requires Plain(text) && CutOnce(text, FENCE).Some?
    ensures var c := CutOnce(text, FENCE).value; Plain(c.before) && Plain(c.after)
  {
    var c := CutOnce(text, FENCE).value;
    PlainPieces(c.before + FENCE, c.after);
    PlainPieces(c.before, FENCE);
  }

  lemma {:induction false} CleanAfterChars(s: string, items: seq<Item>)
    requires '\0' !in s && Clean(items)
    ensures Clean(Chars(s) + items)
  {
    if s == "" {
      assert Chars(s) + items == items;
    } else {
      CleanAfterChars(s[1..], items);
      assert (Chars(s) + items)[1..] == Chars(s[1..]) + items;
    }
  }

  lemma ItemsWord(text: string, n: nat)
    ensures StartsWith(Items(text, n), Chars(WORD)) ==> StartsWith(text, WORD)
  {
    PrefixAligned(Chars(text), [], 0, WORD);
    RenderChars(text, [], 0);
    if CutOnce(text, FENCE).Some? {
      var c := CutOnce(text, FENCE).value;
      if CutOnce(c.after, FENCE).Some? {
        var e := CutOnce(c.after, FENCE).value;
        WordStopsAt(Chars(c.before), Tok(n), Items(e.after, n + 1));
        PrefixAligned(Chars(c.before), [], 0, WORD);
        RenderChars(c.before, [], 0);
        if StartsWith(c.before, WORD) { assert text[..|WORD|] == c.before[..|WORD|]; }
      }
    }
  }

  lemma PlainStart(text: string)
    requires Plain(text)
    ensures !StartsWith(text, WORD)
  {
    if At(text, WORD, 0) { FindIsFirst(text, WORD, 0); }
  }

  lemma {:induction false} SplitIsClean(text: string, n: nat)
    requires Plain(text)
    ensures Clean(Items(text, n))
    decreases |text|
  {
    CleanAfterChars(text, []);
    assert Chars(text) + [] == Chars(text);
    if CutOnce(text, FENCE).Some? {
      PlainCut(text);
      var c := CutOnce(text, FENCE).value;
      if CutOnce(c.after, FENCE).Some? {
        PlainCut(c.after);
        var e := CutOnce(c.after, FENCE).value;
        SplitIsClean(e.after, n + 1);
        var more := Items(e.after, n + 1);
        ItemsWord(e.after, n + 1);
        PlainStart(e.after);
        assert ([Tok(n)] + more)[1..] == more;
        CleanAfterChars(c.before, [Tok(n)] + more);
        Regroup(Chars(c.before), [Tok(n)], more);
      }
    }
  }

  lemma NulFreeCut(text: string)
    requires '\0' !in text && CutOnce(text, FENCE).Some?
    ensures var c := CutOnce(text, FENCE).value; '\0' !in c.before && '\0' !in c.after
  {
    var c := CutOnce(text, FENCE).value;
    assert forall x | x in c.before || x in c.after :: x in c.before + FENCE + c.after;
  }

  lemma {:induction false} BlocksAreGood(text: string)
    requires '\0' !in text
    ensures GoodBlocks(Blocks(text))
    decreases |text|
  {
    if CutOnce(text, FENCE).Some? {
      NulFreeCut(text);
      var c := CutOnce(text, FENCE).value;
      if CutOnce(c.after, FENCE).Some? {
        NulFreeCut(c.after);
        BlocksAreGood(CutOnce(c.after, FENCE).value.after);
      }
    }
  }

  lemma {:induction false} ItemsHaveNoNul(text: string, n: nat)
    requires '\0' !in text
    ensures NoNul(Items(text, n))
    decreases |text|
  {
    if CutOnce(text, FENCE).Some? {
      NulFreeCut(text);
      var c := CutOnce(text, FENCE).value;
      if CutOnce(c.after, FENCE).Some? {
        var e := CutOnce(c.after, FENCE).value;
        NulFreeCut(c.after);
        ItemsHaveNoNul(e.after, n + 1);
        NoNulAround(c.before, n, Items(e.after, n + 1));
      }
    }
  }

  lemma NoNulAround(before: string, n: nat, more: seq<Item>)
    requires '\0' !in before && NoNul(more)
    ensures NoNul(Chars(before) + [Tok(n)] + more)
  {
  }

  lemma ToksOfBlock(before: string, n: nat, rest: seq<Item>)
    ensures Toks(Chars(before) + [Tok(n)] + rest) == [n] + Toks(rest)
  {
    ToksAppend(Chars(before) + [Tok(n)], rest);
    ToksAppend(Chars(before), [Tok(n)]);
    ToksChars(before);
    assert [Tok(n)][1..] == [];
  }

  /** Consecutive numbers from `n` on. */
  predicate Numbered(toks: seq<nat>, n: nat) {
    forall k | 0 <= k < |toks| :: toks[k] == n + k
  }

  lemma NumberedCons(n: nat, toks: seq<nat>)
    requires Numbered(toks, n + 1)
    ensures Numbered([n] + toks, n)
  {
    forall k | 0 <= k < |[n] + toks| ensures ([n] + toks)[k] == n + k {
      if k > 0 { assert ([n] + toks)[k] == toks[k - 1]; }
    }
  }

  /** Blocks are numbered from left to right without a gap. */
  lemma {:induction false} SplitToks(text: string, n: nat)
    ensures |Toks(Items(text, n))| == |Blocks(text)|
    ensures Numbered(Toks(Items(text, n)), n)
    decreases |text|
  {
    ToksChars(text);
    if CutOnce(text, FENCE).Some? {
      var c := CutOnce(text, FENCE).value;
      if CutOnce(c.after, FENCE).Some? {
        var e := CutOnce(c.after, FENCE).value;
        SplitToks(e.after, n + 1);
        OneBlockMore(text, n, c.before, e);
      }
    }
  }

  lemma OneBlockMore(text: string, n: nat, before: string, e: Cut<char>)
    requires CutOnce(text, FENCE).Some? && CutOnce(text, FENCE).value.before == before
    requires CutOnce(CutOnce(text, FENCE).value.after, FENCE) == Some(e)
    requires |Toks(Items(e.after, n + 1))| == |Blocks(e.after)| && Numbered(Toks(Items(e.after, n + 1)), n + 1)
    ensures |Toks(Items(text, n))| == |Blocks(text)| && Numbered(Toks(Items(text, n)), n)
  {
    var more := Items(e.after, n + 1);
    ToksOfBlock(before, n, more);
    NumberedCons(n, Toks(more));
    assert Items(text, n) == Chars(before) + [Tok(n)] + more;
    assert |Blocks(text)| == 1 + |Blocks(e.after)|;
  }

  // ── Restoring ─────────────────────────────────────────────────────────────

  lemma ReplaceHere(p: string, s: string, subst: string)
    requires p != ""
    ensures Replace(p + s, p, subst) == subst + Replace(s, p, subst)
  {
    assert (p + s)[..|p|] == p && (p + s)[|p|..] == s;
    assert CutOnce(p + s, p) == Some(Cut("", s));
    assert "" + subst == subst;
  }

  lemma ReplaceRun(run: string, s: string, p: string, subst: string)
    requires p != "" && CutOnce(run + s, p) == Behind(run, CutOnce(s, p))
    ensures Replace(run + s, p, subst) == run + Replace(s, p, subst)
  {
    if CutOnce(s, p).Some? {
      var c := CutOnce(s, p).value;
      Regroup(run, c.before, subst);
      Regroup(run, c.before + subst, Replace(c.after, p, subst));
    }
  }

  lemma TokenTail(inner: string, s: string, i: nat)
    requires '\0' !in inner && !StartsWith(['\0'] + s, Token(i))
    ensures CutOnce(inner + (['\0'] + s), Token(i)) == Behind(inner, Behind(['\0'], CutOnce(s, Token(i))))
  {
    TokenShape(i);
    CutStep('\0', s, Token(i));
    CutRun(inner, ['\0'] + s, Token(i));
  }

  /** The end of a token does not begin another one, unless what follows makes it. */
  lemma TokenEnd(n: nat, i: nat, s: string)
    requires n != i && !StartsWith(['\0'] + s, Token(i))
    ensures CutOnce(Token(n) + s, Token(i)) == Behind(Token(n), CutOnce(s, Token(i)))
  {
    TokenShape(n);
    var inner := Token(n)[1..|Token(n)| - 1];
    TokenParts(Token(n), inner, s);
    TokensAreDistinct(i, n, s);
    TokenTail(inner, s, i);
    TokenHead(inner, s, Token(i));
  }

  lemma TokenParts(t: string, inner: string, s: string)
    requires |t| >= 2 && t[0] == t[|t| - 1] == '\0' && inner == t[1..|t| - 1]
    ensures t == ['\0'] + (inner + ['\0'])
    ensures t + s == ['\0'] + (inner + (['\0'] + s))
  {
  }

  lemma TokenHead(inner: string, s: string, p: string)
    requires p != "" && !StartsWith(['\0'] + (inner + (['\0'] + s)), p)
    requires CutOnce(inner + (['\0'] + s), p) == Behind(inner, Behind(['\0'], CutOnce(s, p)))
    ensures CutOnce(['\0'] + (inner + (['\0'] + s)), p) == Behind(['\0'] + (inner + ['\0']), CutOnce(s, p))
  {
    CutStep('\0', inner + (['\0'] + s), p);
    BehindTwice(inner, ['\0'], CutOnce(s, p));
    BehindTwice(['\0'], inner + ['\0'], CutOnce(s, p));
  }

  /** A token without its NULs. */
  function Name(i: nat): (s: string)
    ensures s != "" && '\0' !in s && '`' !in s
    ensures Token(i) == ['\0'] + (s + ['\0'])
  {
    var s := WORD + Decimal(i);
    assert Token(i) == ['\0'] + (s + ['\0']);
    s
  }

  predicate NoNul(items: seq<Item>) {
    forall it | it in items :: it.Ch? ==> it.c != '\0'
  }

  /** A later token, the name of token `i`, and a token not yet restored: from the end of the
      one to the start of the other this reads as token `i`. */
  predicate MisreadHere(items: seq<Item>, i: nat) {
    && items != [] && items[0].Tok? && items[0].n > i && NamedNext(items[1..], i)
  }

  predicate NamedNext(items: seq<Item>, i: nat) {
    && StartsWith(items, Chars(Name(i))) && |items| > |Name(i)|
    && items[|Name(i)|].Tok? && items[|Name(i)|].n >= i
  }

  predicate Misreads(items: seq<Item>, i: nat) {
    items != [] && (MisreadHere(items, i) || Misreads(items[1..], i))
  }

  lemma {:induction false} CleanReadsWell(items: seq<Item>, i: nat)
    requires Clean(items)
    ensures NoNul(items) && !Misreads(items, i)
  {
    if items != [] {
      CleanReadsWell(items[1..], i);
      assert items == [items[0]] + items[1..];
      if StartsWith(items[1..], Chars(Name(i))) {
        assert Name(i)[..|WORD|] == WORD && Chars(Name(i))[..|WORD|] == Chars(WORD);
        assert items[1..][..|WORD|] == items[1..][..|Name(i)|][..|WORD|];
      }
    }
  }

  /** After the end of a token, the rendering reads as token `i` exactly when the items spell
      its name up to a token still to be restored. */
  lemma NameAligned(items: seq<Item>, blocks: seq<string>, i: nat)
    requires i < |blocks| && GoodBlocks(blocks) && NoNul(items)
    ensures StartsWith(['\0'] + Render(items, blocks, i), Token(i)) <==> NamedNext(items, i)
  {
    var name, s := Name(i), Render(items, blocks, i);
    PrefixAligned(items, blocks, i, name);
    TokenSpelled(s, name, Token(i));
    if StartsWith(items, Chars(name)) { NulAfterName(items, blocks, i, name); }
  }

  lemma NulAfterName(items: seq<Item>, blocks: seq<string>, i: nat, name: string)
    requires i <= |blocks| && GoodBlocks(blocks) && NoNul(items) && StartsWith(items, Chars(name))
    ensures var s := Render(items, blocks, i);
            |s| > |name| && s[|name|] == '\0' <==> |items| > |name| && items[|name|].Tok? && items[|name|].n >= i
  {
    var tail := items[|name|..];
    assert items == Chars(name) + tail;
    RenderAppend(Chars(name), tail, blocks, i);
    RenderChars(name, blocks, i);
    if tail != [] {
      assert tail[0] == items[|name|] && tail[0] in items;
      RenderHead(tail, blocks, i);
    }
  }

  lemma TokenSpelled(s: string, name: string, token: string)
    requires token == ['\0'] + (name + ['\0'])
    ensures StartsWith(['\0'] + s, token) <==> StartsWith(s, name) && |s| > |name| && s[|name|] == '\0'
  {
    var t := ['\0'] + s;
    if StartsWith(t, token) {
      assert token[1..] == name + ['\0'] && t[..|token|][1..] == s[..|name| + 1];
      assert s[..|name|] == s[..|name| + 1][..|name|] == name && s[|name|] == s[..|name| + 1][|name|];
    }
    if StartsWith(s, name) && |s| > |name| && s[|name|] == '\0' {
      assert s[..|name| + 1] == name + ['\0'] && t[..|token|] == ['\0'] + s[..|name| + 1];
    }
  }

  // ── One replacement, symbol by symbol ─────────────────────────────────────

  /** The replacement leaves every symbol as it should, unless the end of a later token and
      what follows it read as the token replaced. */
  lemma GlyphStep(it: Item, s: string, blocks: seq<string>, i: nat)
    requires i < |blocks| && GoodBlocks(blocks) && (it.Ch? ==> it.c != '\0')
    requires !(it.Tok? && it.n > i && StartsWith(['\0'] + s, Token(i)))
    ensures Replace(Glyph(it, blocks, i) + s, Token(i), blocks[i])
            == Glyph(it, blocks, i + 1) + Replace(s, Token(i), blocks[i])
  {
    TokenShape(i);
    match it
    case Ch(c) =>
      PrefixHead([c] + s, Token(i));
      CutStep(c, s, Token(i));
      ReplaceRun([c], s, Token(i), blocks[i]);
    case Tok(n) =>
      if n == i {
        ReplaceHere(Token(i), s, blocks[i]);
      } else if n < i {
        assert blocks[n] in blocks;
        CutRun(blocks[n], s, Token(i));
        ReplaceRun(blocks[n], s, Token(i), blocks[i]);
      } else {
        TokenEnd(n, i, s);
        ReplaceRun(Token(n), s, Token(i), blocks[i]);
      }
  }

  /** One replacement turns every occurrence of one token into its block, and changes
      nothing else, when nothing else reads as that token. */
  lemma {:induction false} RestoreOne(items: seq<Item>, blocks: seq<string>, i: nat)
    requires i < |blocks| && GoodBlocks(blocks) && NoNul(items) && !Misreads(items, i)
    ensures Replace(Render(items, blocks, i), Token(i), blocks[i]) == Render(items, blocks, i + 1)
  {
    if items == [] {
      TokenShape(i);
    } else {
      var rest := items[1..];
      assert items[0] in items && forall it | it in rest :: it in items;
      RestoreOne(rest, blocks, i);
      NameAligned(rest, blocks, i);
      GlyphStep(items[0], Render(rest, blocks, i), blocks, i);
    }
  }

  // ── A misread token leaves a NUL behind ───────────────────────────────────

  /** The start of a token whose end was taken for another's start. */
  function Torn(d: string, q: string): string {
    ['\0'] + ((d + ['`']) + q)
  }

  /** Rendered items, and then a torn token. */
  ghost predicate Stuck(s: string, blocks: seq<string>, i: nat)
    requires i <= |blocks|
  {
    exists items, d, q :: NoNul(items) && '\0' !in d && s == Render(items, blocks, i) + Torn(d, q)
  }

  lemma StuckBehind(it: Item, s: string, blocks: seq<string>, i: nat)
    requires i <= |blocks| && (it.Ch? ==> it.c != '\0') && Stuck(s, blocks, i)
    ensures Stuck(Glyph(it, blocks, i) + s, blocks, i)
  {
    var items, d, q :| NoNul(items) && '\0' !in d && s == Render(items, blocks, i) + Torn(d, q);
    var more := [it] + items;
    assert more[1..] == items;
    Regroup(Glyph(it, blocks, i), Render(items, blocks, i), Torn(d, q));
    assert NoNul(more) && Glyph(it, blocks, i) + s == Render(more, blocks, i) + Torn(d, q);
  }

  /** The misreading itself tears the later token. */
  lemma MisreadTears(n: nat, s: string, blocks: seq<string>, i: nat)
    requires i < |blocks| && GoodBlocks(blocks) && n > i && StartsWith(['\0'] + s, Token(i))
    ensures Stuck(Replace(Token(n) + s, Token(i), blocks[i]), blocks, i + 1)
  {
    var name, tail := Name(n), (['\0'] + s)[|Token(i)|..];
    var more := Replace(tail, Token(i), blocks[i]);
    MisreadReplaced(n, s, tail, i, blocks[i]);
    assert blocks[i] in blocks;
    TornAt(name, blocks[i], more);
    TornIsStuck(name, blocks[i][1..] + more, blocks, i + 1);
  }

  lemma MisreadReplaced(n: nat, s: string, tail: string, i: nat, block: string)
    requires n != i && ['\0'] + s == Token(i) + tail
    ensures Token(i) != ""
    ensures Replace(Token(n) + s, Token(i), block) == (['\0'] + Name(n)) + (block + Replace(tail, Token(i), block))
  {
    var name := Name(n);
    var run := ['\0'] + name;
    TokenOpens(n, name, s);
    RunBeforeToken(name, n, i, s, Token(i) + tail);
    ReplaceRun(run, Token(i) + tail, Token(i), block);
    ReplaceHere(Token(i), tail, block);
  }

  lemma TokenOpens(n: nat, name: string, s: string)
    requires name == Name(n)
    ensures Token(n) + s == (['\0'] + name) + (['\0'] + s)
  {
    Regroup(['\0'], name, ['\0']);
    Regroup(['\0'] + name, ['\0'], s);
  }

  lemma TornIsStuck(d: string, q: string, blocks: seq<string>, i: nat)
    requires i <= |blocks| && '\0' !in d
    ensures Stuck(Torn(d, q), blocks, i)
  {
    assert NoNul([]) && Render([], blocks, i) + Torn(d, q) == Torn(d, q);
  }

  lemma RunBeforeToken(name: string, n: nat, i: nat, s: string, t: string)
    requires name == Name(n) && n != i && t == ['\0'] + s
    ensures Token(i) != "" && CutOnce((['\0'] + name) + t, Token(i)) == Behind(['\0'] + name, CutOnce(t, Token(i)))
  {
    TokenShape(i);
    assert Token(n) + s == ['\0'] + (name + t);
    TokensAreDistinct(i, n, s);
    CutStep('\0', name + t, Token(i));
    CutRun(name, t, Token(i));
    BehindTwice(['\0'], name, CutOnce(t, Token(i)));
    Regroup(['\0'], name, t);
  }

  lemma TornAt(name: string, block: string, rest: string)
    requires block != "" && block[0] == '`'
    ensures (['\0'] + name) + (block + rest) == Torn(name, block[1..] + rest)
  {
    assert block == ['`'] + block[1..];
  }

  /** What is torn stays torn: no later replacement can take that NUL but by tearing another
      token before it. */
  lemma {:induction false} StuckStays(items: seq<Item>, d: string, q: string, blocks: seq<string>, i: nat)
    requires i < |blocks| && GoodBlocks(blocks) && NoNul(items) && '\0' !in d
    ensures Stuck(Replace(Render(items, blocks, i) + Torn(d, q), Token(i), blocks[i]), blocks, i + 1)
  {
    if items == [] {
      assert Render(items, blocks, i) + Torn(d, q) == Torn(d, q);
      TornStays(d, q, blocks, i);
    } else {
      var it, rest := items[0], items[1..];
      var s := Render(rest, blocks, i) + Torn(d, q);
      assert it in items && forall x | x in rest :: x in items;
      Regroup(Glyph(it, blocks, i), Render(rest, blocks, i), Torn(d, q));
      if it.Tok? && it.n > i && StartsWith(['\0'] + s, Token(i)) {
        MisreadTears(it.n, s, blocks, i);
      } else {
        StuckStays(rest, d, q, blocks, i);
        GlyphStep(it, s, blocks, i);
        StuckBehind(it, Replace(s, Token(i), blocks[i]), blocks, i + 1);
      }
    }
  }

  lemma TornStays(d: string, q: string, blocks: seq<string>, i: nat)
    requires i < |blocks| && '\0' !in d
    ensures Stuck(Replace(Torn(d, q), Token(i), blocks[i]), blocks, i + 1)
  {
    var head := d + ['`'];
    TokenShape(i);
    TornIsNoToken(d, q, i);
    CutStep('\0', head + q, Token(i));
    CutRun(head, q, Token(i));
    BehindTwice(['\0'], head, CutOnce(q, Token(i)));
    Regroup(['\0'], head, q);
    ReplaceRun(['\0'] + head, q, Token(i), blocks[i]);
    Regroup(['\0'], head, Replace(q, Token(i), blocks[i]));
    TornIsStuck(d, Replace(q, Token(i), blocks[i]), blocks, i + 1);
  }

  lemma TornIsNoToken(d: string, q: string, i: nat)
    requires '\0' !in d
    ensures !StartsWith(Torn(d, q), Token(i))
  {
    var name, s := Name(i), (d + ['`']) + q;
    TokenSpelled(s, name, Token(i));
    if |name| < |d| {
      assert s[|name|] == d[|name|] && d[|name|] in d;
    } else if |d| < |name| {
      assert s[|d|] == '`' && name[|d|] in name;
      PrefixElement(s, name, |d|);
    }
  }

  /** A replacement that misreads something leaves it stuck. */
  lemma {:induction false} MisreadSticks(items: seq<Item>, blocks: seq<string>, i: nat)
    requires i < |blocks| && GoodBlocks(blocks) && NoNul(items) && Misreads(items, i)
    ensures Stuck(Replace(Render(items, blocks, i), Token(i), blocks[i]), blocks, i + 1)
  {
    var it, rest := items[0], items[1..];
    var s := Render(rest, blocks, i);
    assert it in items && forall x | x in rest :: x in items;
    NameAligned(rest, blocks, i);
    if MisreadHere(items, i) {
      MisreadTears(it.n, s, blocks, i);
    } else {
      MisreadSticks(rest, blocks, i);
      GlyphStep(it, s, blocks, i);
      StuckBehind(it, Replace(s, Token(i), blocks[i]), blocks, i + 1);
    }
  }

  lemma {:induction false} StuckKeepsNul(s: string, blocks: seq<string>, i: nat)
    requires i <= |blocks| && GoodBlocks(blocks) && Stuck(s, blocks, i)
    ensures '\0' in Restored(s, blocks, i)
    decreases |blocks| - i
  {
    var items, d, q :| NoNul(items) && '\0' !in d && s == Render(items, blocks, i) + Torn(d, q);
    if i == |blocks| {
      assert s[|Render(items, blocks, i)|] == '\0';
    } else {
      StuckStays(items, d, q, blocks, i);
      StuckKeepsNul(Replace(s, Token(i), blocks[i]), blocks, i + 1);
    }
  }

  lemma MisreadNow(items: seq<Item>, blocks: seq<string>, i: nat)
    requires i < |blocks| && GoodBlocks(blocks) && NoNul(items) && Misreads(items, i)
    ensures '\0' in Restored(Render(items, blocks, i), blocks, i)
  {
    MisreadSticks(items, blocks, i);
    StuckKeepsNul(Replace(Render(items, blocks, i), Token(i), blocks[i]), blocks, i + 1);
  }

  lemma RestoredNext(items: seq<Item>, blocks: seq<string>, i: nat)
    requires i < |blocks| && GoodBlocks(blocks) && NoNul(items) && !Misreads(items, i)
    ensures Restored(Render(items, blocks, i), blocks, i) == Restored(Render(items, blocks, i + 1), blocks, i + 1)
  {
    RestoreOne(items, blocks, i);
  }

  /** The first token that is misread, at or after `i`. */
  lemma {:induction false} FirstMisread(items: seq<Item>, i: nat, k: nat) returns (first: nat)
    requires i <= k && Misreads(items, k)
    ensures i <= first <= k && Misreads(items, first) && forall j | i <= j < first :: !Misreads(items, j)
    decreases k - i
  {
    if Misreads(items, i) {
      first := i;
    } else {
      first := FirstMisread(items, i + 1, k);
    }
  }

  lemma {:induction false} RestoredUpTo(items: seq<Item>, blocks: seq<string>, i: nat, k: nat)
    requires i <= k <= |blocks| && GoodBlocks(blocks) && NoNul(items)
    requires forall j | i <= j < k :: !Misreads(items, j)
    ensures Restored(Render(items, blocks, i), blocks, i) == Restored(Render(items, blocks, k), blocks, k)
    decreases k - i
  {
    if i < k {
      RestoredNext(items, blocks, i);
      RestoredUpTo(items, blocks, i + 1, k);
    }
  }

  /** If any token is misread, a NUL is left in the end. */
  lemma MisreadLeavesNul(items: seq<Item>, blocks: seq<string>, k: nat)
    requires k < |blocks| && GoodBlocks(blocks) && NoNul(items) && Misreads(items, k)
    ensures '\0' in Restored(Render(items, blocks, 0), blocks, 0)
  {
    var first := FirstMisread(items, 0, k);
    RestoredUpTo(items, blocks, 0, first);
    MisreadNow(items, blocks, first);
  }

  lemma {:induction false} RenderFresh(items: seq<Item>, blocks: seq<string>)
    ensures Render(items, blocks, 0) == Flatten(items)
  {
    if items != [] { RenderFresh(items[1..], blocks); }
  }

  /** Any rewrite that treats tokens as symbols acts on the text around the blocks only. */
  lemma ProtectedIsItemwise(text: string, f: string -> string, items: seq<Item>)
    requires '\0' !in text && NoNul(items) && forall k | 0 <= k < |Blocks(text)| :: !Misreads(items, k)
    requires f(Flatten(Items(text, 0))) == Flatten(items)
    ensures Protected(text, f) == Expand(items, Blocks(text))
  {
    BlocksAreGood(text);
    RenderFresh(items, Blocks(text));
    RestoredUpTo(items, Blocks(text), 0, |Blocks(text)|);
  }

  lemma {:induction false} ExpandSplit(text: string, n: nat, blocks: seq<string>)
    requires n <= |blocks| && blocks[n..] == Blocks(text)
    ensures Expand(Items(text, n), blocks) == text
    decreases |text|
  {
    RenderChars(text, blocks, |blocks|);
    if CutOnce(text, FENCE).Some? {
      var c := CutOnce(text, FENCE).value;
      if CutOnce(c.after, FENCE).Some? {
        var e := CutOnce(c.after, FENCE).value;
        assert blocks[n] == blocks[n..][0] == FENCE + e.before + FENCE;
        assert blocks[n + 1..] == blocks[n..][1..] == Blocks(e.after);
        ExpandSplit(e.after, n + 1, blocks);
        ExpandBlock(c.before, n, Items(e.after, n + 1), blocks);
        FencedText(c.before, e.before, e.after);
      }
    }
  }

  lemma FencedText(a: string, b: string, c: string)
    ensures a + FENCE + (b + FENCE + c) == a + (FENCE + b + FENCE) + c
  {
  }

  lemma ExpandBlock(before: string, n: nat, rest: seq<Item>, blocks: seq<string>)
    requires n < |blocks|
    ensures Expand(Chars(before) + [Tok(n)] + rest, blocks) == before + blocks[n] + Expand(rest, blocks)
  {
    RenderAppend(Chars(before) + [Tok(n)], rest, blocks, |blocks|);
    RenderAppend(Chars(before), [Tok(n)], blocks, |blocks|);
    RenderChars(before, blocks, |blocks|);
    assert [Tok(n)][1..] == [];
  }

  // ── Text as blocks between gaps ───────────────────────────────────────────

  /** The given blocks, in order, with a piece of other text before, between and after. */
  function Weave(gaps: seq<string>, blocks: seq<string>): string
    requires |gaps| == |blocks| + 1
  {
    if blocks == [] then gaps[0] else gaps[0] + blocks[0] + Weave(gaps[1..], blocks[1..])
  }

  function Pick(blocks: seq<string>, order: seq<nat>): (r: seq<string>)
    requires forall n | n in order :: n < |blocks|
    ensures |r| == |order|
    ensures forall k | 0 <= k < |order| :: order[k] in order && r[k] == blocks[order[k]]
  {
    seq(|order|, k requires 0 <= k < |order| =>
      assert order[k] in order;
      blocks[order[k]])
  }

  function Gaps(items: seq<Item>): (g: seq<string>)
    ensures |g| == |Toks(items)| + 1
  {
    if items == [] then [""]
    else
      var g := Gaps(items[1..]);
      match items[0]
      case Ch(c) => [[c] + g[0]] + g[1..]
      case Tok(_) => [""] + g
  }

  lemma {:induction false} ExpandIsWeave(items: seq<Item>, blocks: seq<string>)
    requires forall n | n in Toks(items) :: n < |blocks|
    ensures Expand(items, blocks) == Weave(Gaps(items), Pick(blocks, Toks(items)))
  {
    if items != [] {
      var rest := items[1..];
      assert forall n | n in Toks(rest) :: n in Toks(items);
      ExpandIsWeave(rest, blocks);
      match items[0]
      case Ch(c) =>
        assert Toks(items) == Toks(rest);
        WeaveChar(c, Gaps(rest), Pick(blocks, Toks(rest)));
      case Tok(n) =>
        assert Toks(items) == [n] + Toks(rest);
        PickCons(blocks, n, Toks(rest));
        WeaveBlock(blocks[n], Gaps(rest), Pick(blocks, Toks(rest)));
    }
  }

  lemma PickCons(blocks: seq<string>, n: nat, order: seq<nat>)
    requires forall k | k in [n] + order :: k < |blocks|
    ensures n in [n] + order && (forall k | k in order :: k in [n] + order)
    ensures Pick(blocks, [n] + order) == [blocks[n]] + Pick(blocks, order)
  {
    assert ([n] + order)[0] == n;
    forall k | k in order ensures k in [n] + order {
    }
  }

  lemma WeaveChar(c: char, g: seq<string>, bs: seq<string>)
    requires |g| == |bs| + 1
    ensures Weave([[c] + g[0]] + g[1..], bs) == [c] + Weave(g, bs)
  {
    assert ([[c] + g[0]] + g[1..])[1..] == g[1..];
    if bs != [] {
      Regroup([c], g[0], bs[0]);
      Regroup([c], g[0] + bs[0], Weave(g[1..], bs[1..]));
    }
  }

  lemma WeaveBlock(block: string, g: seq<string>, bs: seq<string>)
    requires |g| == |bs| + 1
    ensures Weave([""] + g, [block] + bs) == block + Weave(g, bs)
  {
    assert ([""] + g)[1..] == g && ([block] + bs)[1..] == bs;
    assert "" + block == block;
  }

  // ── The main results ──────────────────────────────────────────────────────

  function Same(s: string): string { s }

  /** No two neighbouring fences have between them nothing but the name of an earlier token. */
  ghost predicate ReadsWell(text: string) {
    forall k: nat | k < |Blocks(text)| :: !Misreads(Items(text, 0), k)
  }

  /** Protecting and restoring without a rewrite is the identity, on text free of NUL, exactly
      when no two neighbouring fences have between them nothing but the name of an earlier
      token; so always on text without the token word. */
  lemma IdentityRewriteReturnsInput(text: string)
    requires '\0' !in text
    ensures Protected(text, Same) == text <==> ReadsWell(text)
    ensures Plain(text) ==> ReadsWell(text)
  {
    if ReadsWell(text) { ReadWellIsReturned(text); } else { NotReadWellIsDamaged(text); }
    if Plain(text) { PlainIsReadWell(text); }
  }

  lemma ReadWellIsReturned(text: string)
    requires '\0' !in text && ReadsWell(text)
    ensures Protected(text, Same) == text
  {
    ItemsHaveNoNul(text, 0);
    ProtectedIsItemwise(text, Same, Items(text, 0));
    ExpandSplit(text, 0, Blocks(text));
  }

  lemma NotReadWellIsDamaged(text: string)
    requires '\0' !in text && !ReadsWell(text)
    ensures Protected(text, Same) != text
  {
    var k: nat :| k < |Blocks(text)| && Misreads(Items(text, 0), k);
    MisreadIsDamage(text, k);
  }

  lemma MisreadIsDamage(text: string, k: nat)
    requires '\0' !in text && k < |Blocks(text)| && Misreads(Items(text, 0), k)
    ensures Protected(text, Same) != text
  {
    BlocksAreGood(text);
    ItemsHaveNoNul(text, 0);
    RenderFresh(Items(text, 0), Blocks(text));
    MisreadLeavesNul(Items(text, 0), Blocks(text), k);
  }

  lemma PlainIsReadWell(text: string)
    requires Plain(text)
    ensures ReadsWell(text)
  {
    SplitIsClean(text, 0);
    CleanReadsAllWell(Items(text, 0));
  }

  lemma CleanReadsAllWell(items: seq<Item>)
    requires Clean(items)
    ensures NoNul(items) && forall k: nat :: !Misreads(items, k)
  {
    CleanReadsWell(items, 0);
    forall k: nat ensures !Misreads(items, k) { CleanReadsWell(items, k); }
  }

  /** Two empty fences, a name, and a third empty fence. */
  function NameBetween(name: string): string {
    FENCE + (FENCE + (FENCE + (FENCE + (name + (FENCE + (FENCE + ""))))))
  }

  lemma FirstName()
    ensures Name(0) == "CODEBLOCK0"
  {
  }

  /** With the name of the first token there, the text comes back damaged although nothing
      was rewritten. */
  lemma NamedTokenIsMisread(name: string)
    requires name == Name(0)
    ensures '\0' !in NameBetween(name) && Protected(NameBetween(name), Same) != NameBetween(name)
  {
    var text := NameBetween(name);
    NameBetweenHasNoNul(name);
    ThreeFences(text, name);
    NamedIsMisread(text, Items(text, 0), name);
  }

  lemma NameBetweenHasNoNul(name: string)
    requires '\0' !in name
    ensures '\0' !in NameBetween(name)
  {
    assert '\0' !in FENCE;
  }

  lemma NamedIsMisread(text: string, items: seq<Item>, name: string)
    requires '\0' !in text && |Blocks(text)| >= 3 && items == Items(text, 0) && name == Name(0)
    requires items == Chars("") + [Tok(0)] + (Chars("") + [Tok(1)] + (Chars(name) + [Tok(2)] + Items("", 3)))
    ensures Protected(text, Same) != text
  {
    NamedFirst(items, name);
    MisreadIsDamage(text, 0);
  }

  lemma ThreeFences(text: string, name: string)
    requires text == NameBetween(name) && '`' !in name
    ensures |Blocks(text)| >= 3
    ensures Items(text, 0) == Chars("") + [Tok(0)] + (Chars("") + [Tok(1)] + (Chars(name) + [Tok(2)] + Items("", 3)))
  {
    var third := name + (FENCE + (FENCE + ""));
    var second := FENCE + (FENCE + third);
    EmptyFence("", second, 0);
    EmptyFence("", third, 1);
    EmptyFence(name, "", 2);
    assert "" + text == text && "" + second == second;
  }

  lemma EmptyFence(before: string, rest: string, n: nat)
    requires '`' !in before
    ensures var text := before + (FENCE + (FENCE + rest));
            && Items(text, n) == Chars(before) + [Tok(n)] + Items(rest, n + 1)
            && Blocks(text) == [FENCE + "" + FENCE] + Blocks(rest)
  {
    CutRun(before, FENCE + (FENCE + rest), FENCE);
    FenceFirst(FENCE + rest);
    FenceFirst(rest);
    assert before + "" == before;
  }

  lemma FenceFirst(rest: string)
    ensures CutOnce(FENCE + rest, FENCE) == Some(Cut("", rest))
  {
    assert (FENCE + rest)[..3] == FENCE && (FENCE + rest)[3..] == rest;
  }

  lemma NamedFirst(items: seq<Item>, name: string)
    requires name == Name(0)
    requires items == Chars("") + [Tok(0)] + (Chars("") + [Tok(1)] + (Chars(name) + [Tok(2)] + Items("", 3)))
    ensures Misreads(items, 0)
  {
    var rest := items[1..];
    assert rest[0] == Tok(1) && rest[1..] == Chars(name) + [Tok(2)] + Items("", 3);
    assert rest[1..][..|name|] == Chars(name) && rest[1..][|name|] == Tok(2);
    assert MisreadHere(rest, 0);
  }

  lemma TelegramIsItemwise(text: string)
    requires Plain(text)
    ensures var items := Escape(Bold(Items(text, 0), Chars("**"), Chars("*")), Chars(SPECIALS), Ch('\\'));
            && FormatTelegram(text) == Expand(items, Blocks(text))
            && Toks(items) == Toks(Items(text, 0))
  {
    var source := Items(text, 0);
    var bold := Bold(source, Chars("**"), Chars("*"));
    SplitIsClean(text, 0);
    assert Chars("*") == [Ch('*')];
    BoldCommutes(source, "**", "*");
    BoldClean(source, Chars("**"), '*');
    BoldToks(source, "**", "*");
    EscapeCommutes(bold, SPECIALS, '\\');
    EscapeClean(bold);
    EscapeToks(bold, Chars(SPECIALS), '\\');
    CleanReadsAllWell(Escape(bold, Chars(SPECIALS), Ch('\\')));
    ProtectedIsItemwise(text, TelegramRewrite, Escape(bold, Chars(SPECIALS), Ch('\\')));
  }

  lemma SlackIsItemwise(text: string)
    requires Plain(text)
    ensures var items := Links(Bold(Items(text, 0), Chars("**"), Chars("*")), MARKDOWN_ITEMS, SlackLinkItems);
            && FormatSlack(text) == Expand(items, Blocks(text))
            && multiset(Toks(items)) == multiset(Toks(Items(text, 0)))
  {
    var source := Items(text, 0);
    var bold := Bold(source, Chars("**"), Chars("*"));
    SplitIsClean(text, 0);
    assert Chars("*") == [Ch('*')];
    BoldCommutes(source, "**", "*");
    BoldClean(source, Chars("**"), '*');
    BoldToks(source, "**", "*");
    LinksCommute(bold);
    LinksClean(bold);
    LinksToks(bold);
    CleanReadsAllWell(Links(bold, MARKDOWN_ITEMS, SlackLinkItems));
    ProtectedIsItemwise(text, SlackRewrite, Links(bold, MARKDOWN_ITEMS, SlackLinkItems));
  }

  /** Telegram output is the fenced blocks, byte for byte and in their order. */
  lemma TelegramKeepsEveryBlock(text: string)
    requires Plain(text)
    ensures exists gaps | |gaps| == |Blocks(text)| + 1 :: FormatTelegram(text) == Weave(gaps, Blocks(text))
  {
    var items := Escape(Bold(Items(text, 0), Chars("**"), Chars("*")), Chars(SPECIALS), Ch('\\'));
    TelegramIsItemwise(text);
    SplitToks(text, 0);
    InOrderWeaves(items, Items(text, 0), Blocks(text));
  }

  lemma InOrderWeaves(items: seq<Item>, source: seq<Item>, blocks: seq<string>)
    requires Toks(items) == Toks(source) && |Toks(source)| == |blocks| && Numbered(Toks(source), 0)
    ensures |Gaps(items)| == |blocks| + 1 && Expand(items, blocks) == Weave(Gaps(items), blocks)
  {
    ExpandIsWeave(items, blocks);
    assert Pick(blocks, Toks(items)) == blocks;
  }

  lemma SameNumbers(order: seq<nat>, source: seq<nat>, n: nat)
    requires multiset(order) == multiset(source) && |source| == n && Numbered(source, 0)
    ensures |order| == n && multiset(order) == multiset(seq(n, (k: nat) => k))
    ensures forall k | k in order :: k < n
  {
    assert source == seq(n, (k: nat) => k);
    assert |order| == |multiset(order)| == |multiset(source)|;
    forall k | k in order ensures k < n {
      assert k in multiset(order);
      assert k in source;
    }
  }

  /** The text is the blocks in some order, each exactly once, with other text between. */
  ghost predicate WeavesAll(text: string, blocks: seq<string>) {
    exists gaps: seq<string>, order: seq<nat> ::
      && (forall n | n in order :: n < |blocks|)
      && |order| == |blocks| == |gaps| - 1
      && multiset(order) == multiset(seq(|blocks|, (k: nat) => k))
      && text == Weave(gaps, Pick(blocks, order))
  }

  lemma RearrangedWeavesAll(items: seq<Item>, source: seq<Item>, blocks: seq<string>)
    requires multiset(Toks(items)) == multiset(Toks(source))
    requires |Toks(source)| == |blocks| && Numbered(Toks(source), 0)
    ensures WeavesAll(Expand(items, blocks), blocks)
  {
    SameNumbers(Toks(items), Toks(source), |blocks|);
    ExpandIsWeave(items, blocks);
    assert Expand(items, blocks) == Weave(Gaps(items), Pick(blocks, Toks(items)));
  }

  /** Slack output is the fenced blocks, byte for byte, each exactly once; a block inside
      a link may change place with the link's other half. */
  lemma SlackKeepsEveryBlock(text: string)
    requires Plain(text)
    ensures WeavesAll(FormatSlack(text), Blocks(text))
  {
    var items := Links(Bold(Items(text, 0), Chars("**"), Chars("*")), MARKDOWN_ITEMS, SlackLinkItems);
    SlackIsItemwise(text);
    SplitToks(text, 0);
    RearrangedWeavesAll(items, Items(text, 0), Blocks(text));
  }
}
