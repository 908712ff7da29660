/** What the rewrites make of a link, a pair of bold markers and a fence, on the text. */
module Rewriting {
  import opened Prelude
  import opened Text
  import opened Formatter
  import opened CodeBlocks
  import opened BlockPreservation

  // ── Where a delimiter is found ────────────────────────────────────────────

  /** `p` does not occur in `a`, nor across the end of `a` when `p` follows. */
  predicate Clear(a: string, p: string)
    requires p != ""
  {
    !Contains(a + p[..|p| - 1], p)
  }

  lemma CutAtWord(a: string, p: string, b: string)
    requires p != "" && Clear(a, p)
    ensures CutOnce(a + (p + b), p) == Some(Cut(a, b))
  {
    var s := a + (p + b);
    assert s[|a|..|a| + |p|] == p;
    FindIsFirst(s, p, |a|);
    var k := Find(s, p).value;
    if k < |a| {
      var front := a + p[..|p| - 1];
      assert front[k..k + |p|] == s[k..k + |p|];
      FindIsFirst(front, p, k);
    }
    assert s[..|a|] == a && s[|a| + |p|..] == b;
  }

  lemma NoCut(s: string, p: string)
    requires !Contains(s, p)
    ensures CutOnce(s, p) == None
  {
  }

  /** What holds no occurrence holds none in its later part. */
  lemma ContainedBehind(a: string, b: string, p: string)
    requires !Contains(a + b, p)
    ensures !Contains(b, p)
  {
    if Contains(b, p) {
      var k := Find(b, p).value;
      assert (a + b)[|a| + k..|a| + k + |p|] == b[k..k + |p|];
      FindIsFirst(a + b, p, |a| + k);
    }
  }

  // ── Links ─────────────────────────────────────────────────────────────────

  /** A link is shown as `show` says, with exactly the text between the brackets and the
      address between the parentheses; what stands before and behind it is kept. */
  lemma LinkIsShown(a: string, t: string, u: string, b: string, show: (string, string) -> string)
    requires '[' !in a && ']' !in t && ')' !in u
    ensures Links(a + "[" + t + "](" + u + ")" + b, MARKDOWN, show) == a + show(t, u) + Links(b, MARKDOWN, show)
  {
    LinkPieces(a, t, u, b);
    CutAtSymbol(a, '[', t + ([']'] + ("(" + (u + ([')'] + b)))));
    LinkIsRead(t, u, b);
  }

  lemma LinkPieces(a: string, t: string, u: string, b: string)
    ensures a + "[" + t + "](" + u + ")" + b == a + (['['] + (t + ([']'] + ("(" + (u + ([')'] + b))))))
  {
    var link := "(" + (u + ([')'] + b));
    assert "](" == [']'] + "(";
    assert t + "](" + u + ")" + b == t + ([']'] + link);
  }

  lemma LinkIsRead(t: string, u: string, b: string)
    requires ']' !in t && ')' !in u
    ensures LinkAfter(t + ([']'] + ("(" + (u + ([')'] + b)))), MARKDOWN) == Some(Link(t, u, b))
  {
    var address := "(" + (u + ([')'] + b));
    CutAtSymbol(t, ']', address);
    Regroup("(", u, [')'] + b);
    CutAtSymbol("(" + u, ')', b);
    assert ("(" + u)[1..] == u && address[..1] == "(";
  }

  /** An opening bracket at `k` begins a link: the next closing bracket is followed at once by
      an opening parenthesis, and that by a closing one somewhere. */
  predicate OpensLink(s: string, k: nat) {
    exists j: nat, m: nat | j < |s| && m < |s| :: LinkSpan(s, k, j, m)
  }

  predicate LinkSpan(s: string, k: nat, j: nat, m: nat) {
    && k < j && j + 1 < m < |s|
    && s[k] == '[' && s[j] == ']' && s[j + 1] == '(' && s[m] == ')' && NoneBetween(s, k + 1, j, ']')
  }

  predicate NoneBetween(s: string, i: nat, j: int, c: char)
    requires j <= |s|
  {
    forall n | i <= n < j :: s[n] != c
  }

  /** Which brackets are read as links. */
  lemma LinkReadsExactly(s: string, k: nat)
    requires k < |s| && s[k] == '['
    ensures LinkAfter(s[k + 1..], MARKDOWN).Some? <==> OpensLink(s, k)
  {
    if LinkAfter(s[k + 1..], MARKDOWN).Some? { ReadLinkOpens(s, k); }
    if OpensLink(s, k) {
      var j: nat, m: nat :| j < |s| && m < |s| && LinkSpan(s, k, j, m);
      OpenLinkIsRead(s, k, j, m);
    }
  }

  lemma OpenLinkIsRead(s: string, k: nat, j: nat, m: nat)
    requires LinkSpan(s, k, j, m)
    ensures LinkAfter(s[k + 1..], MARKDOWN).Some?
  {
    var t, after := s[k + 1..j], s[j + 1..];
    assert ']' !in t && after[0] == '(';
    assert ')' in after by { assert after[m - j - 1] == ')'; }
    BracketsAreRead(t, after);
    SplitAtBracket(s, k, j);
  }

  lemma SplitAtBracket(s: string, k: nat, j: nat)
    requires k < j < |s| && s[j] == ']'
    ensures s[k + 1..] == s[k + 1..j] + ([']'] + s[j + 1..])
  {
  }

  lemma BracketsAreRead(t: string, after: string)
    requires ']' !in t && after != "" && after[0] == '(' && ')' in after
    ensures LinkAfter(t + ([']'] + after), MARKDOWN).Some?
  {
    CutAtSymbol(t, ']', after);
    SymbolIsFound(after, ')');
    assert after[..1] == "(";
  }

  lemma SymbolIsFound(s: string, c: char)
    requires c in s
    ensures CutOnce(s, [c]).Some?
  {
    var k :| 0 <= k < |s| && s[k] == c;
    assert s[k..k + 1] == [c];
    FindIsFirst(s, [c], k);
  }

  lemma ReadLinkOpens(s: string, k: nat)
    requires k < |s| && s[k] == '[' && LinkAfter(s[k + 1..], MARKDOWN).Some?
    ensures OpensLink(s, k)
  {
    var rest := s[k + 1..];
    var c := CutOnce(rest, "]").value;
    var u := CutOnce(c.after, ")").value;
    var j, m := k + 1 + |c.before|, k + 2 + |c.before| + |u.before|;
    CutIsFirst(rest, ']');
    assert rest[|c.before|] == ']' && rest[|c.before| + 1..] == c.after;
    assert c.after[0] == '(' && c.after[|u.before|] == ')';
    forall n | k + 1 <= n < j ensures s[n] != ']' { assert s[n] == rest[n - k - 1] == c.before[n - k - 1]; }
    assert s[j] == rest[|c.before|] && s[j + 1] == c.after[0] && s[m] == c.after[|u.before|];
    assert LinkSpan(s, k, j, m);
  }

  /** The cut at a symbol is its first occurrence. */
  lemma CutIsFirst(s: string, c: char)
    requires CutOnce(s, [c]).Some?
    ensures c !in CutOnce(s, [c]).value.before
  {
    var before := CutOnce(s, [c]).value.before;
    if c in before {
      var k :| 0 <= k < |before| && before[k] == c;
      assert s[k..k + 1] == [c];
      FindIsFirst(s, [c], k);
    }
  }

  /** A bracket that begins no link stays, and the text behind it is rewritten as it is. */
  lemma OtherBracketStays(a: string, b: string, show: (string, string) -> string)
    requires '[' !in a && !OpensLink(a + "[" + b, |a|)
    ensures Links(a + "[" + b, MARKDOWN, show) == a + "[" + Links(b, MARKDOWN, show)
  {
    var s := a + "[" + b;
    Regroup(a, "[", b);
    CutAtSymbol(a, '[', b);
    LinkReadsExactly(s, |a|);
    assert s[|a| + 1..] == b;
  }

  /** So text in which no bracket begins a link comes back unchanged. */
  lemma {:induction false} NoLinkNoChange(s: string, show: (string, string) -> string)
    requires forall k: nat :: !OpensLink(s, k)
    ensures Links(s, MARKDOWN, show) == s
    decreases |s|
  {
    if CutOnce(s, "[").Some? {
      var c := CutOnce(s, "[").value;
      CutIsFirst(s, '[');
      forall k: nat ensures !OpensLink(c.after, k) {
        if OpensLink(c.after, k) { OpensBehind(c.before + "[", c.after, k); }
      }
      NoLinkNoChange(c.after, show);
      OtherBracketStays(c.before, c.after, show);
    }
  }

  lemma OpensBehind(a: string, b: string, k: nat)
    requires OpensLink(b, k)
    ensures OpensLink(a + b, |a| + k)
  {
    var j: nat, m: nat :| j < |b| && m < |b| && LinkSpan(b, k, j, m);
    var s, j', m' := a + b, |a| + j, |a| + m;
    assert s[|a| + k] == b[k] && s[j'] == b[j] && s[j' + 1] == b[j + 1] && s[m'] == b[m];
    forall n | |a| + k + 1 <= n < j' ensures s[n] != ']' { assert s[n] == b[n - |a|]; }
    assert LinkSpan(s, |a| + k, j', m');
  }

  /** Text before the first bracket is kept. */
  lemma LinksBehind(a: string, b: string, show: (string, string) -> string)
    requires '[' !in a
    ensures Links(a + b, MARKDOWN, show) == a + Links(b, MARKDOWN, show)
  {
    CutRun(a, b, "[");
    if CutOnce(b, "[").Some? {
      var c := CutOnce(b, "[").value;
      match LinkAfter(c.after, MARKDOWN)
      case None => FourPieces(a, c.before, "[", Links(c.after, MARKDOWN, show));
      case Some(l) => FourPieces(a, c.before, show(l.text, l.url), Links(l.rest, MARKDOWN, show));
    }
  }

  lemma FourPieces(a: string, b: string, c: string, d: string)
    ensures (a + b) + c + d == a + (b + c + d)
  {
  }

  // ── Bold ──────────────────────────────────────────────────────────────────

  /** A pair of markers is replaced where it stands, around the same text. */
  lemma PairIsReplaced(a: string, t: string, b: string, m: string)
    requires Clear(a, "**") && Clear(t, "**")
    ensures Bold(a + "**" + t + "**" + b, "**", m) == a + m + t + m + Bold(b, "**", m)
  {
    TwoMarks(a, "**", t, b);
    CutAtWord(a, "**", t + ("**" + b));
    CutAtWord(t, "**", b);
  }

  lemma TwoMarks(a: string, p: string, t: string, b: string)
    ensures a + p + t + p + b == a + (p + (t + (p + b)))
  {
    Regroup(a + p, t, p + b);
    Regroup(a, p, t + (p + b));
    Regroup(a + p + t, p, b);
  }

  /** A marker without a partner stays. */
  lemma LoneMarkerStays(a: string, b: string, m: string)
    requires Clear(a, "**") && !Contains(b, "**")
    ensures Bold(a + "**" + b, "**", m) == a + "**" + b && Bold(b, "**", m) == b
  {
    Regroup(a, "**", b);
    CutAtWord(a, "**", b);
  }

  // ── Fences ────────────────────────────────────────────────────────────────

  /** A closed fence is one block, with its backquotes; the text around it is not. */
  lemma FenceIsBlock(a: string, t: string, b: string, n: nat)
    requires Clear(a, FENCE) && Clear(t, FENCE)
    ensures Blocks(a + FENCE + t + FENCE + b) == [FENCE + t + FENCE] + Blocks(b)
    ensures Items(a + FENCE + t + FENCE + b, n) == Chars(a) + [Tok(n)] + Items(b, n + 1)
  {
    TwoMarks(a, FENCE, t, b);
    CutAtWord(a, FENCE, t + (FENCE + b));
    CutAtWord(t, FENCE, b);
  }

  /** Text without a fence is rewritten as it is. */
  lemma UnfencedIsRewritten(text: string, f: string -> string)
    requires !Contains(text, FENCE)
    ensures Protected(text, f) == f(text)
  {
    RenderChars(text, [], 0);
  }

  /** So is text with a fence that is never closed. */
  lemma UnclosedIsRewritten(a: string, b: string, f: string -> string)
    requires Clear(a, FENCE) && !Contains(b, FENCE)
    ensures Protected(a + FENCE + b, f) == f(a + FENCE + b)
  {
    Regroup(a, FENCE, b);
    CutAtWord(a, FENCE, b);
    RenderChars(a + FENCE + b, [], 0);
  }

  // ── On Slack ──────────────────────────────────────────────────────────────

  /** On Slack a link comes out as `<url|text>`. */
  lemma SlackShowsLink(a: string, t: string, u: string, b: string)
    requires var text := a + "[" + t + "](" + u + ")" + b; !Contains(text, FENCE) && !Contains(text, "**")
    requires '[' !in a && ']' !in t && ')' !in u
    ensures FormatSlack(a + "[" + t + "](" + u + ")" + b) == a + ("<" + u + "|" + t + ">") + FormatSlack(b)
  {
    var text := a + "[" + t + "](" + u + ")" + b;
    UnfencedIsRewritten(text, SlackRewrite);
    assert Bold(text, "**", "*") == text;
    LinkIsShown(a, t, u, b, SlackLink);
    ContainedBehind(a + "[" + t + "](" + u + ")", b, FENCE);
    ContainedBehind(a + "[" + t + "](" + u + ")", b, "**");
    UnfencedIsRewritten(b, SlackRewrite);
  }

  /** A pair of bold markers comes out as a pair of single stars. */
  lemma SlackShowsBold(a: string, t: string, b: string)
    requires !Contains(a + "**" + t + "**" + b, FENCE)
    requires Clear(a, "**") && Clear(t, "**") && '[' !in a && '[' !in t
    ensures FormatSlack(a + "**" + t + "**" + b) == a + "*" + t + "*" + FormatSlack(b)
  {
    UnfencedIsRewritten(a + "**" + t + "**" + b, SlackRewrite);
    PairIsReplaced(a, t, b, "*");
    LinksBehind(a + "*" + t + "*", Bold(b, "**", "*"), SlackLink);
    ContainedBehind(a + "**" + t + "**", b, FENCE);
    UnfencedIsRewritten(b, SlackRewrite);
  }

  /** Text without fence, link or marker is delivered as it is. */
  lemma SlackKeepsOrdinaryText(text: string)
    requires !Contains(text, FENCE) && !Contains(text, "**") && forall k: nat :: !OpensLink(text, k)
    ensures FormatSlack(text) == text
  {
    UnfencedIsRewritten(text, SlackRewrite);
    NoLinkNoChange(text, SlackLink);
  }

  // ── On Telegram ───────────────────────────────────────────────────────────

  /** A pair of bold markers comes out as a pair of single stars, and everything around is
      escaped. */
  lemma TelegramShowsBold(a: string, t: string, b: string)
    requires !Contains(a + "**" + t + "**" + b, FENCE) && Clear(a, "**") && Clear(t, "**")
    ensures FormatTelegram(a + "**" + t + "**" + b)
            == Escape(a, SPECIALS, '\\') + "*" + Escape(t, SPECIALS, '\\') + "*" + FormatTelegram(b)
  {
    UnfencedIsRewritten(a + "**" + t + "**" + b, TelegramRewrite);
    PairIsReplaced(a, t, b, "*");
    ContainedBehind(a + "**" + t + "**", b, FENCE);
    UnfencedIsRewritten(b, TelegramRewrite);
    EscapeAround(a, t, Bold(b, "**", "*"));
  }

  lemma EscapeAround(a: string, t: string, more: string)
    ensures Escape(a + "*" + t + "*" + more, SPECIALS, '\\')
            == Escape(a, SPECIALS, '\\') + "*" + Escape(t, SPECIALS, '\\') + "*" + Escape(more, SPECIALS, '\\')
  {
    assert Escape("*", SPECIALS, '\\') == "*" by { assert "*"[1..] == ""; }
    EscapeAppend(a + "*" + t + "*", more, SPECIALS, '\\');
    EscapeAppend(a + "*" + t, "*", SPECIALS, '\\');
    EscapeAppend(a + "*", t, SPECIALS, '\\');
    EscapeAppend(a, "*", SPECIALS, '\\');
  }

  // ── Around a block ────────────────────────────────────────────────────────

  /** No delimiter stands in the text. */
  predicate Undelimited(s: string) {
    forall c | c in s :: c != '*' && c != '[' && c != '`'
  }

  lemma OneBlock(a: string, t: string, b: string)
    requires Undelimited(a) && Undelimited(b) && Clear(t, FENCE)
    ensures Items(a + FENCE + t + FENCE + b, 0) == Chars(a) + [Tok(0)] + Chars(b)
    ensures Blocks(a + FENCE + t + FENCE + b) == [FENCE + t + FENCE]
  {
    ClearWithoutTicks(a);
    FenceIsBlock(a, t, b, 0);
    NoSymbolNoCut(b, FENCE);
  }

  lemma ClearWithoutTicks(a: string)
    requires '`' !in a
    ensures Clear(a, FENCE)
  {
    var s := a + FENCE[..2];
    if Contains(s, FENCE) { FenceNeedsTick(a, Find(s, FENCE).value); }
  }

  lemma FenceNeedsTick(a: string, k: nat)
    requires At(a + FENCE[..2], FENCE, k)
    ensures '`' in a
  {
    var s := a + FENCE[..2];
    assert s[k] == s[k..k + 3][0];
    assert k < |a| && a[k] == s[k];
  }

  lemma ExpandOneBlock(x: seq<Item>, y: seq<Item>, block: string)
    ensures Expand(x + [Tok(0)] + y, [block]) == Expand(x, [block]) + block + Expand(y, [block])
  {
    RenderAppend(x + [Tok(0)], y, [block], 1);
    RenderAppend(x, [Tok(0)], [block], 1);
    assert [Tok(0)][1..] == [] && Render([Tok(0)], [block], 1) == block;
  }

  /** A fenced block shields what it holds: markers and links inside it are delivered as they
      were written. */
  lemma SlackShieldsBlock(a: string, t: string, b: string)
    requires Undelimited(a) && Undelimited(b) && Clear(t, FENCE) && Plain(a + FENCE + t + FENCE + b)
    ensures FormatSlack(a + FENCE + t + FENCE + b) == a + FENCE + t + FENCE + b
  {
    var block := FENCE + t + FENCE;
    OneBlock(a, t, b);
    CharsHold(a);
    CharsHold(b);
    SlackOfItems(a + FENCE + t + FENCE + b, Chars(a) + [Tok(0)] + Chars(b), [block]);
    ShowOneBlock(a, b, block);
    FivePieces(a, FENCE, t, b);
  }

  lemma SlackOfItems(text: string, items: seq<Item>, blocks: seq<string>)
    requires Plain(text) && Items(text, 0) == items && Blocks(text) == blocks && Ch('*') !in items && Ch('[') !in items
    ensures FormatSlack(text) == Expand(items, blocks)
  {
    SlackIsItemwise(text);
    NoSymbolNoCut(items, Chars("**"));
    NoSymbolNoCut(items, [MARKDOWN_ITEMS.open]);
  }

  lemma ShowOneBlock(a: string, b: string, block: string)
    ensures Expand(Chars(a) + [Tok(0)] + Chars(b), [block]) == a + block + b
  {
    ExpandOneBlock(Chars(a), Chars(b), block);
    RenderChars(a, [block], 1);
    RenderChars(b, [block], 1);
  }

  lemma FivePieces(a: string, p: string, t: string, b: string)
    ensures a + (p + t + p) + b == a + p + t + p + b
  {
  }

  /** On Telegram a block is delivered as it was written, and the text around it escaped. */
  lemma TelegramShieldsBlock(a: string, t: string, b: string)
    requires Undelimited(a) && Undelimited(b) && Clear(t, FENCE) && Plain(a + FENCE + t + FENCE + b)
    ensures FormatTelegram(a + FENCE + t + FENCE + b)
            == Escape(a, SPECIALS, '\\') + (FENCE + t + FENCE) + Escape(b, SPECIALS, '\\')
  {
    var block := FENCE + t + FENCE;
    OneBlock(a, t, b);
    CharsHold(a);
    CharsHold(b);
    TelegramOfItems(a + FENCE + t + FENCE + b, Chars(a) + [Tok(0)] + Chars(b), [block]);
    EscapeOneBlock(Chars(a), Chars(b), Chars(SPECIALS), Ch('\\'));
    EscapedChars(a, SPECIALS, '\\');
    EscapedChars(b, SPECIALS, '\\');
    ShowOneBlock(Escape(a, SPECIALS, '\\'), Escape(b, SPECIALS, '\\'), block);
  }

  lemma TelegramOfItems(text: string, items: seq<Item>, blocks: seq<string>)
    requires Plain(text) && Items(text, 0) == items && Blocks(text) == blocks && Ch('*') !in items
    ensures FormatTelegram(text) == Expand(Escape(items, Chars(SPECIALS), Ch('\\')), blocks)
  {
    TelegramIsItemwise(text);
    NoSymbolNoCut(items, Chars("**"));
  }

  lemma EscapeOneBlock(x: seq<Item>, y: seq<Item>, specials: seq<Item>, mark: Item)
    requires Tok(0) !in specials
    ensures Escape(x + [Tok(0)] + y, specials, mark) == Escape(x, specials, mark) + [Tok(0)] + Escape(y, specials, mark)
  {
    EscapeAppend(x + [Tok(0)], y, specials, mark);
    EscapeAppend(x, [Tok(0)], specials, mark);
    assert [Tok(0)][1..] == [];
  }

  lemma {:induction false} EscapedChars(s: string, specials: string, mark: char)
    ensures Escape(Chars(s), Chars(specials), Ch(mark)) == Chars(Escape(s, specials, mark))
  {
    if s != "" {
      EscapedChars(s[1..], specials, mark);
      assert Chars(s)[1..] == Chars(s[1..]);
      CharsHold(specials);
    }
  }

  lemma CharsHold(s: string)
    ensures forall c :: Ch(c) in Chars(s) <==> c in s
  {
    forall c | c in s ensures Ch(c) in Chars(s) {
      var k :| 0 <= k < |s| && s[k] == c;
      assert Chars(s)[k] == Ch(c);
    }
  }
}
