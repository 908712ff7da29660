/** Markdown rewriting for chat platforms, with fenced code blocks protected.

    The rewriting functions are generic: over `char` they are the string loops of the
    source, over `Item` they treat a protected block as one opaque symbol. The main
    results say that the two agree, so that no rewrite can see inside a block. */
module Formatter {
  import opened Prelude
  import opened Text

  const FENCE := "```"
  const SPECIALS := ".!+-=|{}()#"

  // ── The rewrites ──────────────────────────────────────────────────────────

  /** Pairs of delimiter `d` become pairs of `m`; an unmatched delimiter stays. */
  function Bold<T(==)>(s: seq<T>, d: seq<T>, m: seq<T>): seq<T>
    requires d != []
    decreases |s|
  {
    match CutOnce(s, d)
    case None => s
    case Some(c) =>
      match CutOnce(c.after, d)
      case None => s
      case Some(e) => c.before + m + e.before + m + Bold(e.after, d, m)
  }

  datatype Brackets<T> = Brackets(open: T, close: T, urlOpen: T, urlClose: T)

  datatype Link<T> = Link(text: seq<T>, url: seq<T>, rest: seq<T>)

  /** Reads `text](url)` and what follows it, just after an opening bracket. */
  function LinkAfter<T(==)>(s: seq<T>, b: Brackets<T>): (r: Option<Link<T>>)
    requires b.urlOpen != b.urlClose
    ensures r.Some? ==> |r.value.rest| < |s|
  {
    match CutOnce(s, [b.close])
    case None => None
    case Some(c) =>
      if !StartsWith(c.after, [b.urlOpen]) then None else
      match CutOnce(c.after, [b.urlClose])
      case None => None
      case Some(u) =>
        assert c.after[0] == b.urlOpen;
        Some(Link(c.before, u.before[1..], u.after))
  }

  function Links<T(==)>(s: seq<T>, b: Brackets<T>, show: (seq<T>, seq<T>) -> seq<T>): seq<T>
    requires b.urlOpen != b.urlClose
    decreases |s|
  {
    match CutOnce(s, [b.open])
    case None => s
    case Some(c) =>
      match LinkAfter(c.after, b)
      case None => c.before + [b.open] + Links(c.after, b, show)
      case Some(l) => c.before + show(l.text, l.url) + Links(l.rest, b, show)
  }

  function Escape<T(==)>(s: seq<T>, specials: seq<T>, mark: T): seq<T> {
    if s == [] then []
    else (if s[0] in specials then [mark] else []) + [s[0]] + Escape(s[1..], specials, mark)
  }

  // ── The loops, proved against the functions ───────────────────────────────

  method ReplaceBoldMarkers(s: string, marker: string) returns (result: string)
    ensures result == Bold(s, "**", marker)
  {
    result := "";
    var rest := s;
    var start := Find(rest, "**");
    while start.Some?
      invariant start == Find(rest, "**")
      invariant result + Bold(rest, "**", marker) == Bold(s, "**", marker)
      decreases |rest|
    {
      var piece := rest[..start.value];
      ghost var was := rest;
      rest := rest[start.value + 2..];
      var end := Find(rest, "**");
      if end.Some? {
        piece := piece + marker + rest[..end.value] + marker;
        rest := rest[end.value + 2..];
      } else {
        piece := piece + "**" + rest;
        assert piece == was;
        rest := "";
      }
      assert Bold(was, "**", marker) == piece + Bold(rest, "**", marker);
      Regroup(result, piece, Bold(rest, "**", marker));
      result := result + piece;
      start := Find(rest, "**");
    }
    result := result + rest;
  }

  method ReplaceMdLinks(s: string, show: (string, string) -> string) returns (result: string)
    ensures result == Links(s, MARKDOWN, show)
  {
    result := "";
    var rest := s;
    var start := Find(rest, "[");
    while start.Some?
      invariant start == Find(rest, "[")
      invariant result + Links(rest, MARKDOWN, show) == Links(s, MARKDOWN, show)
      decreases |rest|
    {
      ghost var was := rest;
      var piece: string;
      var link := LinkAfter(rest[start.value + 1..], MARKDOWN);
      if link.Some? {
        piece := rest[..start.value] + show(link.value.text, link.value.url);
        rest := link.value.rest;
      } else {
        piece := rest[..start.value + 1];
        rest := rest[start.value + 1..];
      }
      assert Links(was, MARKDOWN, show) == piece + Links(rest, MARKDOWN, show);
      Regroup(result, piece, Links(rest, MARKDOWN, show));
      result := result + piece;
      start := Find(rest, "[");
    }
    result := result + rest;
  }

  method EscapeTelegramSpecial(s: string) returns (result: string)
    ensures result == Escape(s, SPECIALS, '\\')
  {
    result := "";
    for i := 0 to |s|
      invariant result + Escape(s[i..], SPECIALS, '\\') == Escape(s, SPECIALS, '\\')
    {
      var piece := (if s[i] in SPECIALS then ['\\'] else []) + [s[i]];
      assert s[i..][0] == s[i] && s[i..][1..] == s[i + 1..];
      Regroup(result, piece, Escape(s[i + 1..], SPECIALS, '\\'));
      result := result + piece;
    }
  }

  // ── Items: characters and opaque blocks ───────────────────────────────────

  datatype Item = Ch(c: char) | Tok(n: nat)

  function Chars(s: string): (r: seq<Item>)
    ensures |r| == |s| && forall k | 0 <= k < |s| :: r[k] == Ch(s[k])
  {
    seq(|s|, k requires 0 <= k < |s| => Ch(s[k]))
  }

  function Token(n: nat): string {
    "\0CODEBLOCK" + Decimal(n) + "\0"
  }

  /** Blocks below `i` shown as they are, the others as their tokens. */
  function Render(items: seq<Item>, blocks: seq<string>, i: nat): string
    requires i <= |blocks|
  {
    if items == [] then "" else Glyph(items[0], blocks, i) + Render(items[1..], blocks, i)
  }

  function Glyph(it: Item, blocks: seq<string>, i: nat): string
    requires i <= |blocks|
  {
    match it
    case Ch(c) => [c]
    case Tok(n) => if n < i then blocks[n] else Token(n)
  }

  function Flatten(items: seq<Item>): string {
    Render(items, [], 0)
  }

  function Expand(items: seq<Item>, blocks: seq<string>): string {
    Render(items, blocks, |blocks|)
  }

  /** The text outside closed fences, each closed fence being one numbered token. */
  function Items(text: string, n: nat): seq<Item>
    decreases |text|
  {
    match CutOnce(text, FENCE)
    case None => Chars(text)
    case Some(c) =>
      match CutOnce(c.after, FENCE)
      case None => Chars(text)
      case Some(e) => Chars(c.before) + [Tok(n)] + Items(e.after, n + 1)
  }

  /** The closed fences, with their backquotes, in order. */
  function Blocks(text: string): seq<string>
    decreases |text|
  {
    match CutOnce(text, FENCE)
    case None => []
    case Some(c) =>
      match CutOnce(c.after, FENCE)
      case None => []
      case Some(e) => [FENCE + e.before + FENCE] + Blocks(e.after)
  }

  function Restored(s: string, blocks: seq<string>, i: nat): string
    requires i <= |blocks|
    decreases |blocks| - i
  {
    if i == |blocks| then s
    else Restored(Replace(s, Token(i), blocks[i]), blocks, i + 1)
  }

  function Protected(text: string, f: string -> string): string {
    Restored(f(Flatten(Items(text, 0))), Blocks(text), 0)
  }

  lemma {:induction false} RenderAppend(x: seq<Item>, y: seq<Item>, blocks: seq<string>, i: nat)
    requires i <= |blocks|
    ensures Render(x + y, blocks, i) == Render(x, blocks, i) + Render(y, blocks, i)
  {
    if x == [] {
      assert x + y == y;
    } else {
      RenderAppend(x[1..], y, blocks, i);
      assert (x + y)[1..] == x[1..] + y;
      Regroup(Glyph(x[0], blocks, i), Render(x[1..], blocks, i), Render(y, blocks, i));
    }
  }

  lemma {:induction false} RenderChars(s: string, blocks: seq<string>, i: nat)
    requires i <= |blocks|
    ensures Render(Chars(s), blocks, i) == s
  {
    if s != "" {
      RenderChars(s[1..], blocks, i);
      assert Chars(s)[1..] == Chars(s[1..]);
    }
  }

  /** One pass of the splitting loop. */
  lemma SplitStep(text: string, n: nat)
    requires CutOnce(text, FENCE).Some?
    ensures
      var c := CutOnce(text, FENCE).value;
      match CutOnce(c.after, FENCE)
      case None => Flatten(Items(text, n)) == text && Blocks(text) == []
      case Some(e) =>
        && Flatten(Items(text, n)) == c.before + Token(n) + Flatten(Items(e.after, n + 1))
        && Blocks(text) == [FENCE + e.before + FENCE] + Blocks(e.after)
  {
    var c := CutOnce(text, FENCE).value;
    match CutOnce(c.after, FENCE)
    case None => RenderChars(text, [], 0);
    case Some(e) =>
      RenderAppend(Chars(c.before) + [Tok(n)], Items(e.after, n + 1), [], 0);
      RenderAppend(Chars(c.before), [Tok(n)], [], 0);
      RenderChars(c.before, [], 0);
      assert Render([Tok(n)], [], 0) == Token(n);
  }

  method Restore(s: string, blocks: seq<string>) returns (result: string)
    ensures result == Restored(s, blocks, 0)
  {
    result := s;
    for i := 0 to |blocks|
      invariant Restored(result, blocks, i) == Restored(s, blocks, 0)
    {
      result := Replace(result, Token(i), blocks[i]);
    }
  }

  method Substitute(text: string) returns (working: string, placeholders: seq<string>)
    ensures working == Flatten(Items(text, 0)) && placeholders == Blocks(text)
  {
    placeholders := [];
    working := "";
    var rest := text;
    var start := Find(rest, FENCE);
    while start.Some?
      invariant start == Find(rest, FENCE)
      invariant working + Flatten(Items(rest, |placeholders|)) == Flatten(Items(text, 0))
      invariant placeholders + Blocks(rest) == Blocks(text)
      decreases |rest|
    {
      SplitStep(rest, |placeholders|);
      var piece := rest[..start.value];
      rest := rest[start.value + 3..];
      var end := Find(rest, FENCE);
      if end.Some? {
        assert rest[..end.value + 3] == rest[..end.value] + FENCE;
        var block := FENCE + rest[..end.value + 3];
        Regroup(FENCE, rest[..end.value], FENCE);
        piece := piece + Token(|placeholders|);
        rest := rest[end.value + 3..];
        Regroup(placeholders, [block], Blocks(rest));
        placeholders := placeholders + [block];
      } else {
        piece := piece + FENCE + rest;
        rest := "";
      }
      Regroup(working, piece, Flatten(Items(rest, |placeholders|)));
      working := working + piece;
      start := Find(rest, FENCE);
    }
    RenderChars(rest, [], 0);
    working := working + rest;
  }

  method ProtectCodeBlocks(text: string, f: string -> string) returns (result: string)
    ensures result == Protected(text, f)
  {
    var working, placeholders := Substitute(text);
    result := Restore(f(working), placeholders);
  }

  const MARKDOWN := Brackets('[', ']', '(', ')')

  function SlackLink(text: string, url: string): string {
    "<" + url + "|" + text + ">"
  }

  function SlackRewrite(s: string): string {
    Links(Bold(s, "**", "*"), MARKDOWN, SlackLink)
  }

  function TelegramRewrite(s: string): string {
    Escape(Bold(s, "**", "*"), SPECIALS, '\\')
  }

  function FormatSlack(text: string): string {
    Protected(text, SlackRewrite)
  }

  function FormatTelegram(text: string): string {
    Protected(text, TelegramRewrite)
  }
}
