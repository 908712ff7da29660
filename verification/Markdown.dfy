/** What the Telegram escape and the bold rewrite keep of the text they are given. */
module Markdown {
  import opened Prelude
  import opened Text
  import opened Formatter

  /** Drop each backslash that stands directly before a special character. */
  function Unescape(s: string): string {
    if s == "" then ""
    else if s[0] == '\\' && |s| > 1 && s[1] in SPECIALS then Unescape(s[1..])
    else [s[0]] + Unescape(s[1..])
  }

  lemma EscapedHead(s: string)
    ensures var e := Escape(s, SPECIALS, '\\'); e == "" || e[0] !in SPECIALS
  {
  }

  /** Escaping loses nothing, even when the text already holds backslashes. */
  lemma {:induction false} EscapeHasLeftInverse(s: string)
    ensures Unescape(Escape(s, SPECIALS, '\\')) == s
  {
    if s != "" {
      EscapeHasLeftInverse(s[1..]);
      EscapedHead(s[1..]);
      UnescapeOne(s[0], Escape(s[1..], SPECIALS, '\\'));
    }
  }

  lemma UnescapeOne(c: char, more: string)
    requires more == "" || more[0] !in SPECIALS
    ensures Unescape([c] + more) == [c] + Unescape(more)
    ensures c in SPECIALS ==> Unescape(['\\'] + [c] + more) == [c] + Unescape(more)
  {
    assert ([c] + more)[1..] == more;
    var e := ['\\'] + [c] + more;
    assert e[0] == '\\' && e[1] == c && e[1..] == [c] + more;
  }

  /** After escaping, a special character is never at the start nor unguarded. */
  lemma {:induction false} EverySpecialIsGuarded(s: string, k: nat)
    requires var e := Escape(s, SPECIALS, '\\'); k < |e| && e[k] in SPECIALS
    ensures k > 0 && Escape(s, SPECIALS, '\\')[k - 1] == '\\'
  {
    var e, more := Escape(s, SPECIALS, '\\'), Escape(s[1..], SPECIALS, '\\');
    var head := |e| - |more|;
    if k >= head {
      assert e[k] == more[k - head];
      EverySpecialIsGuarded(s[1..], k - head);
      assert e[k - 1] == more[k - head - 1];
    }
  }

  function NonStars(s: string): string {
    if s == "" then "" else (if s[0] == '*' then "" else [s[0]]) + NonStars(s[1..])
  }

  /** How many times `**` occurs, reading left to right without overlap. */
  function Markers(s: string): nat
    decreases |s|
  {
    match CutOnce(s, "**")
    case None => 0
    case Some(c) => 1 + Markers(c.after)
  }

  lemma {:induction false} NonStarsAppend(x: string, y: string)
    ensures NonStars(x + y) == NonStars(x) + NonStars(y)
  {
    if x == "" {
      assert x + y == y;
    } else {
      NonStarsAppend(x[1..], y);
      assert (x + y)[1..] == x[1..] + y;
      Regroup(if x[0] == '*' then "" else [x[0]], NonStars(x[1..]), NonStars(y));
    }
  }

  lemma NonStarsAround(a: string, m: string, b: string)
    requires m == "*" || m == "**"
    ensures NonStars(a + m + b) == NonStars(a) + NonStars(b)
  {
    NonStarsAppend(a + m, b);
    NonStarsAppend(a, m);
    assert NonStars(m[1..]) == "" && NonStars(m) == "";
  }

  /** The bold rewrite keeps every character that is not a star, in order. */
  lemma {:induction false} BoldKeepsNonStars(s: string)
    ensures NonStars(Bold(s, "**", "*")) == NonStars(s)
    decreases |s|
  {
    if CutOnce(s, "**").Some? {
      var c := CutOnce(s, "**").value;
      if CutOnce(c.after, "**").Some? {
        var e := CutOnce(c.after, "**").value;
        var more := Bold(e.after, "**", "*");
        BoldKeepsNonStars(e.after);
        NonStarsAround(c.before, "**", c.after);
        NonStarsAround(e.before, "**", e.after);
        NonStarsAround(e.before, "*", more);
        NonStarsAround(c.before, "*", e.before + "*" + more);
        Regroup(c.before + "*", e.before + "*", more);
        Regroup(c.before + "*", e.before, "*");
      }
    }
  }

  lemma PairStep(s: string, c: Cut<char>, e: Cut<char>)
    requires CutOnce(s, "**") == Some(c) && CutOnce(c.after, "**") == Some(e)
    ensures |s| == |c.before| + |e.before| + |e.after| + 4
    ensures |Bold(s, "**", "*")| == |c.before| + |e.before| + |Bold(e.after, "**", "*")| + 2
    ensures Markers(s) == 2 + Markers(e.after)
  {
  }

  /** It shortens the text by two for every matched pair of markers. */
  lemma {:induction false} BoldLength(s: string)
    ensures |Bold(s, "**", "*")| == |s| - 2 * (Markers(s) / 2)
    decreases |s|
  {
    match CutOnce(s, "**")
    case None =>
    case Some(c) =>
      match CutOnce(c.after, "**")
      case None => assert Markers(c.after) == 0 && Markers(s) == 1;
      case Some(e) =>
        PairStep(s, c, e);
        BoldLength(e.after);
        assert Markers(s) / 2 == 1 + Markers(e.after) / 2;
  }
}
