/** Splitting a long message into chunks of at most `limit` bytes. */
module Chunker {
  import opened Prelude
  import opened Utf8

  /** Largest character boundary at or below `i`. */
  function Floor(s: seq<Byte>, i: nat): (j: nat)
    requires i <= |s|
    ensures j <= i && Boundary(s, j)
    ensures forall k | j < k <= i :: !Boundary(s, k)
  {
    if Boundary(s, i) then i else Floor(s, i - 1)
  }

  /** Where the loop cuts a text longer than the limit. */
  function SplitAt(s: seq<Byte>, limit: nat): (at: nat)
    requires Valid(s) && limit <= |s|
    ensures at <= limit
  {
    var hard := Floor(s, limit);
    ValidSplit(s, hard);
    match LastSpace(s[..hard])
    case None => hard
    case Some(ws) => if ws == 0 then hard else ws
  }

  /** What the loop goes on with after one cut. */
  function Rest(s: seq<Byte>, limit: nat): seq<Byte>
    requires Valid(s) && limit <= |s|
  {
    TrimStart(s[SplitAt(s, limit)..])
  }

  /** Every character that is not white space has at most `limit` bytes. */
  predicate Fits(s: seq<Byte>, limit: nat)
    requires Valid(s)
  {
    s != [] ==> (SpaceAhead(s) || CharLen(s) <= limit) && Fits(s[CharLen(s)..], limit)
  }

  // ── One cut ───────────────────────────────────────────────────────────────

  lemma LastSpaceInWindow(s: seq<Byte>, hard: nat, ws: nat)
    requires Valid(s) && hard <= |s| && Boundary(s, hard) && Valid(s[..hard])
    requires LastSpace(s[..hard]) == Some(ws)
    ensures SpaceAt(s, ws)
  {
    LastSpaceIsSpace(s[..hard]);
    assert s[..hard][ws..] == s[ws..hard];
    var a, b := s[ws..hard], s[hard..];
    assert s[ws..] == a + b;
    FrontOfJoin(a, b);
  }

  /** The cut is at a boundary, with whole characters on both sides. */
  lemma CutIsBoundary(s: seq<Byte>, limit: nat)
    requires Valid(s) && limit <= |s|
    ensures var at := SplitAt(s, limit);
            Boundary(s, at) && Valid(s[..at]) && Valid(s[at..]) && Valid(Rest(s, limit))
    ensures s[SplitAt(s, limit)..] == Trimmed(s[SplitAt(s, limit)..]) + Rest(s, limit)
  {
    var hard, at := Floor(s, limit), SplitAt(s, limit);
    ValidSplit(s, hard);
    if at != hard { LastSpaceInWindow(s, hard, at); }
    ValidSplit(s, at);
    TrimSplits(s[at..]);
    TrimJoins(s[at..]);
  }

  /** The walk back to a boundary takes at most three steps, so with a limit of four or
      more it never reaches zero. */
  lemma WalkBackIsShort(s: seq<Byte>, limit: nat)
    requires Valid(s) && limit <= |s|
    ensures limit - 3 <= Floor(s, limit) <= limit
    ensures limit >= 4 ==> SplitAt(s, limit) > 0
  {
    BoundaryWithinThree(s, limit);
    var j :| limit - 3 <= j <= limit && 0 <= j && Boundary(s, j);
    assert !(Floor(s, limit) < j);
  }

  /** When white space starts in the window after its first character, the cut is before the
      last of it. */
  lemma CutIsBeforeLastSpace(s: seq<Byte>, limit: nat, j: nat)
    requires Valid(s) && limit <= |s|
    requires 0 < j < Floor(s, limit) && SpaceAt(s, j)
    ensures SpaceAt(s, SplitAt(s, limit)) && j <= SplitAt(s, limit) < Floor(s, limit)
  {
    var hard := Floor(s, limit);
    ValidSplit(s, hard);
    SpaceInWindow(s, hard, j);
    LastSpaceIsLast(s[..hard], j);
    LastSpaceInWindow(s, hard, LastSpace(s[..hard]).value);
  }

  lemma SpaceInWindow(s: seq<Byte>, hard: nat, j: nat)
    requires Valid(s) && j < hard <= |s| && Boundary(s, hard) && SpaceAt(s, j)
    ensures Valid(s[..hard]) && SpaceAt(s[..hard], j)
  {
    ValidSplit(s, hard);
    BoundaryInFront(s, hard, j);
    ValidSplit(s[..hard], j);
    SliceFrom(s, hard, j);
    SpaceOfJoin(s[..hard][j..], s[hard..]);
  }

  lemma BoundaryInFront(s: seq<Byte>, hard: nat, j: nat)
    requires j < hard <= |s| && Boundary(s, j)
    ensures Boundary(s[..hard], j)
  {
  }

  lemma SliceFrom(s: seq<Byte>, hard: nat, j: nat)
    requires j < hard <= |s|
    ensures s[..hard][j..] != [] && s[j..] == s[..hard][j..] + s[hard..]
  {
  }

  lemma SpaceOfJoin(a: seq<Byte>, b: seq<Byte>)
    requires Valid(a) && a != [] && SpaceAhead(a + b)
    ensures SpaceAhead(a)
  {
    FrontOfJoin(a, b);
  }

  /** With no such white space it is at the largest boundary within the limit. */
  lemma CutIsAtLimit(s: seq<Byte>, limit: nat)
    requires Valid(s) && limit <= |s|
    requires forall j | 0 < j < Floor(s, limit) :: !SpaceAt(s, j)
    ensures SplitAt(s, limit) == Floor(s, limit)
  {
    var hard := Floor(s, limit);
    ValidSplit(s, hard);
    if LastSpace(s[..hard]).Some? { LastSpaceInWindow(s, hard, LastSpace(s[..hard]).value); }
  }

  /** The chunk is the text up to its last white space in the window, leading white space
      aside, or up to the largest boundary within the limit when there is none. */
  ghost predicate LatestCut(s: seq<Byte>, limit: nat, chunk: seq<Byte>)
    requires limit <= |s|
  {
    && |chunk| <= Floor(s, limit) && chunk == s[..|chunk|]
    && (forall j | |chunk| < j < Floor(s, limit) :: !SpaceAt(s, j))
    && if |chunk| < Floor(s, limit) then 0 < |chunk| && SpaceAt(s, |chunk|)
       else forall j | 0 < j < Floor(s, limit) :: !SpaceAt(s, j)
  }

  /** A cut prefers white space, and of that the last in the window. */
  lemma CutPrefersWhitespace(s: seq<Byte>, limit: nat)
    requires Valid(s) && limit <= |s|
    ensures LatestCut(s, limit, s[..SplitAt(s, limit)])
  {
    var at := SplitAt(s, limit);
    if j: nat :| 0 < j < Floor(s, limit) && SpaceAt(s, j) {
      CutIsBeforeLastSpace(s, limit, j);
      forall i | at < i < Floor(s, limit) ensures !SpaceAt(s, i) {
        if SpaceAt(s, i) { CutIsBeforeLastSpace(s, limit, i); }
      }
    } else {
      CutIsAtLimit(s, limit);
    }
  }

  // ── When the loop ends ────────────────────────────────────────────────────

  lemma {:induction false} ShortFits(s: seq<Byte>, limit: nat)
    requires Valid(s) && |s| <= limit
    ensures Fits(s, limit)
  {
    if s != [] { ShortFits(s[CharLen(s)..], limit); }
  }

  /** No character is wider than four bytes. */
  lemma {:induction false} FourBytesFitAnything(s: seq<Byte>, limit: nat)
    requires Valid(s) && limit >= 4
    ensures Fits(s, limit)
  {
    if s != [] { FourBytesFitAnything(s[CharLen(s)..], limit); }
  }

  lemma {:induction false} FitsJoin(a: seq<Byte>, b: seq<Byte>, limit: nat)
    requires Valid(a) && Valid(b) && Valid(a + b)
    ensures Fits(a + b, limit) <==> Fits(a, limit) && Fits(b, limit)
  {
    if a == [] {
      assert a + b == b;
    } else {
      var n := CharLen(a);
      FrontOfJoin(a, b);
      assert (a + b)[n..] == a[n..] + b;
      FitsJoin(a[n..], b, limit);
    }
  }

  lemma {:induction false} SpaceFits(s: seq<Byte>, limit: nat)
    requires AllSpace(s)
    ensures Valid(s) && Fits(s, limit)
  {
    if s != [] { SpaceFits(s[CharLen(s)..], limit); }
  }

  /** A character too wide for a chunk is never consumed. */
  lemma RestFits(s: seq<Byte>, limit: nat)
    requires Valid(s) && limit <= |s|
    ensures Valid(Rest(s, limit)) && (Fits(Rest(s, limit), limit) <==> Fits(s, limit))
  {
    var at := SplitAt(s, limit);
    var chunk, rest := s[..at], s[at..];
    CutIsBoundary(s, limit);
    assert s == chunk + rest;
    FitsJoin(chunk, rest, limit);
    ShortFits(chunk, limit);
    TrimFits(rest, limit);
  }

  lemma TrimFits(s: seq<Byte>, limit: nat)
    requires Valid(s)
    ensures Valid(TrimStart(s)) && (Fits(TrimStart(s), limit) <==> Fits(s, limit))
  {
    TrimSplits(s);
    TrimJoins(s);
    SpaceFits(Trimmed(s), limit);
    FitsJoin(Trimmed(s), TrimStart(s), limit);
  }

  /** When every character fits, each turn of the loop shortens the text. */
  lemma RestShrinks(s: seq<Byte>, limit: nat)
    requires Valid(s) && 0 < limit < |s| && Fits(s, limit)
    ensures |Rest(s, limit)| < |s|
  {
    var at := SplitAt(s, limit);
    CutIsBoundary(s, limit);
    TrimSplits(s[at..]);
    if at == 0 {
      assert s[0..] == s;
      assert CharLen(s) > limit by {
        if CharLen(s) <= limit { assert Boundary(s, CharLen(s)) by { NextIsBoundary(s); } }
      }
    }
  }

  lemma NextIsBoundary(s: seq<Byte>)
    requires Valid(s) && s != []
    ensures Boundary(s, CharLen(s))
  {
    var n := CharLen(s);
    if n < |s| { assert s[n..][0] == s[n]; }
  }

  /** The text left after `k` turns of the loop. */
  function After(s: seq<Byte>, limit: nat, k: nat): (r: Option<seq<Byte>>)
    requires Valid(s)
    ensures r.Some? ==> Valid(r.value)
    decreases k
  {
    if k == 0 then Some(s)
    else if |s| <= limit then None
    else
      CutIsBoundary(s, limit);
      After(Rest(s, limit), limit, k - 1)
  }

  ghost predicate Ends(s: seq<Byte>, limit: nat)
    requires Valid(s)
  {
    exists k: nat :: After(s, limit, k).Some? && |After(s, limit, k).value| <= limit
  }

  /** The loop ends exactly on the texts whose non-space characters all fit a chunk. */
  lemma LoopEndsIffCharactersFit(s: seq<Byte>, limit: nat)
    requires Valid(s) && limit > 0
    ensures Ends(s, limit) <==> Fits(s, limit)
  {
    if Fits(s, limit) { FittingTextEnds(s, limit); }
    if Ends(s, limit) {
      var k: nat :| After(s, limit, k).Some? && |After(s, limit, k).value| <= limit;
      EndedTextFits(s, limit, k);
    }
  }

  lemma {:induction false} FittingTextEnds(s: seq<Byte>, limit: nat)
    requires Valid(s) && limit > 0 && Fits(s, limit)
    ensures Ends(s, limit)
    decreases |s|
  {
    if |s| <= limit {
      assert After(s, limit, 0) == Some(s);
    } else {
      RestFits(s, limit);
      RestShrinks(s, limit);
      FittingTextEnds(Rest(s, limit), limit);
      var k: nat :| After(Rest(s, limit), limit, k).Some? && |After(Rest(s, limit), limit, k).value| <= limit;
      assert After(s, limit, k + 1) == After(Rest(s, limit), limit, k);
    }
  }

  lemma {:induction false} EndedTextFits(s: seq<Byte>, limit: nat, k: nat)
    requires Valid(s) && After(s, limit, k).Some? && |After(s, limit, k).value| <= limit
    ensures Fits(s, limit)
    decreases k
  {
    if |s| <= limit {
      ShortFits(s, limit);
    } else {
      RestFits(s, limit);
      EndedTextFits(Rest(s, limit), limit, k - 1);
    }
  }

  /** A wide character and a small limit: "é" and "a", cut to single bytes, never ends. */
  lemma WideCharacterNeverEnds()
    ensures Valid([0xC3, 0xA9, 0x61]) && !Ends([0xC3, 0xA9, 0x61], 1)
  {
    var s := [0xC3, 0xA9, 0x61];
    assert s[2..] == [0x61] && [0x61][1..] == [];
    assert Valid([0x61]);
    LoopEndsIffCharactersFit(s, 1);
  }

  // ── The chunks ────────────────────────────────────────────────────────────

  /** The chunks of a text on which the loop ends. */
  function Chunks(s: seq<Byte>, limit: nat): seq<seq<Byte>>
    requires Valid(s) && limit > 0 && Fits(s, limit)
    decreases |s|
  {
    if s == [] then []
    else if |s| <= limit then [s]
    else
      RestFits(s, limit);
      RestShrinks(s, limit);
      [s[..SplitAt(s, limit)]] + Chunks(Rest(s, limit), limit)
  }

  /** The white space dropped after each chunk. */
  ghost function Gaps(s: seq<Byte>, limit: nat): (g: seq<seq<Byte>>)
    requires Valid(s) && limit > 0 && Fits(s, limit)
    ensures |g| == |Chunks(s, limit)|
    decreases |s|
  {
    if s == [] then []
    else if |s| <= limit then [[]]
    else
      RestFits(s, limit);
      RestShrinks(s, limit);
      [Trimmed(s[SplitAt(s, limit)..])] + Gaps(Rest(s, limit), limit)
  }

  ghost function Interleave(chunks: seq<seq<Byte>>, gaps: seq<seq<Byte>>): seq<Byte>
    requires |chunks| == |gaps|
  {
    if chunks == [] then [] else chunks[0] + gaps[0] + Interleave(chunks[1..], gaps[1..])
  }

  /** Every chunk is well-formed and within the limit, and with a limit of at least four
      bytes none is empty. */
  lemma {:induction false} ChunksAreDeliverable(s: seq<Byte>, limit: nat, c: seq<Byte>)
    requires Valid(s) && limit > 0 && Fits(s, limit)
    requires c in Chunks(s, limit)
    ensures Valid(c) && |c| <= limit && (limit >= 4 ==> c != [])
    decreases |s|
  {
    if |s| > limit {
      CutIsBoundary(s, limit);
      WalkBackIsShort(s, limit);
      RestFits(s, limit);
      RestShrinks(s, limit);
      if c in Chunks(Rest(s, limit), limit) { ChunksAreDeliverable(Rest(s, limit), limit, c); }
    }
  }

  /** The text is its chunks in order with only white space dropped between them. */
  lemma {:induction false} OnlySpaceIsLost(s: seq<Byte>, limit: nat)
    requires Valid(s) && limit > 0 && Fits(s, limit)
    ensures Interleave(Chunks(s, limit), Gaps(s, limit)) == s
    ensures forall k | 0 <= k < |Gaps(s, limit)| :: AllSpace(Gaps(s, limit)[k])
    decreases |s|
  {
    if |s| > limit {
      CutIsBoundary(s, limit);
      RestFits(s, limit);
      RestShrinks(s, limit);
      OnlySpaceIsLost(Rest(s, limit), limit);
      OneCut(s, limit);
    } else if s != [] {
      assert [s][1..] == [];
      assert s + [] + [] == s;
    }
  }

  lemma OneCut(s: seq<Byte>, limit: nat)
    requires Valid(s) && 0 < limit < |s| && Fits(s, limit) && Valid(Rest(s, limit)) && Fits(Rest(s, limit), limit)
    requires Interleave(Chunks(Rest(s, limit), limit), Gaps(Rest(s, limit), limit)) == Rest(s, limit)
    requires forall k | 0 <= k < |Gaps(Rest(s, limit), limit)| :: AllSpace(Gaps(Rest(s, limit), limit)[k])
    ensures Interleave(Chunks(s, limit), Gaps(s, limit)) == s
    ensures forall k | 0 <= k < |Gaps(s, limit)| :: AllSpace(Gaps(s, limit)[k])
  {
    var at, rest := SplitAt(s, limit), Rest(s, limit);
    var gap := Trimmed(s[at..]);
    CutIsBoundary(s, limit);
    TrimSplits(s[at..]);
    assert Chunks(s, limit) == [s[..at]] + Chunks(rest, limit);
    assert Gaps(s, limit) == [gap] + Gaps(rest, limit);
    InterleaveCons(s[..at], gap, Chunks(rest, limit), Gaps(rest, limit));
    Assemble(s, at, gap, rest);
  }

  lemma InterleaveCons(chunk: seq<Byte>, gap: seq<Byte>, chunks: seq<seq<Byte>>, gaps: seq<seq<Byte>>)
    requires |chunks| == |gaps|
    ensures Interleave([chunk] + chunks, [gap] + gaps) == chunk + gap + Interleave(chunks, gaps)
  {
    assert ([chunk] + chunks)[1..] == chunks && ([gap] + gaps)[1..] == gaps;
  }

  lemma Assemble(s: seq<Byte>, at: nat, gap: seq<Byte>, rest: seq<Byte>)
    requires at <= |s| && s[at..] == gap + rest
    ensures s[..at] + gap + rest == s
  {
    assert s == s[..at] + s[at..];
  }

  /** No chunk but the first starts with white space. */
  lemma {:induction false} LaterChunksStartWithText(s: seq<Byte>, limit: nat, k: nat)
    requires Valid(s) && limit > 0 && Fits(s, limit)
    requires k < |Chunks(s, limit)| && (k > 0 || !SpaceAhead(s))
    ensures !SpaceAhead(Chunks(s, limit)[k])
    decreases |s|
  {
    if |s| > limit {
      var at := SplitAt(s, limit);
      CutIsBoundary(s, limit);
      TrimSplits(s[at..]);
      RestFits(s, limit);
      RestShrinks(s, limit);
      if k > 0 {
        LaterChunksStartWithText(Rest(s, limit), limit, k - 1);
      } else if at > 0 {
        BoundaryAhead(s, at);
        FrontOfTake(s, at);
      }
    }
  }

  /** Chunk `k` is the rest of the text, when that fits; otherwise the rest up to its last
      white space within the limit, or up to the limit when it has none. So no chunk but the
      last could have run on to a later white space, and none stops short without one. */
  lemma {:induction false} EveryCutIsLatest(s: seq<Byte>, limit: nat, k: nat)
    requires Valid(s) && limit > 0 && Fits(s, limit) && k < |Chunks(s, limit)|
    ensures After(s, limit, k).Some?
    ensures var rest, chunk := After(s, limit, k).value, Chunks(s, limit)[k];
            && IsSuffix(rest, s)
            && if |rest| <= limit then chunk == rest && k + 1 == |Chunks(s, limit)| else LatestCut(rest, limit, chunk)
    decreases k
  {
    if |s| > limit {
      RestFits(s, limit);
      RestShrinks(s, limit);
      if k > 0 {
        EveryCutIsLatest(Rest(s, limit), limit, k - 1);
        RestIsSuffix(s, limit, After(s, limit, k).value);
      } else {
        CutPrefersWhitespace(s, limit);
      }
    }
  }

  predicate IsSuffix(a: seq<Byte>, s: seq<Byte>) {
    |a| <= |s| && s[|s| - |a|..] == a
  }

  lemma RestIsSuffix(s: seq<Byte>, limit: nat, a: seq<Byte>)
    requires Valid(s) && limit <= |s| && IsSuffix(a, Rest(s, limit))
    ensures IsSuffix(a, s)
  {
    CutIsBoundary(s, limit);
    CutLeavesSuffix(s, SplitAt(s, limit), Trimmed(s[SplitAt(s, limit)..]), Rest(s, limit), a);
  }

  lemma CutLeavesSuffix(s: seq<Byte>, at: nat, gap: seq<Byte>, rest: seq<Byte>, a: seq<Byte>)
    requires at <= |s| && s[at..] == gap + rest && IsSuffix(a, rest)
    ensures IsSuffix(a, s)
  {
    SuffixBehind(gap, rest, a);
    assert s == s[..at] + s[at..];
    SuffixBehind(s[..at], s[at..], a);
  }

  lemma SuffixBehind(front: seq<Byte>, s: seq<Byte>, a: seq<Byte>)
    requires IsSuffix(a, s)
    ensures IsSuffix(a, front + s)
  {
    assert (front + s)[|front| + |s| - |a|..] == s[|s| - |a|..];
  }

  // ── The method ────────────────────────────────────────────────────────────

  /** The walk back from the limit to a character boundary. */
  method WalkBack(s: seq<Byte>, limit: nat) returns (hard: nat)
    requires limit <= |s|
    ensures hard == Floor(s, limit)
  {
    hard := limit;
    while hard > 0 && !Boundary(s, hard)
      invariant hard <= limit && Floor(s, limit) == Floor(s, hard)
    {
      hard := hard - 1;
    }
  }

  lemma ChunkStep(s: seq<Byte>, limit: nat, done: seq<seq<Byte>>)
    requires Valid(s) && 0 < limit < |s| && Fits(s, limit)
    ensures var rest := Rest(s, limit);
            && Valid(rest) && Fits(rest, limit) && |rest| < |s|
            && done + Chunks(s, limit) == done + [s[..SplitAt(s, limit)]] + Chunks(rest, limit)
  {
    RestFits(s, limit);
    RestShrinks(s, limit);
  }

  /** The loop needs a text whose characters fit, or a limit that does not split. */
  method Chunk(configured: Option<nat>, text: seq<Byte>) returns (chunks: seq<seq<Byte>>)
    requires Valid(text)
    requires configured.Some? && 0 < configured.value < |text| ==> Fits(text, configured.value)
    ensures configured.None? || configured.value == 0 || |text| <= configured.value ==> chunks == [text]
    ensures configured.Some? && 0 < configured.value < |text| ==> chunks == Chunks(text, configured.value)
  {
    if configured.None? {
      return [text];
    }
    var limit := configured.value;
    if limit == 0 || |text| <= limit {
      return [text];
    }
    chunks := [];
    var remaining := text;
    while remaining != []
      invariant Valid(remaining) && Fits(remaining, limit)
      invariant chunks + Chunks(remaining, limit) == Chunks(text, limit)
      decreases |remaining|
    {
      if |remaining| <= limit {
        chunks := chunks + [remaining];
        break;
      }
      var hard := WalkBack(remaining, limit);
      ValidSplit(remaining, hard);
      var ws := LastSpace(remaining[..hard]);
      var splitAt := if ws.None? || ws.value == 0 then hard else ws.value;
      ChunkStep(remaining, limit, chunks);
      chunks := chunks + [remaining[..splitAt]];
      remaining := TrimStart(remaining[splitAt..]);
    }
  }
}
