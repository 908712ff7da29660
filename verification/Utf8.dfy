/** UTF-8 as the chunker sees it: well-formedness (RFC 3629, section 4), character
    boundaries, and white space read from bytes. */
module Utf8 {
  import opened Prelude
  import Text

  type Byte = b: int | 0 <= b < 256

  /** A byte that continues a character. */
  predicate Tail(b: Byte) {
    0x80 <= b <= 0xBF
  }

  /** Length of the well-formed character at the front, or 0 when there is none. */
  function CharLen(s: seq<Byte>): (n: nat)
    ensures n <= |s| && n <= 4
    ensures forall k | 1 <= k < n :: Tail(s[k])
    ensures n > 0 ==> !Tail(s[0])
  {
    if |s| >= 1 && s[0] <= 0x7F then 1
    else if |s| >= 2 && 0xC2 <= s[0] <= 0xDF && Tail(s[1]) then 2
    else if |s| >= 3 && SecondOfThree(s[0], s[1]) && Tail(s[2]) then 3
    else if |s| >= 4 && SecondOfFour(s[0], s[1]) && Tail(s[2]) && Tail(s[3]) then 4
    else 0
  }

  predicate SecondOfThree(a: Byte, b: Byte) {
    || (a == 0xE0 && 0xA0 <= b <= 0xBF)
    || (0xE1 <= a <= 0xEC && Tail(b))
    || (a == 0xED && 0x80 <= b <= 0x9F)
    || (0xEE <= a <= 0xEF && Tail(b))
  }

  predicate SecondOfFour(a: Byte, b: Byte) {
    || (a == 0xF0 && 0x90 <= b <= 0xBF)
    || (0xF1 <= a <= 0xF3 && Tail(b))
    || (a == 0xF4 && 0x80 <= b <= 0x8F)
  }

  predicate Valid(s: seq<Byte>) {
    s != [] ==> CharLen(s) > 0 && Valid(s[CharLen(s)..])
  }

  function CodePoint(s: seq<Byte>): int
    requires CharLen(s) > 0
  {
    match CharLen(s)
    case 1 => s[0]
    case 2 => (s[0] as int - 0xC0) * 0x40 + Low(s[1])
    case 3 => (s[0] as int - 0xE0) * 0x1000 + Low(s[1]) * 0x40 + Low(s[2])
    case _ => (s[0] as int - 0xF0) * 0x40000 + Low(s[1]) * 0x1000 + Low(s[2]) * 0x40 + Low(s[3])
  }

  function Low(b: Byte): int {
    b as int - 0x80
  }

  /** The text starts with a white-space character. */
  predicate SpaceAhead(s: seq<Byte>) {
    CharLen(s) > 0 && Text.IsWhitespaceCode(CodePoint(s))
  }

  predicate AllSpace(s: seq<Byte>) {
    s != [] ==> SpaceAhead(s) && AllSpace(s[CharLen(s)..])
  }

  /** An offset that is not inside a character. */
  predicate Boundary(s: seq<Byte>, i: nat) {
    i == 0 || i == |s| || (i < |s| && !Tail(s[i]))
  }

  function TrimStart(s: seq<Byte>): seq<Byte> {
    if SpaceAhead(s) then TrimStart(s[CharLen(s)..]) else s
  }

  /** Offset of the last white-space character. */
  function LastSpace(s: seq<Byte>): (r: Option<nat>)
    requires Valid(s)
    ensures r.Some? ==> r.value < |s|
  {
    if s == [] then None
    else
      match LastSpace(s[CharLen(s)..])
      case Some(k) => Some(CharLen(s) + k)
      case None => if SpaceAhead(s) then Some(0) else None
  }

  // ── What a character is ───────────────────────────────────────────────────

  /** The code points that characters have: all but the surrogates. */
  predicate Scalar(c: int) {
    0 <= c < 0xD800 || 0xE000 <= c < 0x110000
  }

  /** A code point in UTF-8 (RFC 3629, section 3). */
  function Encode(c: int): seq<Byte>
    requires Scalar(c)
  {
    if c < 0x80 then [c]
    else if c < 0x800 then [0xC0 + c / 0x40, 0x80 + c % 0x40]
    else if c < 0x10000 then [0xE0 + c / 0x1000, 0x80 + c / 0x40 % 0x40, 0x80 + c % 0x40]
    else [0xF0 + c / 0x40000, 0x80 + c / 0x1000 % 0x40, 0x80 + c / 0x40 % 0x40, 0x80 + c % 0x40]
  }

  /** Encoded code points are read back as they were written. */
  lemma EncodedIsRead(c: int, more: seq<Byte>)
    requires Scalar(c)
    ensures CharLen(Encode(c) + more) == |Encode(c)| && CodePoint(Encode(c) + more) == c
  {
    if c >= 0x10000 {
      FourSextets(c);
      FourBytesRead(c, c / 0x40000, c / 0x1000 % 0x40, c / 0x40 % 0x40, c % 0x40, more);
    } else if c >= 0x800 {
      ThreeSextets(c);
    }
  }

  lemma FourBytesRead(c: int, w: int, x: int, y: int, z: int, more: seq<Byte>)
    requires 0x10000 <= c < 0x110000 && c == w * 0x40000 + x * 0x1000 + y * 0x40 + z
    requires 0 <= w && 0 <= x < 0x40 && 0 <= y < 0x40 && 0 <= z < 0x40
    ensures w <= 4
    ensures var s := [0xF0 + w, 0x80 + x, 0x80 + y, 0x80 + z] + more; CharLen(s) == 4 && CodePoint(s) == c
  {
  }

  lemma ThreeSextets(c: int)
    requires 0 <= c < 0x10000
    ensures c == c / 0x1000 * 0x1000 + c / 0x40 % 0x40 * 0x40 + c % 0x40
  {
    assert c / 0x40 / 0x40 == c / 0x1000;
  }

  lemma FourSextets(c: int)
    requires 0 <= c < 0x110000
    ensures c == c / 0x40000 * 0x40000 + c / 0x1000 % 0x40 * 0x1000 + c / 0x40 % 0x40 * 0x40 + c % 0x40
  {
    assert c / 0x40 / 0x40 == c / 0x1000 && c / 0x1000 / 0x40 == c / 0x40000;
  }

  /** And what is read as a character is the encoding of its code point. */
  lemma ReadIsEncoded(s: seq<Byte>)
    requires CharLen(s) > 0
    ensures Scalar(CodePoint(s)) && Encode(CodePoint(s)) == s[..CharLen(s)]
  {
    match CharLen(s) {
      case 1 =>
      case 2 => Sextets(s[0] - 0xC0, s[1] - 0x80);
      case 3 => ThreeBytesBack(s);
      case _ => FourBytesBack(s);
    }
  }

  lemma ThreeBytesBack(s: seq<Byte>)
    requires CharLen(s) == 3
    ensures Scalar(CodePoint(s)) && Encode(CodePoint(s)) == s[..3]
  {
    Sextets(s[0] - 0xE0, Low(s[1]));
    Sextets((s[0] - 0xE0) * 0x40 + Low(s[1]), Low(s[2]));
  }

  lemma FourBytesBack(s: seq<Byte>)
    requires CharLen(s) == 4
    ensures Scalar(CodePoint(s)) && Encode(CodePoint(s)) == s[..4]
  {
    Sextets(s[0] - 0xF0, Low(s[1]));
    Sextets((s[0] - 0xF0) * 0x40 + Low(s[1]), Low(s[2]));
    Sextets(((s[0] - 0xF0) * 0x40 + Low(s[1])) * 0x40 + Low(s[2]), Low(s[3]));
  }

  lemma Sextets(a: int, b: int)
    requires 0 <= b < 0x40
    ensures (a * 0x40 + b) / 0x40 == a && (a * 0x40 + b) % 0x40 == b
  {
  }

  // ── Splitting and joining ─────────────────────────────────────────────────

  /** What the front character is depends on its own bytes only. */
  lemma SameFront(a: seq<Byte>, b: seq<Byte>)
    requires 0 < CharLen(a) <= |b|
    requires forall k | 0 <= k < CharLen(a) :: a[k] == b[k]
    ensures CharLen(b) == CharLen(a) && CodePoint(b) == CodePoint(a)
  {
  }

  lemma FrontOfJoin(a: seq<Byte>, b: seq<Byte>)
    requires CharLen(a) > 0
    ensures CharLen(a + b) == CharLen(a) && SpaceAhead(a + b) == SpaceAhead(a)
  {
    SameFront(a, a + b);
  }

  lemma FrontOfTake(s: seq<Byte>, i: nat)
    requires 0 < CharLen(s) <= i <= |s|
    ensures CharLen(s[..i]) == CharLen(s) && SpaceAhead(s[..i]) == SpaceAhead(s)
  {
    SameFront(s, s[..i]);
  }

  lemma BoundaryAhead(s: seq<Byte>, i: nat)
    requires s != [] && CharLen(s) > 0 && 0 < i <= |s| && Boundary(s, i)
    ensures CharLen(s) <= i && Boundary(s[CharLen(s)..], i - CharLen(s))
  {
  }

  lemma {:induction false} ValidSplit(s: seq<Byte>, i: nat)
    requires Valid(s) && i <= |s| && Boundary(s, i)
    ensures Valid(s[..i]) && Valid(s[i..])
  {
    if i == 0 {
      assert s[..0] == [] && s[0..] == s;
    } else {
      var n := CharLen(s);
      BoundaryAhead(s, i);
      ValidSplit(s[n..], i - n);
      FrontOfTake(s, i);
      assert s[..i][n..] == s[n..][..i - n];
      assert s[n..][i - n..] == s[i..];
    }
  }

  /** From any offset of a well-formed text, a boundary is at most three bytes back. */
  lemma {:induction false} BoundaryWithinThree(s: seq<Byte>, i: nat)
    requires Valid(s) && i <= |s|
    ensures exists j | i - 3 <= j <= i && 0 <= j :: Boundary(s, j)
  {
    if i > 0 {
      var n := CharLen(s);
      if i < n {
        assert Boundary(s, 0);
      } else {
        BoundaryWithinThree(s[n..], i - n);
        var j :| i - n - 3 <= j <= i - n && 0 <= j && Boundary(s[n..], j);
        assert Boundary(s, j + n);
      }
    } else {
      assert Boundary(s, 0);
    }
  }

  // ── White space ───────────────────────────────────────────────────────────

  /** A white-space character starts at offset `i`. */
  predicate SpaceAt(s: seq<Byte>, i: nat) {
    i < |s| && Boundary(s, i) && SpaceAhead(s[i..])
  }

  /** The search finds a white-space character. */
  lemma {:induction false} LastSpaceIsSpace(s: seq<Byte>)
    requires Valid(s) && LastSpace(s).Some?
    ensures SpaceAt(s, LastSpace(s).value)
  {
    var rest := s[CharLen(s)..];
    if LastSpace(rest).Some? {
      var k := LastSpace(rest).value;
      LastSpaceIsSpace(rest);
      assert rest[k..] == s[CharLen(s) + k..] && rest[k] == s[CharLen(s) + k];
    } else {
      assert s[0..] == s;
    }
  }

  /** No white-space character starts after the one it finds. */
  lemma {:induction false} LastSpaceIsLast(s: seq<Byte>, j: nat)
    requires Valid(s) && SpaceAt(s, j)
    ensures LastSpace(s).Some? && j <= LastSpace(s).value
  {
    var n := CharLen(s);
    if j == 0 {
      assert s[0..] == s;
    } else {
      BoundaryAhead(s, j);
      assert s[n..][j - n..] == s[j..];
      LastSpaceIsLast(s[n..], j - n);
    }
  }

  /** The white space that trimming takes away. */
  ghost function Trimmed(s: seq<Byte>): seq<Byte>
  {
    if SpaceAhead(s) then s[..CharLen(s)] + Trimmed(s[CharLen(s)..]) else []
  }

  lemma {:induction false} TrimJoins(s: seq<Byte>)
    ensures Trimmed(s) + TrimStart(s) == s
  {
    if SpaceAhead(s) {
      var rest := s[CharLen(s)..];
      TrimJoins(rest);
      Rejoin(s, CharLen(s), Trimmed(rest), TrimStart(rest));
    }
  }

  lemma Rejoin(s: seq<Byte>, n: nat, a: seq<Byte>, b: seq<Byte>)
    requires n <= |s| && a + b == s[n..]
    ensures (s[..n] + a) + b == s
  {
    assert s == s[..n] + s[n..];
  }

  lemma {:induction false} TrimSplits(s: seq<Byte>)
    requires Valid(s)
    ensures Valid(TrimStart(s)) && !SpaceAhead(TrimStart(s)) && AllSpace(Trimmed(s))
  {
    if SpaceAhead(s) {
      TrimSplits(s[CharLen(s)..]);
      MoreSpace(s, Trimmed(s[CharLen(s)..]));
    }
  }

  lemma MoreSpace(s: seq<Byte>, more: seq<Byte>)
    requires SpaceAhead(s) && AllSpace(more)
    ensures AllSpace(s[..CharLen(s)] + more)
  {
    var n := CharLen(s);
    FrontOfTake(s, n);
    FrontOfJoin(s[..n], more);
    assert (s[..n] + more)[n..] == more;
  }
}
