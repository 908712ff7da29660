/** Reading a sender's answer to a plan. */
module Replies {
  import opened Text

  datatype Reply = Approve | Cancel | Unrecognised

  const APPROVE_WORDS := ["yes", "y", "approve", "approved", "ok", "okay", "go", "run"]

  const CANCEL_WORDS := ["no", "n", "cancel", "stop", "abort", "nope", "nevermind"]

  predicate Mark(c: char) {
    c == '.' || c == '!' || c == '?' || c == ','
  }

  function TrimMarks(s: string): string {
    if s != "" && Mark(s[|s| - 1]) then TrimMarks(s[..|s| - 1]) else s
  }

  function Classify(text: string): Reply {
    var cleaned := Lower(TrimMarks(Trim(text)));
    if exists c | c in cleaned :: IsWhitespace(c) then Unrecognised
    else if cleaned in APPROVE_WORDS then Approve
    else if cleaned in CANCEL_WORDS then Cancel
    else Unrecognised
  }

  // ── What counts as an answer ──────────────────────────────────────────────

  predicate AllBlank(s: string) {
    forall c | c in s :: IsWhitespace(c)
  }

  predicate AllMarks(s: string) {
    forall c | c in s :: c in ".!?,"
  }

  /** The text is `core` with blanks around it and marks only directly after it. */
  predicate Dressed(text: string, before: string, core: string, marks: string, after: string) {
    text == before + (core + (marks + after)) && AllBlank(before) && AllMarks(marks) && AllBlank(after)
  }

  const SMALL_LETTERS := "abcdefghijklmnopqrstuvwxyz"
  const CAPITAL_LETTERS := "ABCDEFGHIJKLMNOPQRSTUVWXYZ"

  /** The letter itself or its capital; the Kelvin sign counts as a capital `k`. */
  predicate SameLetter(c: char, letter: char) {
    c == letter || CapitalOf(c, letter) || (c == '\U{212A}' && letter == 'k')
  }

  predicate CapitalOf(c: char, letter: char) {
    exists k | 0 <= k < 26 :: c == CAPITAL_LETTERS[k] && letter == SMALL_LETTERS[k]
  }

  /** The word, each of its letters small or capital. */
  predicate Spells(text: string, word: string) {
    |text| == |word| && forall k | 0 <= k < |word| :: SameLetter(text[k], word[k])
  }

  /** The text is one of the words, alone, in any case. */
  ghost predicate LoneWord(text: string, words: seq<string>) {
    exists before, core, marks, after, word ::
      Dressed(text, before, core, marks, after) && word in words && Spells(core, word)
  }

  lemma AlphabetsAgree(k: nat)
    requires k < 26
    ensures SMALL_LETTERS[k] as int == 'a' as int + k && CAPITAL_LETTERS[k] as int == 'A' as int + k
  {
  }

  lemma CapitalIsShifted(c: char, letter: char)
    ensures CapitalOf(c, letter) <==> 'A' <= c <= 'Z' && letter as int == c as int + 32
  {
    if CapitalOf(c, letter) {
      var k :| 0 <= k < 26 && c == CAPITAL_LETTERS[k] && letter == SMALL_LETTERS[k];
      AlphabetsAgree(k);
    }
    if 'A' <= c <= 'Z' && letter as int == c as int + 32 {
      var k := c as int - 'A' as int;
      AlphabetsAgree(k);
      assert c == CAPITAL_LETTERS[k];
    }
  }

  lemma LowerIsLetter(c: char, letter: char)
    requires 'a' <= letter <= 'z'
    ensures LowerChar(c) == letter <==> SameLetter(c, letter)
  {
    CapitalIsShifted(c, letter);
  }

  /** Nothing but the capitals and the Kelvin sign changes when it is lowered. */
  lemma OnlyCapitalsLower(c: char)
    ensures LowerChar(c) != c <==> c == '\U{212A}' || exists k | 0 <= k < 26 :: c == CAPITAL_LETTERS[k]
  {
    if 'A' <= c <= 'Z' {
      AlphabetsAgree(c as int - 'A' as int);
      assert c == CAPITAL_LETTERS[c as int - 'A' as int];
    }
    if k :| 0 <= k < 26 && c == CAPITAL_LETTERS[k] { AlphabetsAgree(k); }
  }

  /** A text lowers to a word of letters exactly when it spells it. */
  lemma SpellsExactly(text: string, word: string)
    requires Letters(word)
    ensures Lower(text) == word <==> Spells(text, word)
  {
    forall k | 0 <= k < |text| && |text| == |word| ensures Lower(text)[k] == word[k] <==> SameLetter(text[k], word[k]) {
      assert word[k] in word;
      LowerIsLetter(text[k], word[k]);
    }
  }

  lemma {:induction false} TrimStartParts(s: string) returns (before: string)
    ensures s == before + TrimStart(s) && AllBlank(before)
  {
    if s != "" && IsWhitespace(s[0]) {
      var more := TrimStartParts(s[1..]);
      before := [s[0]] + more;
      assert s == [s[0]] + s[1..];
    } else {
      before := "";
    }
  }

  lemma {:induction false} TrimEndParts(s: string) returns (after: string)
    ensures s == TrimEnd(s) + after && AllBlank(after)
  {
    if s != "" && IsWhitespace(s[|s| - 1]) {
      var more := TrimEndParts(s[..|s| - 1]);
      after := more + [s[|s| - 1]];
      assert s == s[..|s| - 1] + [s[|s| - 1]];
    } else {
      after := "";
    }
  }

  lemma {:induction false} TrimMarksParts(s: string) returns (marks: string)
    ensures s == TrimMarks(s) + marks && AllMarks(marks)
  {
    if s != "" && Mark(s[|s| - 1]) {
      var more := TrimMarksParts(s[..|s| - 1]);
      marks := more + [s[|s| - 1]];
      assert s == s[..|s| - 1] + [s[|s| - 1]];
    } else {
      marks := "";
    }
  }

  lemma {:induction false} TrimStartSkips(before: string, s: string)
    requires AllBlank(before) && s != "" && !IsWhitespace(s[0])
    ensures TrimStart(before + s) == s
  {
    if before == "" {
      assert before + s == s;
    } else {
      assert before[0] in before && forall c | c in before[1..] :: c in before;
      TrimStartSkips(before[1..], s);
      assert (before + s)[1..] == before[1..] + s;
    }
  }

  lemma {:induction false} TrimEndSkips(s: string, after: string)
    requires AllBlank(after) && s != "" && !IsWhitespace(s[|s| - 1])
    ensures TrimEnd(s + after) == s
  {
    if after == "" {
      assert s + after == s;
    } else {
      var n := |after| - 1;
      assert after[n] in after && forall c | c in after[..n] :: c in after;
      TrimEndSkips(s, after[..n]);
      assert (s + after)[..|s + after| - 1] == s + after[..n];
    }
  }

  lemma {:induction false} TrimMarksSkips(s: string, marks: string)
    requires AllMarks(marks) && s != "" && !Mark(s[|s| - 1])
    ensures TrimMarks(s + marks) == s
  {
    if marks == "" {
      assert s + marks == s;
    } else {
      var n := |marks| - 1;
      assert marks[n] in marks && forall c | c in marks[..n] :: c in marks;
      TrimMarksSkips(s, marks[..n]);
      assert (s + marks)[..|s + marks| - 1] == s + marks[..n];
    }
  }

  predicate Letters(w: string) {
    w != "" && forall c | c in w :: 'a' <= c <= 'z'
  }

  lemma WordsAreLetters(w: string)
    requires w in APPROVE_WORDS || w in CANCEL_WORDS
    ensures Letters(w)
  {
  }

  /** Undressing finds the core. */
  lemma CoreIsFound(text: string, before: string, core: string, marks: string, after: string)
    requires Dressed(text, before, core, marks, after) && Letters(Lower(core))
    ensures TrimMarks(Trim(text)) == core
  {
    var low := Lower(core);
    assert low[0] in low && low[|core| - 1] in low;
    var n := core + marks;
    assert n[|n| - 1] in n && (marks != "" ==> n[|n| - 1] == marks[|marks| - 1] && marks[|marks| - 1] in marks);
    assert core + (marks + after) == n + after;
    TrimStartSkips(before, n + after);
    TrimEndSkips(n, after);
    TrimMarksSkips(core, marks);
  }

  lemma Undress(text: string) returns (before: string, marks: string, after: string)
    ensures Dressed(text, before, TrimMarks(Trim(text)), marks, after)
  {
    before := TrimStartParts(text);
    after := TrimEndParts(TrimStart(text));
    marks := TrimMarksParts(Trim(text));
    var core := TrimMarks(Trim(text));
    Regroup(core, marks, after);
    assert Trim(text) == core + marks && TrimStart(text) == Trim(text) + after;
  }

  lemma NoBlankInLetters(w: string)
    requires Letters(w)
    ensures !exists c | c in w :: IsWhitespace(c)
  {
  }

  /** A text approves exactly when it is a lone approve word: "yes but only $2" is not. */
  lemma ApproveExactly(text: string)
    ensures Classify(text) == Approve <==> LoneWord(text, APPROVE_WORDS)
  {
    if Classify(text) == Approve {
      var before, marks, after := Undress(text);
      var core := TrimMarks(Trim(text));
      WordsAreLetters(Lower(core));
      SpellsExactly(core, Lower(core));
      assert Dressed(text, before, core, marks, after) && Spells(core, Lower(core));
    }
    if LoneWord(text, APPROVE_WORDS) {
      var before, core, marks, after, word :|
        Dressed(text, before, core, marks, after) && word in APPROVE_WORDS && Spells(core, word);
      WordsAreLetters(word);
      SpellsExactly(core, word);
      CoreIsFound(text, before, core, marks, after);
      NoBlankInLetters(Lower(core));
    }
  }

  /** The same for cancelling. */
  lemma CancelExactly(text: string)
    ensures Classify(text) == Cancel <==> LoneWord(text, CANCEL_WORDS)
  {
    if Classify(text) == Cancel {
      var before, marks, after := Undress(text);
      var core := TrimMarks(Trim(text));
      WordsAreLetters(Lower(core));
      SpellsExactly(core, Lower(core));
      assert Dressed(text, before, core, marks, after) && Spells(core, Lower(core));
    }
    if LoneWord(text, CANCEL_WORDS) {
      var before, core, marks, after, word :|
        Dressed(text, before, core, marks, after) && word in CANCEL_WORDS && Spells(core, word);
      WordsAreLetters(word);
      SpellsExactly(core, word);
      CoreIsFound(text, before, core, marks, after);
      NoBlankInLetters(Lower(core));
      VocabulariesAreApart(Lower(core));
    }
  }

  lemma VocabulariesAreApart(w: string)
    requires w in CANCEL_WORDS
    ensures w !in APPROVE_WORDS
  {
  }

  lemma BareWord(word: string, words: seq<string>)
    requires word in words && Letters(word)
    ensures LoneWord(word, words)
  {
    assert word == "" + (word + ("" + ""));
    assert Dressed(word, "", word, "", "") && Spells(word, word);
  }

  /** A bare word is an answer. */
  lemma BareWordsCount()
    ensures Classify("yes") == Approve && Classify("no") == Cancel
  {
    assert "yes" == APPROVE_WORDS[0] && "no" == CANCEL_WORDS[0];
    WordsAreLetters("yes");
    WordsAreLetters("no");
    BareWord("yes", APPROVE_WORDS);
    BareWord("no", CANCEL_WORDS);
    ApproveExactly("yes");
    CancelExactly("no");
  }
}
