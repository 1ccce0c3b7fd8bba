/** Text compared without case, letter by letter, and what the lower-casing code makes of it. */
module Letters {
  import opened Bytes
  import opened Ascii

  const LOWER_LETTERS: string := "abcdefghijklmnopqrstuvwxyz"
  const UPPER_LETTERS: string := "ABCDEFGHIJKLMNOPQRSTUVWXYZ"

  /** The two cases of one letter. */
  predicate Cases(lower: char, upper: char) {
    exists k :: 0 <= k < 26 && LOWER_LETTERS[k] == lower && UPPER_LETTERS[k] == upper
  }

  predicate SameLetter(c: char, d: char) { c == d || Cases(c, d) || Cases(d, c) }

  predicate SameText(s: bytes, t: bytes) { |s| == |t| && forall i :: 0 <= i < |s| ==> SameLetter(s[i], t[i]) }

  predicate StandsAt(s: bytes, word: bytes, i: int) {
    0 <= i && i + |word| <= |s| && SameText(s[i..i + |word|], word)
  }

  /** The word stands somewhere in the text, in any case. */
  predicate Mentions(s: bytes, word: bytes) { exists i :: 0 <= i <= |s| && StandsAt(s, word, i) }

  lemma CasesAre(lower: char, upper: char)
    ensures Cases(lower, upper) <==> 'a' <= lower <= 'z' && upper as int == lower as int - 32
  {
    if Cases(lower, upper) {
      var k :| 0 <= k < 26 && LOWER_LETTERS[k] == lower && UPPER_LETTERS[k] == upper;
      LetterAt(k);
    }
    if 'a' <= lower <= 'z' && upper as int == lower as int - 32 { LetterAt(lower as int - 'a' as int); }
  }

  lemma LetterAt(k: int)
    requires 0 <= k < 26
    ensures LOWER_LETTERS[k] as int == 'a' as int + k && UPPER_LETTERS[k] as int == 'A' as int + k
  {}

  lemma LetterLower(c: char, d: char)
    ensures SameLetter(c, d) <==> LowerChar(c) == LowerChar(d)
  {
    CasesAre(c, d);
    CasesAre(d, c);
    hide Cases;
  }

  /** Two texts lower-case alike exactly when they are the same but for case. */
  lemma LowerSame(s: bytes, t: bytes)
    ensures Lower(s) == Lower(t) <==> SameText(s, t)
  {
    hide SameLetter, LowerChar;
    forall c, d ensures SameLetter(c, d) <==> LowerChar(c) == LowerChar(d) { LetterLower(c, d); }
    if Lower(s) == Lower(t) {
      assert |s| == |Lower(s)| == |t|;
      forall i | 0 <= i < |s| ensures SameLetter(s[i], t[i]) { assert Lower(s)[i] == Lower(t)[i]; }
    }
  }

  lemma LowerSlice(s: bytes, i: nat, n: nat)
    requires i + n <= |s|
    ensures Lower(s)[i..i + n] == Lower(s[i..i + n])
  {}

  /** Searching the lower-cased text for a lower-case word finds it in any case. */
  lemma MentionsLower(s: bytes, word: bytes)
    requires IsLower(word)
    ensures Contains(Lower(s), word) <==> Mentions(s, word)
  {
    hide SameText;
    forall i | 0 <= i <= |s| ensures At(Lower(s), word, i) <==> StandsAt(s, word, i) {
      if i + |word| <= |s| {
        LowerSlice(s, i, |word|);
        LowerSame(s[i..i + |word|], word);
      }
    }
    hide At, StandsAt, Lower;
    var r := Find(Lower(s), word);
    if Contains(Lower(s), word) { FoundAt(Lower(s), word); }
    if Mentions(s, word) {
      var i :| 0 <= i <= |s| && StandsAt(s, word, i);
      assert At(Lower(s), word, i);
    }
  }

  lemma FoundAt(s: bytes, word: bytes)
    requires Contains(s, word)
    ensures 0 <= Find(s, word) <= |s| && At(s, word, Find(s, word))
  {
  }
}
