/**
  `contains_alphabetic` of `assembler/src/utils.rs`: whether an A-instruction
  operand holds a letter, which is how the assembler tells a symbol
  (`@LOOP`, `@R0`) from a number (`@17`).
 */
module AsmUtils {
  import opened Text

  /** `char::is_alphabetic`, on the ASCII letters. */
  predicate IsAlphabetic(c: char) {
    ('a' <= c <= 'z') || ('A' <= c <= 'Z')
  }

  /** Some character of the word is a letter. */
  predicate HasLetter(word: string) {
    exists i | 0 <= i < |word| :: IsAlphabetic(word[i])
  }

  /** The scan of `contains_alphabetic`: a flag set by every letter met. */
  method ContainsAlphabetic(word: string) returns (hasLetter: bool)
    ensures hasLetter <==> HasLetter(word)
  {
    hasLetter := false;
    for k := 0 to |word|
      invariant hasLetter <==> exists i | 0 <= i < k :: IsAlphabetic(word[i])
    {
      if IsAlphabetic(word[k]) {
        hasLetter := true;
      }
    }
  }

  /** Decimal numerals hold no letter, so they are never taken for symbols. */
  lemma NumeralsHaveNoLetter(word: string)
    requires AllDigits(word)
    ensures !HasLetter(word)
  {
    forall i | 0 <= i < |word| ensures !IsAlphabetic(word[i]) {
      assert IsDigit(word[i]);
    }
  }

  /** A word with a letter keeps it whatever is written around it. */
  lemma LetterSurvivesConcat(pre: string, word: string, post: string)
    requires HasLetter(word)
    ensures HasLetter(pre + word + post)
  {
    var i :| 0 <= i < |word| && IsAlphabetic(word[i]);
    assert (pre + word + post)[|pre| + i] == word[i];
  }
}
