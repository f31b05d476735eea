/** The concrete vectors of the cipher's test suite, proved of the model:
    normalisation, key expansion, encryption, decryption, and the stripping of
    non-letters.

    Most vector lemmas take their strings as parameters fixed by `requires`
    (`requires s == "Hello, World!"`) rather than writing the literals in the
    `ensures`: on a literal argument the verifier unrolls `PrepareText` all
    the way down, which is too costly for texts longer than a few characters.
    Texts are normalised word by word instead: a run of letters followed by
    non-letters normalises to the run, upper-cased. */
module VigenereCipherVectors {
  import opened VigenereCipher
  import opened VigenereCipherProperties

  // ---------------------------------------------------------------------------
  // Normalisation

  /** The two halves of `s` split at `k` make up `s`. Kept apart from
      `PrepareTextSplit`, whose context makes this step costly. */
  lemma SplitJoin(s: string, k: nat)
    requires k <= |s|
    ensures s[..k] + s[k..] == s
  {
  }

  /** Normalising `s` in two pieces split at `k`. */
  lemma PrepareTextSplit(s: string, k: nat)
    requires k <= |s|
    ensures PrepareText(s) == PrepareText(s[..k]) + PrepareText(s[k..])
  {
    SplitJoin(s, k);
    PrepareTextConcat(s[..k], s[k..]);
  }

  /** A word of `k` letters followed by non-letters only normalises to the
      word, upper-cased. */
  lemma {:induction false} PrepareTextWord(s: string, k: nat)
    requires k <= |s|
    requires forall i :: 0 <= i < k ==> IsAlpha(s[i])
    requires forall i :: k <= i < |s| ==> !IsAlpha(s[i])
    ensures PrepareText(s) == ToUpper(s[..k])
  {
    if k == 0 {
      PrepareTextEmpty(s);
    } else {
      PrepareTextWord(s[1..], k - 1);
      assert s[1..][..k - 1] == s[1..k];
      assert ToUpper(s[..k]) == [Upper(s[0])] + ToUpper(s[1..k]);
    }
  }

  lemma PrepareTextVectorPunctuation(s: string)
    requires s == "Hello, World!"
    ensures PrepareText(s) == "HELLOWORLD"
  {
    PrepareTextSplit(s, 7);
    PrepareTextWord(s[..7], 5);
    PrepareTextWord(s[7..], 5);
  }

  lemma PrepareTextVectorDigits(s: string)
    requires s == "ABC 123"
    ensures PrepareText(s) == "ABC"
  {
    PrepareTextWord(s, 3);
  }

  lemma PrepareTextVectorSymbols(s: string)
    requires s == "Test@#$Case"
    ensures PrepareText(s) == "TESTCASE"
  {
    PrepareTextSplit(s, 7);
    PrepareTextWord(s[..7], 4);
    PrepareTextWord(s[7..], 4);
  }

  /** Normalising the last two words of the mixed-case vector. */
  lemma PrepareTextCaseText(s: string)
    requires s == "CASE text"
    ensures PrepareText(s) == "CASETEXT"
  {
    PrepareTextSplit(s, 5);
    PrepareTextWord(s[..5], 4);
    PrepareTextWord(s[5..], 4);
  }

  lemma PrepareTextVectorMixedCase(s: string)
    requires s == "Mixed CASE text"
    ensures PrepareText(s) == "MIXEDCASETEXT"
  {
    PrepareTextSplit(s, 6);
    PrepareTextWord(s[..6], 5);
    PrepareTextCaseText(s[6..]);
  }

  lemma PrepareTextVectorEmpty(s: string)
    requires s == ""
    ensures PrepareText(s) == ""
  {
  }

  // ---------------------------------------------------------------------------
  // Key expansion

  /** A key of letters expands to `expected` when `expected` has the message
      length and repeats the key letter by letter. */
  lemma PrepareKeyLetterwise(key: string, n: nat, expected: string)
    requires IsNormalized(key) && key != []
    requires |expected| == n
    requires forall i :: 0 <= i < n ==> expected[i] == key[i % |key|]
    ensures PrepareKey(key, n) == Success(expected)
  {
    PrepareTextOfNormalized(key);
    assert PrepareKey(key, n).value == expected;
  }

  lemma PrepareKeyVectors()
    ensures PrepareKey("KEY", 5) == Success("KEYKE")
    ensures PrepareKey("LEMON", 12) == Success("LEMONLEMONLE")
    ensures PrepareKey("A", 4) == Success("AAAA")
    ensures PrepareKey("LONG", 2) == Success("LO")
  {
    PrepareKeyLetterwise("KEY", 5, "KEYKE");
    var lemon, expanded := "LEMON", "LEMONLEMONLE";
    forall i | 0 <= i < 12
      ensures expanded[i] == lemon[i % 5]
    {
      assert i in {0, 1, 2, 3, 4, 5, 6, 7, 8, 9, 10, 11};
    }
    PrepareKeyLetterwise(lemon, 12, expanded);
    PrepareKeyLetterwise("A", 4, "AAAA");
    PrepareKeyLetterwise("LONG", 2, "LO");
  }

  // ---------------------------------------------------------------------------
  // Encryption and decryption

  /** A text of letters encrypts to `expected` when each letter of `expected`
      is the table entry for the matching plain letter and cyclic key letter. */
  lemma EncryptLetterwise(text: string, key: string, expected: string)
    requires IsNormalized(text) && IsNormalized(key) && key != []
    requires |expected| == |text|
    requires forall i :: 0 <= i < |text| ==> expected[i] == Shift(text[i], key[i % |key|])
    ensures EncryptText(text, key) == Success(expected)
  {
    PrepareTextOfNormalized(text);
    PrepareTextOfNormalized(key);
    assert EncryptText(text, key).value == expected;
  }

  lemma EncryptVectorHello(plaintext: string, key: string, ciphertext: string)
    requires plaintext == "HELLO" && key == "KEY" && ciphertext == "RIJVS"
    ensures EncryptText(plaintext, key) == Success(ciphertext)
  {
    forall i | 0 <= i < |plaintext|
      ensures ciphertext[i] == Shift(plaintext[i], key[i % |key|])
    {
      assert i in {0, 1, 2, 3, 4};
    }
    EncryptLetterwise(plaintext, key, ciphertext);
  }

  lemma EncryptVectorLemon(plaintext: string, key: string, ciphertext: string)
    requires plaintext == "ATTACKATDAWN" && key == "LEMON" && ciphertext == "LXFOPVEFRNHR"
    ensures EncryptText(plaintext, key) == Success(ciphertext)
  {
    forall i | 0 <= i < |plaintext|
      ensures ciphertext[i] == Shift(plaintext[i], key[i % |key|])
    {
      assert i in {0, 1, 2, 3, 4, 5, 6, 7, 8, 9, 10, 11};
    }
    EncryptLetterwise(plaintext, key, ciphertext);
  }

  lemma DecryptVectorHello(ciphertext: string, key: string, plaintext: string)
    requires ciphertext == "RIJVS" && key == "KEY" && plaintext == "HELLO"
    ensures DecryptText(ciphertext, key) == Success(plaintext)
  {
    EncryptVectorHello(plaintext, key, ciphertext);
    RoundTrip(plaintext, key);
    PrepareTextOfNormalized(plaintext);
  }

  lemma DecryptVectorLemon(ciphertext: string, key: string, plaintext: string)
    requires ciphertext == "LXFOPVEFRNHR" && key == "LEMON" && plaintext == "ATTACKATDAWN"
    ensures DecryptText(ciphertext, key) == Success(plaintext)
  {
    EncryptVectorLemon(plaintext, key, ciphertext);
    RoundTrip(plaintext, key);
    PrepareTextOfNormalized(plaintext);
  }

  /** Digits, spaces and punctuation in the plaintext are dropped. */
  lemma EncryptVectorSpecialCharacters(plaintext: string, letters: string, key: string)
    requires plaintext == "Hello, World! 123" && letters == "HELLOWORLD" && key == "KEY"
    ensures EncryptText(plaintext, key) == EncryptText(letters, key)
  {
    PrepareTextSplit(plaintext, 13);
    PrepareTextVectorPunctuation(plaintext[..13]);
    PrepareTextWord(plaintext[13..], 0);
    PrepareTextOfNormalized(letters);
    assert PrepareText(plaintext) == PrepareText(letters);
  }

  /** The test suite's third encryption vector cannot hold: the plaintext has
      17 letters, so its ciphertext has 17, not 16. */
  lemma EncryptVectorCodeInconsistent(plaintext: string, key: string, ciphertext: string)
    requires plaintext == "PYTHONPROGRAMMING" && key == "CODE" && ciphertext == "RMLVSDEPVKFOCAKR"
    ensures EncryptText(plaintext, key) != Success(ciphertext)
  {
    PrepareTextOfNormalized(plaintext);
  }
}
