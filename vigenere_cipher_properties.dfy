/** Laws of the Vigenère cipher that relate several calls: normalisation is
    idempotent and ignores case, and decryption inverts encryption. */
module VigenereCipherProperties {
  import opened VigenereCipher

  /** `str.upper` on a whole string. */
  function ToUpper(s: string): (r: string)
    ensures |r| == |s|
  {
    seq(|s|, i requires 0 <= i < |s| => Upper(s[i]))
  }

  /** `str.lower` on a whole string. */
  function ToLower(s: string): (r: string)
    ensures |r| == |s|
  {
    seq(|s|, i requires 0 <= i < |s| => Lower(s[i]))
  }

  // ---------------------------------------------------------------------------
  // Normalisation

  /** A text of upper-case letters is left as it is. */
  lemma {:induction false} PrepareTextOfNormalized(s: string)
    requires IsNormalized(s)
    ensures PrepareText(s) == s
  {
    if s != [] {
      PrepareTextOfNormalized(s[1..]);
      assert s == [s[0]] + s[1..];
    }
  }

  /** Normalising twice is normalising once. */
  lemma PrepareTextIdempotent(s: string)
    ensures PrepareText(PrepareText(s)) == PrepareText(s)
  {
    PrepareTextOfNormalized(PrepareText(s));
  }

  /** Normalisation works piecewise: it keeps the relative order of the letters. */
  lemma {:induction false} PrepareTextConcat(a: string, b: string)
    ensures PrepareText(a + b) == PrepareText(a) + PrepareText(b)
  {
    if a != [] {
      assert (a + b)[0] == a[0];
      assert (a + b)[1..] == a[1..] + b;
      PrepareTextConcat(a[1..], b);
    } else {
      assert a + b == b;
    }
  }

  /** A text normalises to nothing exactly when it has no letter. */
  lemma {:induction false} PrepareTextEmpty(s: string)
    ensures PrepareText(s) == [] <==> forall i :: 0 <= i < |s| ==> !IsAlpha(s[i])
  {
    if s != [] {
      PrepareTextEmpty(s[1..]);
      assert forall i :: 1 <= i < |s| ==> s[i] == s[1..][i - 1];
    }
  }

  /** A character is in the normalised text exactly when it is the upper-case
      form of some letter of the input. */
  lemma {:induction false} PrepareTextMembership(s: string, c: char)
    ensures c in PrepareText(s) <==> exists i :: 0 <= i < |s| && IsAlpha(s[i]) && Upper(s[i]) == c
  {
    if s != [] {
      PrepareTextMembership(s[1..], c);
      if c in PrepareText(s[1..]) {
        var i :| 0 <= i < |s[1..]| && IsAlpha(s[1..][i]) && Upper(s[1..][i]) == c;
        assert s[i + 1] == s[1..][i];
      }
      if exists i :: 0 <= i < |s| && IsAlpha(s[i]) && Upper(s[i]) == c {
        var i :| 0 <= i < |s| && IsAlpha(s[i]) && Upper(s[i]) == c;
        if i > 0 {
          assert s[1..][i - 1] == s[i];
        }
      }
    }
  }

  /** Changing the case of a character keeps it a letter or a non-letter,
      and keeps its upper-case form. */
  lemma CaseOfChar(c: char)
    ensures IsAlpha(Upper(c)) == IsAlpha(c) && IsAlpha(Lower(c)) == IsAlpha(c)
    ensures IsAlpha(c) ==> Upper(Upper(c)) == Upper(c) && Upper(Lower(c)) == Upper(c)
  {
  }

  /** Upper-casing the input first changes nothing. */
  lemma {:induction false} PrepareTextUpper(s: string)
    ensures PrepareText(ToUpper(s)) == PrepareText(s)
  {
    if s != [] {
      var u := ToUpper(s);
      assert u[0] == Upper(s[0]);
      assert u[1..] == ToUpper(s[1..]);
      CaseOfChar(s[0]);
      PrepareTextUpper(s[1..]);
    }
  }

  /** Lower-casing the input first changes nothing. */
  lemma {:induction false} PrepareTextLower(s: string)
    ensures PrepareText(ToLower(s)) == PrepareText(s)
  {
    if s != [] {
      var l := ToLower(s);
      assert l[0] == Lower(s[0]);
      assert l[1..] == ToLower(s[1..]);
      CaseOfChar(s[0]);
      PrepareTextLower(s[1..]);
    }
  }

  // ---------------------------------------------------------------------------
  // Encryption and decryption

  /** Encryption and decryption see their inputs only through normalisation:
      case and non-letters in the text and in the key make no difference. */
  lemma TransformsNormalize(text: string, key: string)
    ensures EncryptText(text, key) == EncryptText(PrepareText(text), PrepareText(key))
    ensures DecryptText(text, key) == DecryptText(PrepareText(text), PrepareText(key))
  {
    PrepareTextIdempotent(text);
    PrepareTextIdempotent(key);
  }

  /** Encryption ignores case: upper- or lower-casing text and key first
      gives the same ciphertext. */
  lemma EncryptIgnoresCase(text: string, key: string)
    ensures EncryptText(ToUpper(text), ToUpper(key)) == EncryptText(text, key)
    ensures EncryptText(ToLower(text), ToLower(key)) == EncryptText(text, key)
  {
    PrepareTextUpper(text);
    PrepareTextUpper(key);
    PrepareTextLower(text);
    PrepareTextLower(key);
  }

  /** With a key that has letters, the empty text encrypts and decrypts to the
      empty text; with a key that has none, both fail even on the empty text. */
  lemma EmptyText(key: string)
    ensures PrepareText(key) != [] ==> EncryptText("", key) == Success("") && DecryptText("", key) == Success("")
    ensures PrepareText(key) == [] ==> EncryptText("", key) == Failure(ZeroDivisionError)
    ensures PrepareText(key) == [] ==> DecryptText("", key) == Failure(ZeroDivisionError)
  {
  }

  /** Decrypting the encryption of a text with the same key gives back the
      normalised text. */
  lemma RoundTrip(text: string, key: string)
    requires PrepareText(key) != []
    ensures EncryptText(text, key).Success?
    ensures DecryptText(EncryptText(text, key).value, key) == Success(PrepareText(text))
  {
    var p := PrepareText(text);
    var k := PrepareKey(key, |p|).value;
    var c := Encipher(p, k);
    assert EncryptText(text, key) == Success(c);
    PrepareTextOfNormalized(c);
    assert PrepareKey(key, |c|).value == k;
    forall i | 0 <= i < |p|
      ensures Decipher(c, k)[i] == p[i]
    {
      ShiftUnshift(p[i], k[i]);
    }
    assert Decipher(c, k) == p;
  }

  /** Encrypting the decryption of a text with the same key gives back the
      normalised text: the cipher is a bijection on normalised texts. */
  lemma EncryptAfterDecrypt(text: string, key: string)
    requires PrepareText(key) != []
    ensures DecryptText(text, key).Success?
    ensures EncryptText(DecryptText(text, key).value, key) == Success(PrepareText(text))
  {
    var c := PrepareText(text);
    var k := PrepareKey(key, |c|).value;
    var p := Decipher(c, k);
    assert DecryptText(text, key) == Success(p);
    PrepareTextOfNormalized(p);
    assert PrepareKey(key, |p|).value == k;
    forall i | 0 <= i < |c|
      ensures Encipher(p, k)[i] == c[i]
    {
      ShiftUnshift(c[i], k[i]);
    }
    assert Encipher(p, k) == c;
  }
}
