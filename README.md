# Vigenère cipher — a verified Dafny model

This project models `src/vigenere_cipher.py`, a classical Vigenère cipher
over the 26 Latin letters, and proves its behaviour:

- `GenerateVigenereTable` builds the 26 × 26 shift table with two nested
  loops that append one letter at a time, as the Python does.
- `PrepareText` keeps the letters of a text, upper-cased, in order.
- `PrepareKey` normalises the key, repeats it `n // len(key) + 1` times and
  keeps the first `n` characters.
- `Encrypt` looks up `table[key row][plain column]` for each position.
- `Decrypt` scans the key row for the ciphertext letter (Python's
  `list.index`, modelled by `IndexOf`) and emits the letter of that column.

Python's `ZeroDivisionError` is modelled as the explicit result
`Failure(ZeroDivisionError)`. `prepare_key` raises it when the key has no
letters. `PrepareKey`, `EncryptText` and `DecryptText` return that failure
exactly when the key normalises to the empty string, whatever the message
length, the empty message included.

The loops (`GenerateVigenereTable`, `Encrypt`, `IndexOf`, `Decrypt`) are
methods with loop invariants. Each is proved against a pure specification:
`IsVigenereTable`, `EncryptText` and `DecryptText`. `Decrypt` is proved to
return exactly `DecryptText`, which is defined with modular arithmetic:
the row scan and the formula `(c - k + 26) mod 26` agree on every input.

Files:

- `vigenere_cipher.dfy`, module `VigenereCipher`: the model of the source
  file.
- `vigenere_cipher_properties.dfy`, module `VigenereCipherProperties`: laws
  that relate several calls. These are idempotence, case insensitivity,
  both round trips, and what happens on empty input.
- `vigenere_cipher_vectors.dfy`, module `VigenereCipherVectors`: the
  concrete vectors of `test/vigenere_cipher_test.py`, proved of the model.

## Model

| member | source | states |
|---|---|---|
| `VigenereCipher.GenerateVigenereTable` | src/vigenere_cipher.py:1-11 | the result has 26 rows of 26 entries; entry `[i][j]` is the letter `(i + j) mod 26`; row 0 is the plain alphabet |
| `VigenereCipher.RowIsShiftedAlphabet` | src/vigenere_cipher.py:4-9 | in the table, entry `[i][j]` equals entry `[0][(i + j) mod 26]`: row `i` is the alphabet rotated left by `i` |
| `VigenereCipher.RowLookup` | src/vigenere_cipher.py:53 | every upper-case letter `c` occurs in every row `r`, and exactly at column `(c - r + 26) mod 26`; so each row is a permutation and `.index` never fails |
| `VigenereCipher.ShiftUnshift` | src/vigenere_cipher.py:34-55 | under one key letter, the decryption of a letter undoes its encryption and the encryption undoes its decryption |
| `VigenereCipher.IsAlpha` | src/vigenere_cipher.py:16 | a character accepted as a letter is an upper-case letter at offset 0 to 25 from `A` or a lower-case letter at offset 0 to 25 from `a` |
| `VigenereCipher.Upper` | src/vigenere_cipher.py:16 | a character is a letter exactly when its upper-case form is one of `A`-`Z`; a lower-case letter moves down by 32, and anything else is unchanged |
| `VigenereCipher.Shift` | src/vigenere_cipher.py:34-37 | the letter read from `table[row][col]` is upper-case, at alphabet position `(plain + key) mod 26` |
| `VigenereCipher.Unshift` | src/vigenere_cipher.py:51-55 | the letter emitted is upper-case and is the column at which the key row of the table holds the ciphertext letter |
| `VigenereCipher.Repeat` | src/vigenere_cipher.py:22 | `key * m` has length `m * len(key)` |
| `VigenereCipher.PrepareText` | src/vigenere_cipher.py:14-16 | the normalised text holds only `A`-`Z` and is no longer than the input |
| `VigenereCipher.RepeatAt` | src/vigenere_cipher.py:22 | position `i` of the key repeated `m` times is `key[i mod len(key)]` |
| `VigenereCipher.RepeatCovers` | src/vigenere_cipher.py:22 | `n // len + 1` copies of a key of length `len > 0` hold more than `n` characters, so the slice `[:n]` never comes up short |
| `VigenereCipher.PrepareKey` | src/vigenere_cipher.py:19-22 | fails with the division by zero exactly when the key has no letters, for every message length; otherwise the result has exactly `n` upper-case letters and position `i` is `k[i mod len(k)]` for the normalised key `k` |
| `VigenereCipher.EncryptText` | src/vigenere_cipher.py:25-39 | fails exactly when the key has no letters, even on empty text; otherwise the ciphertext has the length of the normalised plaintext `P`, and position `i` is the table entry for `P[i]` under key letter `k[i mod len(k)]` |
| `VigenereCipher.DecryptText` | src/vigenere_cipher.py:42-57 | fails exactly when the key has no letters; otherwise the plaintext has the length of the normalised ciphertext `C`, and position `i` is `C[i]` shifted back by key letter `k[i mod len(k)]` |
| `VigenereCipher.Encrypt` | src/vigenere_cipher.py:25-39 | the table-lookup loop returns exactly `EncryptText` |
| `VigenereCipher.IndexOf` | src/vigenere_cipher.py:53 | returns the first position of `c` in the row; returns `None`, where Python raises `ValueError`, exactly when `c` is absent |
| `VigenereCipher.Decrypt` | src/vigenere_cipher.py:42-57 | the row-scanning loop returns exactly `DecryptText`; the scan always finds the letter |
| `VigenereCipherProperties.PrepareTextOfNormalized` | src/vigenere_cipher.py:16 | a text of upper-case letters normalises to itself |
| `VigenereCipherProperties.PrepareTextIdempotent` | src/vigenere_cipher.py:16 | normalising twice gives the same as normalising once |
| `VigenereCipherProperties.PrepareTextConcat` | src/vigenere_cipher.py:16 | normalising a concatenation concatenates the normalised parts, so the letters keep their order |
| `VigenereCipherProperties.PrepareTextEmpty` | src/vigenere_cipher.py:16 | a text normalises to the empty string if and only if it has no letter |
| `VigenereCipherProperties.PrepareTextMembership` | src/vigenere_cipher.py:16 | a character occurs in the normalised text if and only if it is the upper-case form of a letter of the input |
| `VigenereCipherProperties.PrepareTextUpper` | src/vigenere_cipher.py:16 | upper-casing a text first does not change its normalisation |
| `VigenereCipherProperties.PrepareTextLower` | src/vigenere_cipher.py:16 | lower-casing a text first does not change its normalisation |
| `VigenereCipherProperties.TransformsNormalize` | src/vigenere_cipher.py:25-57 | encryption and decryption depend on text and key only through their normalisations |
| `VigenereCipherProperties.EncryptIgnoresCase` | test/vigenere_cipher_test.py:112-121 | upper-casing or lower-casing both text and key leaves the ciphertext unchanged |
| `VigenereCipherProperties.EmptyText` | src/vigenere_cipher.py:19-46 | with a key that has letters, the empty text encrypts and decrypts to the empty text; with a key that has none, both fail on the empty text too |
| `VigenereCipherProperties.RoundTrip` | src/vigenere_cipher.py:25-57 | for every text and every key with a letter, decrypting the encryption gives back the normalised text |
| `VigenereCipherProperties.EncryptAfterDecrypt` | src/vigenere_cipher.py:25-57 | for every text and every key with a letter, encrypting the decryption gives back the normalised text |
| `VigenereCipherVectors.PrepareTextWord` | src/vigenere_cipher.py:16 | a run of `k` letters followed only by non-letters normalises to the run, upper-cased |
| `VigenereCipherVectors.PrepareTextVectorPunctuation` | test/vigenere_cipher_test.py:47 | `"Hello, World!"` normalises to `"HELLOWORLD"` |
| `VigenereCipherVectors.PrepareTextVectorDigits` | test/vigenere_cipher_test.py:48 | `"ABC 123"` normalises to `"ABC"` |
| `VigenereCipherVectors.PrepareTextVectorSymbols` | test/vigenere_cipher_test.py:49 | `"Test@#$Case"` normalises to `"TESTCASE"` |
| `VigenereCipherVectors.PrepareTextVectorMixedCase` | test/vigenere_cipher_test.py:50 | `"Mixed CASE text"` normalises to `"MIXEDCASETEXT"` |
| `VigenereCipherVectors.PrepareTextVectorEmpty` | test/vigenere_cipher_test.py:51 | `""` normalises to `""` |
| `VigenereCipherVectors.PrepareKeyVectors` | test/vigenere_cipher_test.py:58-69 | the keys expand to `KEYKE`, `LEMONLEMONLE`, `AAAA` and `LO` |
| `VigenereCipherVectors.EncryptVectorHello` | test/vigenere_cipher_test.py:9-13 | `HELLO` under `KEY` encrypts to `RIJVS` |
| `VigenereCipherVectors.EncryptVectorLemon` | test/vigenere_cipher_test.py:14-18 | `ATTACKATDAWN` under `LEMON` encrypts to `LXFOPVEFRNHR` |
| `VigenereCipherVectors.DecryptVectorHello` | test/vigenere_cipher_test.py:78-83 | `RIJVS` under `KEY` decrypts to `HELLO` |
| `VigenereCipherVectors.DecryptVectorLemon` | test/vigenere_cipher_test.py:78-83 | `LXFOPVEFRNHR` under `LEMON` decrypts to `ATTACKATDAWN` |
| `VigenereCipherVectors.EncryptVectorSpecialCharacters` | test/vigenere_cipher_test.py:105-110 | `"Hello, World! 123"` and `"HELLOWORLD"` encrypt alike under `KEY` |
| `VigenereCipherVectors.EncryptVectorCodeInconsistent` | test/vigenere_cipher_test.py:19-23 | `PYTHONPROGRAMMING` under `CODE` does not encrypt to the 16-letter `RMLVSDEPVKFOCAKR`: the ciphertext has 17 letters |

## Left out

- The `__main__` demonstration at src/vigenere_cipher.py:60-73 only prints. It has no contract.
- Unicode. `str.isalpha` and `str.upper` are modelled on the 52 ASCII letters only, and the model drops every other character. Python keeps every character that passes `isalpha`, upper-cased, and its `upper` can turn one letter into several characters. Some non-ASCII letters upper-case to ASCII letters: `'ı'` to `I`, `'ſ'` to `S`, `'ß'` to `SS`, `'ﬁ'` to `FI`, and `'ǰ'` to `J` followed by a combining caron. Python encrypts these where the model drops them: `encrypt("ſ", "A")` is `"S"`, and `encrypt("A", "ǰ")` is `"J"` (the key is cut to `"J"` by `[:message_length]`), where the model's `EncryptText("A", "ǰ")` fails with the division by zero because the model's key has no letters. Python raises `IndexError` (`table[row]`, `table[row][col]`) or `ValueError` (`.index`) only when a character outside `A`-`Z` actually reaches a table index. A non-ASCII key letter beyond the `[:message_length]` cut is never used: `encrypt("A", "Bé")` is `"B"`, and so is the model's result.
- `VigenereCipher.PrepareKey`: the message length is a `nat`. `encrypt` and `decrypt` only pass `len(...)`. A direct call with a negative length, which Python answers with `''` for a key with letters (a key without letters still raises `ZeroDivisionError`), is not modelled.
- The third test vector (test/vigenere_cipher_test.py:19-23) is inconsistent with the code. `EncryptVectorCodeInconsistent` proves that the code cannot produce it, so its decryption vector is not reproduced.
- Python's string repetition and slicing are modelled by their values: `Repeat` is `m`-fold concatenation and `[:n]` is a prefix.
