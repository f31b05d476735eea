/** The Vigenère cipher over the 26 upper-case Latin letters: the shift table,
    text normalisation, key expansion, and the table-driven encryption and
    decryption loops.

    Characters are Dafny `char`s; "alphabetic" means an ASCII letter `A`-`Z` or
    `a`-`z`, and upper-casing is the ASCII mapping. The source's crash on a key
    without letters (a division by zero) is the explicit error
    `Failure(ZeroDivisionError)`. */
module VigenereCipher {

  /** The one failure the cipher can raise: expanding a key that has no letters
      divides the message length by zero. */
  datatype CipherError = ZeroDivisionError

  datatype Result<T> = Success(value: T) | Failure(error: CipherError)

  datatype Option<T> = None | Some(value: T)

  const AlphabetSize: nat := 26

  // ---------------------------------------------------------------------------
  // Letters

  predicate IsUpper(c: char) { 'A' <= c <= 'Z' }

  predicate IsLower(c: char) { 'a' <= c <= 'z' }

  /** `str.isalpha`, restricted to the 52 ASCII letters: each letter it
      accepts, whatever its case, has a position from 0 to 25 in the alphabet. */
  predicate IsAlpha(c: char)
    ensures IsAlpha(c) ==> 0 <= (if IsLower(c) then c as int - 'a' as int else c as int - 'A' as int) < AlphabetSize
  {
    IsUpper(c) || IsLower(c)
  }

  /** `str.upper` on one ASCII character. */
  function Upper(c: char): (u: char)
    ensures IsAlpha(c) <==> IsUpper(u)
    ensures IsLower(c) ==> u as int == c as int - 32
    ensures !IsLower(c) ==> u == c
  {
    if IsLower(c) then (c as int - 32) as char else c
  }

  /** `str.lower` on one ASCII character. */
  function Lower(c: char): (l: char)
    ensures IsAlpha(c) ==> IsLower(l)
    ensures IsUpper(c) ==> l as int == c as int + 32
    ensures !IsUpper(c) ==> l == c
  {
    if IsUpper(c) then (c as int + 32) as char else c
  }

  /** `chr(k + ord('A'))`. */
  function Letter(k: int): (c: char)
    requires 0 <= k < AlphabetSize
    ensures IsUpper(c)
  {
    (k + 'A' as int) as char
  }

  /** `ord(c) - ord('A')`: the inverse of `Letter`. */
  function Index(c: char): (k: int)
    requires IsUpper(c)
    ensures 0 <= k < AlphabetSize && Letter(k) == c
  {
    c as int - 'A' as int
  }

  /** A text is normalised when it holds upper-case letters only. */
  predicate IsNormalized(s: string)
  {
    forall i :: 0 <= i < |s| ==> IsUpper(s[i])
  }

  /** The plain alphabet, `[chr(i + ord('A')) for i in range(26)]`. */
  function Alphabet(): (s: string)
    ensures |s| == AlphabetSize && IsNormalized(s)
  {
    seq(AlphabetSize, i requires 0 <= i < AlphabetSize => Letter(i))
  }

  // ---------------------------------------------------------------------------
  // The shift table

  /** The entry of the shift table in row `row`, column `col`. */
  function TableEntry(row: int, col: int): char
    requires 0 <= row < AlphabetSize && 0 <= col < AlphabetSize
  {
    Letter((row + col) % AlphabetSize)
  }

  /** `t` is the 26 x 26 shift table. */
  predicate IsVigenereTable(t: seq<seq<char>>)
  {
    && |t| == AlphabetSize
    && (forall i :: 0 <= i < AlphabetSize ==> |t[i]| == AlphabetSize)
    && (forall i, j :: 0 <= i < AlphabetSize && 0 <= j < AlphabetSize ==> t[i][j] == TableEntry(i, j))
  }

  /** Builds the table row by row, appending one shifted letter at a time. */
  method GenerateVigenereTable() returns (table: seq<seq<char>>)
    ensures IsVigenereTable(table)
    ensures table[0] == Alphabet()
  {
    table := [];
    var i := 0;
    while i < AlphabetSize
      invariant 0 <= i <= AlphabetSize
      invariant |table| == i
      invariant forall r :: 0 <= r < i ==> |table[r]| == AlphabetSize
      invariant forall r, c :: 0 <= r < i && 0 <= c < AlphabetSize ==> table[r][c] == TableEntry(r, c)
    {
      var row := [];
      var j := 0;
      while j < AlphabetSize
        invariant 0 <= j <= AlphabetSize
        invariant |row| == j
        invariant forall c :: 0 <= c < j ==> row[c] == TableEntry(i, c)
      {
        var letter := Letter((i + j) % AlphabetSize);
        row := row + [letter];
        j := j + 1;
      }
      table := table + [row];
      i := i + 1;
    }
  }

  /** Row `i` of the table is the alphabet rotated left by `i` places. */
  lemma RowIsShiftedAlphabet(t: seq<seq<char>>, i: int, j: int)
    requires IsVigenereTable(t)
    requires 0 <= i < AlphabetSize && 0 <= j < AlphabetSize
    ensures t[i][j] == t[0][(i + j) % AlphabetSize]
  {
    ModBelowTwice(i + j);
    ModBelowTwice((i + j) % AlphabetSize);
  }

  /** Every row of the table is a permutation of the alphabet: an upper-case
      letter `c` occurs in row `row`, and exactly at column `(c - row) mod 26`. */
  lemma RowLookup(t: seq<seq<char>>, row: int, c: char)
    requires IsVigenereTable(t)
    requires 0 <= row < AlphabetSize && IsUpper(c)
    ensures c in t[row]
    ensures forall j :: 0 <= j < AlphabetSize ==> (t[row][j] == c <==> j == (Index(c) - row + AlphabetSize) % AlphabetSize)
  {
    var w := (Index(c) - row + AlphabetSize) % AlphabetSize;
    assert t[row][w] == TableEntry(row, w);
    assert (row + w) % AlphabetSize == Index(c);
    forall j | 0 <= j < AlphabetSize
      ensures t[row][j] == c <==> j == w
    {
      assert t[row][j] == Letter((row + j) % AlphabetSize);
      if t[row][j] == c {
        assert Index(Letter((row + j) % AlphabetSize)) == (row + j) % AlphabetSize;
      }
    }
  }

  // ---------------------------------------------------------------------------
  // Letter substitution

  /** Encrypting plain letter `p` under key letter `k`: `table[k][p]`. */
  function Shift(p: char, k: char): (c: char)
    requires IsUpper(p) && IsUpper(k)
    ensures IsUpper(c) && Index(c) == (Index(p) + Index(k)) % AlphabetSize
  {
    TableEntry(Index(k), Index(p))
  }

  /** Decrypting cipher letter `c` under key letter `k`: the column of `c` in row `k`. */
  function Unshift(c: char, k: char): (p: char)
    requires IsUpper(c) && IsUpper(k)
    ensures IsUpper(p) && TableEntry(Index(k), Index(p)) == c
  {
    var col := (Index(c) - Index(k) + AlphabetSize) % AlphabetSize;
    ModBelowTwice(Index(c) - Index(k) + AlphabetSize);
    ModBelowTwice(Index(k) + col);
    LetterIndex(col);
    Letter(col)
  }

  /** Under a fixed key letter, decryption undoes encryption and vice versa. */
  lemma ShiftUnshift(x: char, k: char)
    requires IsUpper(x) && IsUpper(k)
    ensures Unshift(Shift(x, k), k) == x
    ensures Shift(Unshift(x, k), k) == x
  {
    var a, b := Index(x), Index(k);
    var s := (b + a) % AlphabetSize;
    ModBelowTwice(b + a);
    LetterIndex(s);
    ModBelowTwice(s - b + AlphabetSize);
    var u := (a - b + AlphabetSize) % AlphabetSize;
    ModBelowTwice(a - b + AlphabetSize);
    LetterIndex(u);
    ModBelowTwice(b + u);
  }

  lemma LetterIndex(k: int)
    requires 0 <= k < AlphabetSize
    ensures Index(Letter(k)) == k
  {
  }

  /** Reduction modulo 26 of a number below 52 subtracts 26 at most once. */
  lemma ModBelowTwice(x: int)
    requires 0 <= x < 2 * AlphabetSize
    ensures x % AlphabetSize == if x < AlphabetSize then x else x - AlphabetSize
  {
    var r := if x < AlphabetSize then x else x - AlphabetSize;
    ModUnique(x, AlphabetSize, if x < AlphabetSize then 0 else 1, r);
  }

  /** The remainder is the unique `r` in `[0, n)` with `x == q * n + r`. */
  lemma ModUnique(x: int, n: int, q: int, r: int)
    requires n > 0 && 0 <= r < n && x == q * n + r
    ensures x % n == r
  {
    var q', r' := x / n, x % n;
    assert x == q' * n + r';
    assert (q - q') * n == r' - r;
    MulFarFromZero(q - q', n);
  }

  /** A non-zero multiple of `n` is at least `n` away from zero. */
  lemma MulFarFromZero(d: int, n: int)
    requires n > 0
    ensures d >= 1 ==> d * n >= n
    ensures d <= -1 ==> d * n <= -n
  {
  }

  // ---------------------------------------------------------------------------
  // Text normalisation

  /** Keeps the alphabetic characters of `text`, upper-cased, in order. */
  function PrepareText(text: string): (r: string)
    ensures IsNormalized(r)
    ensures |r| <= |text|
  {
    if text == [] then []
    else (if IsAlpha(text[0]) then [Upper(text[0])] else []) + PrepareText(text[1..])
  }

  // ---------------------------------------------------------------------------
  // Key expansion

  /** Python's `k * m`: `m` copies of `k`, end to end. */
  function Repeat(k: string, m: nat): (r: string)
    ensures |r| == m * |k|
  {
    if m == 0 then [] else k + Repeat(k, m - 1)
  }

  /** Position `i` of a repetition of `k` is `k[i mod |k|]`. */
  lemma {:induction false} RepeatAt(k: string, m: nat, i: int)
    requires 0 <= i < m * |k|
    ensures Repeat(k, m)[i] == k[i % |k|]
  {
    assert Repeat(k, m) == k + Repeat(k, m - 1);
    if i < |k| {
      ModUnique(i, |k|, 0, i);
    } else {
      assert (m - 1) * |k| == m * |k| - |k|;
      RepeatAt(k, m - 1, i - |k|);
      var r := (i - |k|) % |k|;
      assert i - |k| == ((i - |k|) / |k|) * |k| + r;
      ModUnique(i, |k|, (i - |k|) / |k| + 1, r);
    }
  }

  /** `n // len + 1` copies of a key of length `len` always cover `n` positions. */
  lemma RepeatCovers(len: nat, n: nat)
    requires len > 0
    ensures (n / len + 1) * len > n
  {
    var q := n / len;
    assert n == q * len + n % len;
    assert (q + 1) * len == q * len + len;
  }

  /** Normalises the key, repeats it `n // |key| + 1` times and keeps the first
      `messageLength` characters. A key without letters fails for every
      length, the empty message included. */
  function PrepareKey(key: string, messageLength: nat): (r: Result<string>)
    ensures r.Failure? <==> PrepareText(key) == []
    ensures r.Success? ==> |r.value| == messageLength && IsNormalized(r.value)
    ensures r.Success? ==> forall i :: 0 <= i < messageLength ==>
              r.value[i] == PrepareText(key)[i % |PrepareText(key)|]
  {
    var k := PrepareText(key);
    if |k| == 0 then Failure(ZeroDivisionError)
    else
      var m := messageLength / |k| + 1;
      RepeatCovers(|k|, messageLength);
      var expanded := Repeat(k, m)[..messageLength];
      assert forall i :: 0 <= i < messageLength ==> expanded[i] == k[i % |k|] by {
        forall i | 0 <= i < messageLength
          ensures expanded[i] == k[i % |k|]
        {
          RepeatAt(k, m, i);
        }
      }
      Success(expanded)
  }

  // ---------------------------------------------------------------------------
  // Encryption and decryption

  /** Letter-by-letter encryption of a normalised text under an expanded key. */
  function Encipher(text: string, key: string): (r: string)
    requires IsNormalized(text) && IsNormalized(key) && |key| == |text|
    ensures |r| == |text| && IsNormalized(r)
  {
    seq(|text|, i requires 0 <= i < |text| => Shift(text[i], key[i]))
  }

  /** Letter-by-letter decryption of a normalised text under an expanded key. */
  function Decipher(text: string, key: string): (r: string)
    requires IsNormalized(text) && IsNormalized(key) && |key| == |text|
    ensures |r| == |text| && IsNormalized(r)
  {
    seq(|text|, i requires 0 <= i < |text| => Unshift(text[i], key[i]))
  }

  /** What `encrypt` returns: the normalised plaintext, each letter shifted by
      the key letter at the same position of the cyclically repeated key. */
  function EncryptText(plaintext: string, key: string): (r: Result<string>)
    ensures r.Failure? <==> PrepareText(key) == []
    ensures r.Success? ==> |r.value| == |PrepareText(plaintext)|
    ensures r.Success? ==> forall i :: 0 <= i < |r.value| ==>
              r.value[i] == Shift(PrepareText(plaintext)[i], PrepareText(key)[i % |PrepareText(key)|])
  {
    var text := PrepareText(plaintext);
    match PrepareKey(key, |text|)
    case Failure(e) => Failure(e)
    case Success(k) => Success(Encipher(text, k))
  }

  /** What `decrypt` returns: the normalised ciphertext, each letter shifted
      back by the key letter at the same position of the repeated key. */
  function DecryptText(ciphertext: string, key: string): (r: Result<string>)
    ensures r.Failure? <==> PrepareText(key) == []
    ensures r.Success? ==> |r.value| == |PrepareText(ciphertext)|
    ensures r.Success? ==> forall i :: 0 <= i < |r.value| ==>
              r.value[i] == Unshift(PrepareText(ciphertext)[i], PrepareText(key)[i % |PrepareText(key)|])
  {
    var text := PrepareText(ciphertext);
    match PrepareKey(key, |text|)
    case Failure(e) => Failure(e)
    case Success(k) => Success(Decipher(text, k))
  }

  /** Encrypts by looking up `table[key row][plain column]` for each position. */
  method Encrypt(plaintext: string, key: string) returns (r: Result<string>)
    ensures r == EncryptText(plaintext, key)
  {
    var table := GenerateVigenereTable();
    var text := PrepareText(plaintext);
    var expanded := PrepareKey(key, |text|);
    if expanded.Failure? {
      return Failure(expanded.error);
    }
    var k := expanded.value;
    var ciphertext := "";
    var i := 0;
    while i < |text|
      invariant 0 <= i <= |text|
      invariant |ciphertext| == i
      invariant forall j :: 0 <= j < i ==> ciphertext[j] == Shift(text[j], k[j])
    {
      var row := Index(k[i]);
      var col := Index(text[i]);
      ciphertext := ciphertext + [table[row][col]];
      i := i + 1;
    }
    assert ciphertext == Encipher(text, k);
    return Success(ciphertext);
  }

  /** Python's `list.index`: the first position of `c` in `row`; `None` where
      Python raises `ValueError`. */
  method IndexOf(row: seq<char>, c: char) returns (r: Option<nat>)
    ensures r.None? <==> c !in row
    ensures r.Some? ==> r.value < |row| && row[r.value] == c && c !in row[..r.value]
  {
    var j := 0;
    while j < |row|
      invariant 0 <= j <= |row|
      invariant c !in row[..j]
    {
      if row[j] == c {
        return Some(j);
      }
      assert row[..j + 1] == row[..j] + [row[j]];
      j := j + 1;
    }
    assert row[..j] == row;
    return None;
  }

  /** Decrypts by scanning the key row of the table for each ciphertext letter
      and emitting the letter of the column where it is found. */
  method Decrypt(ciphertext: string, key: string) returns (r: Result<string>)
    ensures r == DecryptText(ciphertext, key)
  {
    var table := GenerateVigenereTable();
    var text := PrepareText(ciphertext);
    var expanded := PrepareKey(key, |text|);
    if expanded.Failure? {
      return Failure(expanded.error);
    }
    var k := expanded.value;
    var plaintext := "";
    var i := 0;
    while i < |text|
      invariant 0 <= i <= |text|
      invariant |plaintext| == i
      invariant forall j :: 0 <= j < i ==> plaintext[j] == Unshift(text[j], k[j])
    {
      var row := Index(k[i]);
      RowLookup(table, row, text[i]);
      var col := IndexOf(table[row], text[i]);
      if col.None? {
        assert false;
      }
      plaintext := plaintext + [Letter(col.value)];
      i := i + 1;
    }
    assert plaintext == Decipher(text, k);
    return Success(plaintext);
  }
}
