/**
 * The string operations the converter relies on: Python's `str.split()`,
 * `str.split(sep)`, `str.strip()`, `str.isdigit()`, `str.isalpha()` and the
 * decimal rendering used in the synthesised column names `Column_<i>`.
 *
 * Whitespace is the ASCII characters Python's `str.isspace` accepts (space,
 * tab, newline, carriage return, vertical tab, form feed and the separators
 * 0x1C-0x1F); digits and letters are the ASCII classes. The other Unicode
 * characters Python counts in these classes are not modelled.
 */
module Text {

  predicate IsSpace(c: char) {
    c == ' ' || c == '\t' || c == '\n' || c == '\r' || c == '\U{000B}' || c == '\U{000C}'
    || '\U{001C}' <= c <= '\U{001F}'
  }

  predicate IsDigit(c: char) { '0' <= c <= '9' }

  predicate IsAlpha(c: char) { 'a' <= c <= 'z' || 'A' <= c <= 'Z' }

  /** Python's `str.isdigit()`: non-empty and made of digits only. */
  predicate IsDigitString(s: string) {
    |s| > 0 && forall i :: 0 <= i < |s| ==> IsDigit(s[i])
  }

  /** Python's `str.isalpha()`: non-empty and made of letters only. */
  predicate IsAlphaString(s: string) {
    |s| > 0 && forall i :: 0 <= i < |s| ==> IsAlpha(s[i])
  }

  predicate NoSpace(s: string) {
    forall i :: 0 <= i < |s| ==> !IsSpace(s[i])
  }

  predicate AllSpace(s: string) {
    forall i :: 0 <= i < |s| ==> IsSpace(s[i])
  }

  predicate HasNonSpace(s: string) {
    exists i :: 0 <= i < |s| && !IsSpace(s[i])
  }

  /** Every position of `s` in `[a, b)` holds whitespace. */
  predicate AllSpaceIn(s: string, a: nat, b: nat)
    requires b <= |s|
  {
    forall i :: a <= i < b ==> IsSpace(s[i])
  }

  /** No position of `s` in `[a, b)` holds whitespace. */
  predicate NoSpaceIn(s: string, a: nat, b: nat)
    requires b <= |s|
  {
    forall i :: a <= i < b ==> !IsSpace(s[i])
  }

  // ---------------------------------------------------------------------
  // Scanning by position
  // ---------------------------------------------------------------------

  /** The end of the whitespace run that starts at `p`. */
  function SkipSpace(s: string, p: nat): (q: nat)
    requires p <= |s|
    ensures p <= q <= |s|
    ensures AllSpaceIn(s, p, q)
    ensures q == |s| || !IsSpace(s[q])
    decreases |s| - p
  {
    if p == |s| || !IsSpace(s[p]) then p else SkipSpace(s, p + 1)
  }

  /** The end of the run of non-whitespace characters that starts at `p`. */
  function WordEnd(s: string, p: nat): (e: nat)
    requires p <= |s|
    ensures p <= e <= |s|
    ensures NoSpaceIn(s, p, e)
    ensures e == |s| || IsSpace(s[e])
    decreases |s| - p
  {
    if p == |s| || IsSpace(s[p]) then p else WordEnd(s, p + 1)
  }

  /** The number of non-whitespace characters in `s[p..]`. */
  function NonSpaceCount(s: string, p: nat): nat
    requires p <= |s|
    decreases |s| - p
  {
    if p == |s| then 0 else (if IsSpace(s[p]) then 0 else 1) + NonSpaceCount(s, p + 1)
  }

  // ---------------------------------------------------------------------
  // str.split() and its properties
  // ---------------------------------------------------------------------

  /** The whitespace-separated words of `s[p..]`, in order. */
  function SplitFrom(s: string, p: nat): (tokens: seq<string>)
    requires p <= |s|
    ensures forall k :: 0 <= k < |tokens| ==> tokens[k] != [] && NoSpace(tokens[k])
    decreases |s| - p
  {
    var q := SkipSpace(s, p);
    if q == |s| then []
    else
      var e := WordEnd(s, q);
      [s[q..e]] + SplitFrom(s, e)
  }

  /** Python's `s.split()`: whitespace runs separate words, and no word is empty. */
  function Split(s: string): (tokens: seq<string>)
    ensures forall k :: 0 <= k < |tokens| ==> tokens[k] != [] && NoSpace(tokens[k])
  {
    SplitFrom(s, 0)
  }

  /** The number of characters in all of `words` together. */
  function TotalLength(words: seq<string>): nat
    decreases |words|
  {
    if words == [] then 0 else |words[0]| + TotalLength(words[1..])
  }

  lemma {:induction false} NonSpaceCountAcrossSpace(s: string, a: nat, b: nat)
    requires a <= b <= |s| && AllSpaceIn(s, a, b)
    ensures NonSpaceCount(s, a) == NonSpaceCount(s, b)
    decreases b - a
  {
    if a < b {
      NonSpaceCountAcrossSpace(s, a + 1, b);
    }
  }

  lemma {:induction false} NonSpaceCountAcrossWord(s: string, a: nat, b: nat)
    requires a <= b <= |s| && NoSpaceIn(s, a, b)
    ensures NonSpaceCount(s, a) == (b - a) + NonSpaceCount(s, b)
    decreases b - a
  {
    if a < b {
      NonSpaceCountAcrossWord(s, a + 1, b);
    }
  }

  lemma {:induction false} NonSpaceCountMonotone(s: string, a: nat, b: nat)
    requires a <= b <= |s|
    ensures NonSpaceCount(s, a) >= NonSpaceCount(s, b)
    decreases b - a
  {
    if a < b {
      NonSpaceCountMonotone(s, a + 1, b);
    }
  }

  /** The words of `s[p..]` hold as many characters as it has non-whitespace characters. */
  lemma {:induction false} SplitFromLength(s: string, p: nat)
    requires p <= |s|
    ensures TotalLength(SplitFrom(s, p)) == NonSpaceCount(s, p)
    decreases |s| - p
  {
    var q := SkipSpace(s, p);
    NonSpaceCountAcrossSpace(s, p, q);
    if q < |s| {
      var e := WordEnd(s, q);
      NonSpaceCountAcrossWord(s, q, e);
      SplitFromLength(s, e);
      assert SplitFrom(s, p)[1..] == SplitFrom(s, e);
    }
  }

  /** The words written one after another, with nothing between them. */
  function Concat(words: seq<string>): string
    decreases |words|
  {
    if words == [] then [] else words[0] + Concat(words[1..])
  }

  /** The non-whitespace characters of `s[p..]`, in order. */
  function NonSpaceChars(s: string, p: nat): string
    requires p <= |s|
    decreases |s| - p
  {
    if p == |s| then [] else (if IsSpace(s[p]) then [] else [s[p]]) + NonSpaceChars(s, p + 1)
  }

  lemma {:induction false} NonSpaceCharsAcrossSpace(s: string, a: nat, b: nat)
    requires a <= b <= |s| && AllSpaceIn(s, a, b)
    ensures NonSpaceChars(s, a) == NonSpaceChars(s, b)
    decreases b - a
  {
    if a < b {
      NonSpaceCharsAcrossSpace(s, a + 1, b);
    }
  }

  lemma {:induction false} NonSpaceCharsAcrossWord(s: string, a: nat, b: nat)
    requires a <= b <= |s| && NoSpaceIn(s, a, b)
    ensures NonSpaceChars(s, a) == s[a..b] + NonSpaceChars(s, b)
    decreases b - a
  {
    if a == b {
      assert s[a..b] == [];
    } else {
      assert !IsSpace(s[a]);
      NonSpaceCharsAcrossWord(s, a + 1, b);
      calc {
        NonSpaceChars(s, a);
        [s[a]] + NonSpaceChars(s, a + 1);
        [s[a]] + (s[a + 1..b] + NonSpaceChars(s, b));
        ([s[a]] + s[a + 1..b]) + NonSpaceChars(s, b);
        { assert [s[a]] + s[a + 1..b] == s[a..b]; }
        s[a..b] + NonSpaceChars(s, b);
      }
    }
  }

  /**
   * The words of `s[p..]`, written one after another, are exactly its
   * non-whitespace characters in order: splitting drops the whitespace and
   * nothing else.
   */
  lemma {:induction false} SplitFromChars(s: string, p: nat)
    requires p <= |s|
    ensures Concat(SplitFrom(s, p)) == NonSpaceChars(s, p)
    decreases |s| - p
  {
    var q := SkipSpace(s, p);
    NonSpaceCharsAcrossSpace(s, p, q);
    if q < |s| {
      var e := WordEnd(s, q);
      NonSpaceCharsAcrossWord(s, q, e);
      SplitFromChars(s, e);
      assert SplitFrom(s, p)[1..] == SplitFrom(s, e);
    }
  }

  /** Leading whitespace does not change the words. */
  lemma {:induction false} SplitFromAcrossSpace(s: string, a: nat, b: nat)
    requires a <= b <= |s| && AllSpaceIn(s, a, b)
    ensures SplitFrom(s, a) == SplitFrom(s, b)
    decreases b - a
  {
    if a < b {
      SplitFromAcrossSpace(s, a + 1, b);
    }
  }

  /** Words start at non-whitespace: from the start of a word, the first word runs to its end. */
  lemma SplitFromAtWord(s: string, p: nat)
    requires p < |s| && !IsSpace(s[p])
    ensures SplitFrom(s, p) == [s[p..WordEnd(s, p)]] + SplitFrom(s, WordEnd(s, p))
  {
  }

  /** A position that starts at least one word holds a non-whitespace character. */
  lemma SplitFromStartsAtWord(s: string, p: nat)
    requires p <= |s| && SplitFrom(s, p) != [] && SkipSpace(s, p) == p
    ensures p < |s| && !IsSpace(s[p])
  {
  }

  // ---------------------------------------------------------------------
  // Strides of words
  // ---------------------------------------------------------------------

  /** The consecutive strides of `k` words; a shorter tail is left over. */
  function Chunks(words: seq<string>, k: nat): (r: seq<seq<string>>)
    requires k >= 1
    decreases |words|
  {
    if |words| < k then [] else [words[..k]] + Chunks(words[k..], k)
  }

  /** The fewer than `k` words that remain after the strides. */
  function Leftover(words: seq<string>, k: nat): (r: seq<string>)
    requires k >= 1
    decreases |words|
  {
    if |words| < k then words else Leftover(words[k..], k)
  }

  lemma MulAtLeast(d: int, k: int)
    requires d >= 1 && k >= 1
    ensures d * k >= k
  {
  }

  /** Euclidean division is determined by quotient and remainder. */
  lemma DivUnique(x: int, k: int, q: int, r: int)
    requires k >= 1 && 0 <= r < k && x == q * k + r
    ensures x / k == q && x % k == r
  {
    var q', r' := x / k, x % k;
    assert q' * k + r' == q * k + r;
    if q > q' {
      MulAtLeast(q - q', k);
    } else if q < q' {
      MulAtLeast(q' - q, k);
    }
  }

  lemma DivPlus(a: nat, k: nat)
    requires k >= 1
    ensures (a + k) / k == a / k + 1 && (a + k) % k == a % k
  {
    DivUnique(a + k, k, a / k + 1, a % k);
  }

  lemma MulStep(j: nat, k: nat)
    ensures (j + 1) * k == j * k + k
  {
  }

  /** There are `|words| / k` strides. */
  lemma {:induction false} ChunksLength(words: seq<string>, k: nat)
    requires k >= 1
    ensures |Chunks(words, k)| == |words| / k
    decreases |words|
  {
    if |words| >= k {
      ChunksLength(words[k..], k);
      DivPlus(|words| - k, k);
    } else {
      DivUnique(|words|, k, 0, |words|);
    }
  }

  /** Stride `i` is `words[i*k..(i+1)*k]`. */
  lemma {:induction false} ChunkAt(words: seq<string>, k: nat, i: nat)
    requires k >= 1 && i < |Chunks(words, k)|
    ensures (i + 1) * k <= |words| && Chunks(words, k)[i] == words[i * k..(i + 1) * k]
    decreases i
  {
    var rest := words[k..];
    if i > 0 {
      ChunkAt(rest, k, i - 1);
      MulStep(i - 1, k);
      MulStep(i, k);
      assert Chunks(words, k)[i] == Chunks(rest, k)[i - 1];
    }
  }

  /** The strides of a suffix: one stride, then the strides after it. */
  lemma ChunksFrom(words: seq<string>, k: nat, i: nat)
    requires k >= 1 && i <= |words|
    ensures i + k <= |words| ==> Chunks(words[i..], k) == [words[i..i + k]] + Chunks(words[i + k..], k)
    ensures i + k > |words| ==> Chunks(words[i..], k) == []
  {
    if i + k <= |words| {
      assert words[i..][..k] == words[i..i + k];
      assert words[i..][k..] == words[i + k..];
    }
  }

  /** The leftover words are the last `|words| % k`. */
  lemma {:induction false} LeftoverIsTail(words: seq<string>, k: nat)
    requires k >= 1
    ensures Leftover(words, k) == words[|words| - |words| % k..]
    decreases |words|
  {
    if |words| >= k {
      var rest := words[k..];
      LeftoverIsTail(rest, k);
      DivPlus(|rest|, k);
      assert rest[|rest| - |rest| % k..] == words[|words| - |words| % k..];
    }
  }

  // ---------------------------------------------------------------------
  // str.strip()
  // ---------------------------------------------------------------------

  /** The start of the trailing whitespace run of `s[..e]`. */
  function TrimEnd(s: string, e: nat): (b: nat)
    requires e <= |s|
    ensures b <= e
    ensures AllSpaceIn(s, b, e)
    ensures b == 0 || !IsSpace(s[b - 1])
    decreases e
  {
    if e == 0 || !IsSpace(s[e - 1]) then e else TrimEnd(s, e - 1)
  }

  /**
   * Python's `s.strip()`: `s` without its leading and trailing whitespace.
   * The result is empty exactly when `s` is all whitespace; otherwise it
   * begins and ends with a non-whitespace character, and it is the part of
   * `s` between a whitespace prefix and a whitespace suffix.
   */
  function Strip(s: string): (r: string)
    ensures r == [] <==> AllSpace(s)
    ensures r != [] ==> !IsSpace(r[0]) && !IsSpace(r[|r| - 1])
    ensures exists a: nat :: a + |r| <= |s| && r == s[a..a + |r|]
                        && AllSpace(s[..a]) && AllSpace(s[a + |r|..])
  {
    var a := SkipSpace(s, 0);
    var b := TrimEnd(s, |s|);
    if a <= b then
      assert AllSpace(s[..a]) && AllSpace(s[b..]);
      s[a..b]
    else
      assert s[..a] == s && s[a..] == [];
      []
  }

  lemma StripIdempotent(s: string)
    ensures Strip(Strip(s)) == Strip(s)
  {
    var r := Strip(s);
    if r != [] {
      assert SkipSpace(r, 0) == 0;
      assert TrimEnd(r, |r|) == |r|;
      assert r[0..|r|] == r;
    }
  }

  // ---------------------------------------------------------------------
  // str.split(sep) and its inverse, str.join
  // ---------------------------------------------------------------------

  /** Python's `s.split(sep)` for a one-character separator: always at least one part. */
  function SplitOn(s: string, sep: char): (parts: seq<string>)
    ensures |parts| >= 1
    ensures forall k :: 0 <= k < |parts| ==> sep !in parts[k]
    decreases |s|
  {
    if s == [] then [[]]
    else
      var rest := SplitOn(s[1..], sep);
      if s[0] == sep then [[]] + rest
      else [[s[0]] + rest[0]] + rest[1..]
  }

  /** Python's `sep.join(parts)`. */
  function JoinOn(parts: seq<string>, sep: char): string
    requires |parts| >= 1
    decreases |parts|
  {
    if |parts| == 1 then parts[0] else parts[0] + [sep] + JoinOn(parts[1..], sep)
  }

  /** Splitting and re-joining gives back the original string. */
  lemma {:induction false} JoinSplit(s: string, sep: char)
    ensures JoinOn(SplitOn(s, sep), sep) == s
    decreases |s|
  {
    if s != [] {
      var rest := SplitOn(s[1..], sep);
      JoinSplit(s[1..], sep);
      if s[0] != sep {
        if |rest| > 1 {
          assert ([[s[0]] + rest[0]] + rest[1..])[1..] == rest[1..];
        }
      }
    }
  }

  lemma {:induction false} SplitOnWord(w: string, sep: char)
    requires sep !in w
    ensures SplitOn(w, sep) == [w]
    decreases |w|
  {
    if w != [] {
      SplitOnWord(w[1..], sep);
      assert w[0] != sep;
      assert [w[0]] + w[1..] == w;
    }
  }

  lemma {:induction false} SplitOnWordThenSep(w: string, sep: char, t: string)
    requires sep !in w
    ensures SplitOn(w + [sep] + t, sep) == [w] + SplitOn(t, sep)
    decreases |w|
  {
    if w == [] {
      assert w + [sep] + t == [sep] + t;
      assert ([sep] + t)[1..] == t;
    } else {
      assert (w + [sep] + t)[1..] == w[1..] + [sep] + t;
      SplitOnWordThenSep(w[1..], sep, t);
      assert [w[0]] + w[1..] == w;
    }
  }

  /** Joining parts that do not contain the separator and splitting again gives back the parts. */
  lemma {:induction false} SplitJoin(parts: seq<string>, sep: char)
    requires |parts| >= 1
    requires forall k :: 0 <= k < |parts| ==> sep !in parts[k]
    ensures SplitOn(JoinOn(parts, sep), sep) == parts
    decreases |parts|
  {
    if |parts| == 1 {
      SplitOnWord(parts[0], sep);
    } else {
      SplitJoin(parts[1..], sep);
      SplitOnWordThenSep(parts[0], sep, JoinOn(parts[1..], sep));
    }
  }

  // ---------------------------------------------------------------------
  // Decimal rendering of naturals, as in f"Column_{i+1}"
  // ---------------------------------------------------------------------

  function DigitChar(d: nat): (c: char)
    requires d < 10
    ensures IsDigit(c) && (c as int) - ('0' as int) == d
  {
    (('0' as int) + d) as char
  }

  /** Python's `str(n)` for a natural number. */
  function NatToString(n: nat): (s: string)
    ensures |s| >= 1 && forall i :: 0 <= i < |s| ==> IsDigit(s[i])
    decreases n
  {
    if n < 10 then [DigitChar(n)] else NatToString(n / 10) + [DigitChar(n % 10)]
  }

  function DigitValue(c: char): (d: nat)
    requires IsDigit(c)
    ensures d < 10 && DigitChar(d) == c
  {
    (c as int) - ('0' as int)
  }

  /** Python's `int(s)` for a string of digits. */
  function ParseDecimal(s: string): nat
    requires forall i :: 0 <= i < |s| ==> IsDigit(s[i])
    decreases |s|
  {
    if s == [] then 0 else 10 * ParseDecimal(s[..|s| - 1]) + DigitValue(s[|s| - 1])
  }

  /** Reading back the decimal rendering of `n` gives `n`. */
  lemma {:induction false} ParseNatToString(n: nat)
    ensures ParseDecimal(NatToString(n)) == n
    decreases n
  {
    if n >= 10 {
      var s := NatToString(n);
      ParseNatToString(n / 10);
      assert s[..|s| - 1] == NatToString(n / 10);
    }
  }

  /** The synthesised name of the `i`-th column (1-based): `Column_<i>`. */
  function ColumnName(i: nat): string {
    "Column_" + NatToString(i)
  }

  /** Different columns never get the same synthesised name. */
  lemma ColumnNameInjective(i: nat, j: nat)
    ensures ColumnName(i) == ColumnName(j) ==> i == j
  {
    if ColumnName(i) == ColumnName(j) {
      assert NatToString(i) == ColumnName(i)[7..];
      assert NatToString(j) == ColumnName(j)[7..];
      ParseNatToString(i);
      ParseNatToString(j);
    }
  }
}
