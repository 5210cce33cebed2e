/**
 * `detect_columns`: the column-count heuristic. The specification functions
 * below describe the three stages (a repeating token-type pattern, the most
 * common token count per line, the default 3); the method `DetectColumns`
 * computes the same answer with the loops of `detect_columns`.
 */
module Detection {
  import opened Wrappers
  import opened Text

  /** The count returned when neither stage decides. */
  const DefaultColumns: nat := 3

  /** Python's `s[:n]`. */
  function Take<T>(s: seq<T>, n: nat): (r: seq<T>)
    ensures |r| <= n && |r| <= |s| && r == s[..|r|]
  {
    if |s| <= n then s else s[..n]
  }

  /** `text.strip().split('\n')`. */
  function SampleLines(text: string): (lines: seq<string>)
    ensures |lines| >= 1 && forall k :: 0 <= k < |lines| ==> '\n' !in lines[k]
  {
    SplitOn(Strip(text), '\n')
  }

  /** `line.strip().split()`. */
  function LineTokens(line: string): seq<string> {
    Split(Strip(line))
  }

  /** `all_tokens`: the tokens of the lines, in order. */
  function TokensOf(lines: seq<string>): (toks: seq<string>)
    ensures forall k :: 0 <= k < |toks| ==> toks[k] != [] && NoSpace(toks[k])
    decreases |lines|
  {
    if lines == [] then [] else TokensOf(lines[..|lines| - 1]) + LineTokens(lines[|lines| - 1])
  }

  // ---------------------------------------------------------------------
  // Stage 1: a repeating pattern of token types
  // ---------------------------------------------------------------------

  /** A sampled token breaks the pattern when it differs from the first in both `isdigit` and `isalpha`. */
  predicate Breaks(first: string, token: string) {
    IsDigitString(first) != IsDigitString(token) && IsAlphaString(first) != IsAlphaString(token)
  }

  /** `min(5, len(all_tokens) // num_cols)`: the sample indices `j` run from 1 below this. */
  function SampleBound(toks: seq<string>, nc: nat): (b: nat)
    requires nc > 0
    ensures b <= 5 && b * nc <= |toks|
    ensures b == 5 || b == |toks| / nc
  {
    if |toks| / nc < 5 then |toks| / nc else 5
  }

  /** Position `i + j*nc`, where it exists, agrees with position `i`. */
  predicate SampleAgrees(toks: seq<string>, nc: nat, i: nat, j: nat) {
    i < |toks| && i + j * nc < |toks| ==> !Breaks(toks[i], toks[i + j * nc])
  }

  /** The stride `nc` qualifies: three full records, and no sampled position breaks the pattern. */
  predicate PatternRepeats(toks: seq<string>, nc: nat)
    requires nc > 0
  {
    |toks| >= nc * 3
    && forall i, j :: 0 <= i < nc && 1 <= j < SampleBound(toks, nc) ==> SampleAgrees(toks, nc, i, j)
  }

  /** The smallest qualifying stride in `from..10`, if any. */
  function FirstRepeating(toks: seq<string>, from: nat): (r: Option<nat>)
    requires 2 <= from <= 11
    ensures r.Some? ==> from <= r.value <= 10 && PatternRepeats(toks, r.value)
    ensures r.Some? ==> forall m :: from <= m < r.value ==> !PatternRepeats(toks, m)
    ensures r.None? ==> forall m :: from <= m <= 10 ==> !PatternRepeats(toks, m)
    decreases 11 - from
  {
    if from > 10 then None
    else if PatternRepeats(toks, from) then Some(from)
    else FirstRepeating(toks, from + 1)
  }

  // ---------------------------------------------------------------------
  // Stage 2: the most common token count per line
  // ---------------------------------------------------------------------

  /** What one line adds to the tally: its token count, if it has tokens. */
  function LengthOf(line: string): (r: seq<nat>)
    ensures |r| <= 1 && forall i :: 0 <= i < |r| ==> r[i] > 0
  {
    var n := |LineTokens(line)|;
    if n > 0 then [n] else []
  }

  /** The token counts of the lines that have tokens, in line order. */
  function LineLengths(lines: seq<string>): (lens: seq<nat>)
    ensures forall i :: 0 <= i < |lens| ==> lens[i] > 0
    decreases |lines|
  {
    if lines == [] then [] else LineLengths(lines[..|lines| - 1]) + LengthOf(lines[|lines| - 1])
  }

  function Count(s: seq<nat>, x: nat): nat
    decreases |s|
  {
    if s == [] then 0 else Count(s[..|s| - 1], x) + (if s[|s| - 1] == x then 1 else 0)
  }

  /** The keys of the `line_lengths` dict in insertion order: each count where it is first seen. */
  function Dedup(s: seq<nat>): (d: seq<nat>)
    ensures forall x :: x in d <==> x in s
    ensures d == [] <==> s == []
    decreases |s|
  {
    if s == [] then []
    else
      var d := Dedup(s[..|s| - 1]);
      assert s == s[..|s| - 1] + [s[|s| - 1]];
      if s[|s| - 1] in d then d else d + [s[|s| - 1]]
  }

  /**
   * `max(keys, key=counts.get)`: the first key with the largest count. The
   * result is a key at some position `k`, no key has a larger count, and
   * every key before `k` has a strictly smaller one.
   */
  function FirstMax(keys: seq<nat>, lens: seq<nat>): (r: nat)
    requires |keys| > 0
    ensures exists k :: 0 <= k < |keys| && keys[k] == r && forall j :: 0 <= j < k ==> Count(lens, keys[j]) < Count(lens, r)
    ensures forall j :: 0 <= j < |keys| ==> Count(lens, keys[j]) <= Count(lens, r)
    decreases |keys|
  {
    if |keys| == 1 then keys[0]
    else
      var n := |keys| - 1;
      var b := FirstMax(keys[..n], lens);
      assert forall j :: 0 <= j < n ==> keys[..n][j] == keys[j];
      if Count(lens, keys[n]) > Count(lens, b) then keys[n] else b
  }

  /** The most common token count, ties going to the count seen first. */
  function ModeOf(lens: seq<nat>): nat
    requires |lens| > 0
  {
    assert lens[0] in Dedup(lens);
    FirstMax(Dedup(lens), lens)
  }

  /** The first position of `x` in `s`. */
  function FirstIndex(s: seq<nat>, x: nat): (i: nat)
    requires x in s
    ensures i < |s| && s[i] == x && x !in s[..i]
    decreases |s|
  {
    if s[0] == x then 0 else 1 + FirstIndex(s[1..], x)
  }

  /** The dict keys of a prefix of the lines come first among all the keys. */
  lemma {:induction false} DedupPrefix(s: seq<nat>, m: nat)
    requires m <= |s|
    ensures |Dedup(s[..m])| <= |Dedup(s)| && Dedup(s[..m]) == Dedup(s)[..|Dedup(s[..m])|]
    decreases |s| - m
  {
    if m < |s| {
      var n := |s| - 1;
      assert s[..n][..m] == s[..m];
      DedupPrefix(s[..n], m);
      var d := Dedup(s[..n]);
      assert Dedup(s) == d || Dedup(s) == d + [s[n]];
      assert forall L :: 0 <= L <= |d| ==> (d + [s[n]])[..L] == d[..L];
    } else {
      assert s[..m] == s;
    }
  }

  /** No count occurs more often than the mode. */
  lemma ModeMostFrequent(lens: seq<nat>, i: nat)
    requires |lens| > 0 && i < |lens|
    ensures Count(lens, lens[i]) <= Count(lens, ModeOf(lens))
  {
    var keys := Dedup(lens);
    assert lens[i] in keys;
    var j :| 0 <= j < |keys| && keys[j] == lens[i];
  }

  /** A key placed before every occurrence of the first maximum has a strictly smaller count. */
  lemma FirstMaxBeats(keys: seq<nat>, lens: seq<nat>, j: nat)
    requires j < |keys|
    requires forall t :: 0 <= t <= j ==> keys[t] != FirstMax(keys, lens)
    ensures Count(lens, keys[j]) < Count(lens, FirstMax(keys, lens))
  {
    var r := FirstMax(keys, lens);
    var kr :| 0 <= kr < |keys| && keys[kr] == r && forall t :: 0 <= t < kr ==> Count(lens, keys[t]) < Count(lens, r);
    assert j < kr;
  }

  /** Lines before the first occurrence of `x` hold other values. */
  lemma BeforeFirstIndex(s: seq<nat>, x: nat, i: nat)
    requires x in s && i < FirstIndex(s, x)
    ensures s[i] != x
  {
    var f := FirstIndex(s, x);
    assert s[..f][i] == s[i];
  }

  /**
   * When `x` is absent from the lines up to `i`, the count of line `i` is a
   * dict key placed before every occurrence of `x` among the keys.
   */
  lemma KeyBefore(lens: seq<nat>, i: nat, x: nat) returns (j: nat)
    requires i < |lens|
    requires forall t :: 0 <= t <= i ==> lens[t] != x
    ensures j < |Dedup(lens)| && Dedup(lens)[j] == lens[i]
    ensures forall t :: 0 <= t <= j ==> Dedup(lens)[t] != x
  {
    var head := lens[..i + 1];
    var pre := Dedup(head);
    DedupPrefix(lens, i + 1);
    assert x !in head by {
      assert forall t :: 0 <= t < |head| ==> head[t] == lens[t];
    }
    assert head[i] == lens[i];
    j :| 0 <= j < |pre| && pre[j] == lens[i];
    assert forall t :: 0 <= t < |pre| ==> pre[t] != x;
  }

  /** A line whose count differs from the mode's, as do all lines before it, has a count that occurs strictly less often. */
  lemma ModeFirstSeen(lens: seq<nat>, i: nat)
    requires i < |lens|
    requires forall t :: 0 <= t <= i ==> lens[t] != ModeOf(lens)
    ensures Count(lens, lens[i]) < Count(lens, ModeOf(lens))
  {
    var j := KeyBefore(lens, i, ModeOf(lens));
    FirstMaxBeats(Dedup(lens), lens, j);
  }

  /**
   * The mode is a count that occurs, no count occurs more often, and every
   * line before its first occurrence has a count that occurs strictly less
   * often: ties go to the first-seen count.
   */
  lemma ModeCharacterised(lens: seq<nat>)
    requires |lens| > 0
    ensures ModeOf(lens) in lens
    ensures forall i :: 0 <= i < |lens| ==> Count(lens, lens[i]) <= Count(lens, ModeOf(lens))
    ensures forall i :: 0 <= i < FirstIndex(lens, ModeOf(lens)) ==> Count(lens, lens[i]) < Count(lens, ModeOf(lens))
  {
    var keys := Dedup(lens);
    var kr :| 0 <= kr < |keys| && keys[kr] == ModeOf(lens);
    forall i | 0 <= i < |lens| ensures Count(lens, lens[i]) <= Count(lens, ModeOf(lens)) {
      ModeMostFrequent(lens, i);
    }
    forall i | 0 <= i < FirstIndex(lens, ModeOf(lens)) ensures Count(lens, lens[i]) < Count(lens, ModeOf(lens)) {
      forall t | 0 <= t <= i ensures lens[t] != ModeOf(lens) {
        BeforeFirstIndex(lens, ModeOf(lens), t);
      }
      ModeFirstSeen(lens, i);
    }
  }

  // ---------------------------------------------------------------------
  // The whole heuristic
  // ---------------------------------------------------------------------

  /**
   * The decision of `detect_columns` from its two samples: 3 when there are
   * no tokens; otherwise the first qualifying stride; otherwise the mode of
   * the line token counts when it lies in 2..10; otherwise 3.
   */
  function Decide(toks: seq<string>, lens: seq<nat>): (r: nat)
    ensures 2 <= r <= 10
    ensures toks == [] ==> r == DefaultColumns
  {
    if toks == [] then DefaultColumns
    else match FirstRepeating(toks, 2)
      case Some(nc) => nc
      case None =>
        if lens == [] then DefaultColumns
        else if 2 <= ModeOf(lens) <= 10 then ModeOf(lens)
        else DefaultColumns
  }

  /** `detect_columns`: the tokens of the first 50 lines and the token counts of the first 100. */
  function DetectSpec(text: string): (r: nat)
    ensures 2 <= r <= 10
    ensures TokensOf(Take(SampleLines(text), 50)) == [] ==> r == DefaultColumns
  {
    Decide(TokensOf(Take(SampleLines(text), 50)), LineLengths(Take(SampleLines(text), 100)))
  }

  /**
   * The selection order: with tokens present, the smallest qualifying stride
   * wins; when no stride qualifies, a mode in 2..10 wins; otherwise the
   * answer is the default 3.
   */
  lemma DetectSelection(text: string, m: nat)
    ensures var toks := TokensOf(Take(SampleLines(text), 50));
            toks != [] && 2 <= m <= 10 && PatternRepeats(toks, m)
            && (forall m' :: 2 <= m' < m ==> !PatternRepeats(toks, m'))
            ==> DetectSpec(text) == m
    ensures var toks := TokensOf(Take(SampleLines(text), 50));
            var lens := LineLengths(Take(SampleLines(text), 100));
            toks != [] && (forall m' :: 2 <= m' <= 10 ==> !PatternRepeats(toks, m'))
            && |lens| > 0 && 2 <= ModeOf(lens) <= 10
            ==> DetectSpec(text) == ModeOf(lens)
    ensures var toks := TokensOf(Take(SampleLines(text), 50));
            var lens := LineLengths(Take(SampleLines(text), 100));
            toks != [] && (forall m' :: 2 <= m' <= 10 ==> !PatternRepeats(toks, m'))
            && !(|lens| > 0 && 2 <= ModeOf(lens) <= 10)
            ==> DetectSpec(text) == DefaultColumns
  {
  }

  /** `a <= b` gives `a * c <= b * c`. */
  lemma MulMonotone(a: nat, b: nat, c: nat)
    requires a <= b
    ensures a * c <= b * c
  {
    MulStepsUp(a, b - a, c);
  }

  lemma {:induction false} MulStepsUp(a: nat, d: nat, c: nat)
    ensures a * c <= (a + d) * c
    decreases d
  {
    if d > 0 {
      MulStepsUp(a, d - 1, c);
      assert (a + d) * c == (a + d - 1) * c + c;
    }
  }

  /** The nested sampling loops of stage 1 for one stride. */
  method PatternMatches(toks: seq<string>, nc: nat) returns (matches: bool)
    requires nc > 0 && |toks| >= nc * 3
    ensures matches == PatternRepeats(toks, nc)
  {
    var bound := SampleBound(toks, nc);
    matches := true;
    var i := 0;
    while i < nc
      invariant 0 <= i <= nc
      invariant matches ==> forall i', j :: 0 <= i' < i && 1 <= j < bound ==> SampleAgrees(toks, nc, i', j)
      invariant !matches ==> !PatternRepeats(toks, nc)
    {
      var first := toks[i];
      var j := 1;
      while j < bound
        invariant 1 <= j && (j <= bound || bound < 1)
        invariant matches
        invariant forall j' :: 1 <= j' < j ==> SampleAgrees(toks, nc, i, j')
      {
        var idx := i + j * nc;
        if idx >= |toks| {
          forall j' | j <= j' < bound ensures SampleAgrees(toks, nc, i, j') {
            MulMonotone(j, j', nc);
          }
          break;
        }
        if Breaks(first, toks[idx]) {
          assert !SampleAgrees(toks, nc, i, j);
          matches := false;
          break;
        }
        j := j + 1;
      }
      if !matches {
        break;
      }
      i := i + 1;
    }
  }

  lemma CountSnoc(s: seq<nat>, y: nat, x: nat)
    ensures Count(s + [y], x) == Count(s, x) + (if y == x then 1 else 0)
  {
    assert (s + [y])[..|s|] == s;
  }

  lemma DedupSnoc(s: seq<nat>, y: nat)
    ensures Dedup(s + [y]) == if y in Dedup(s) then Dedup(s) else Dedup(s) + [y]
  {
    assert (s + [y])[..|s|] == s;
  }

  /** The token-collecting loop over the first 50 lines. */
  method CollectTokens(head: seq<string>) returns (tokens: seq<string>)
    ensures tokens == TokensOf(head)
  {
    tokens := [];
    var k := 0;
    while k < |head|
      invariant 0 <= k <= |head|
      invariant tokens == TokensOf(head[..k])
    {
      var t := LineTokens(head[k]);
      assert head[..k + 1][..k] == head[..k];
      if t != [] {
        tokens := tokens + t;
      } else {
        assert tokens + t == tokens;
      }
      k := k + 1;
    }
    assert head[..k] == head;
  }

  /** Stage 1: the strides 2..10 in order, the first qualifying one returned. */
  method FindStride(tokens: seq<string>) returns (r: Option<nat>)
    ensures r == FirstRepeating(tokens, 2)
  {
    var nc := 2;
    while nc <= 10
      invariant 2 <= nc <= 11
      invariant FirstRepeating(tokens, 2) == FirstRepeating(tokens, nc)
    {
      if |tokens| >= nc * 3 {
        var matches := PatternMatches(tokens, nc);
        if matches {
          return Some(nc);
        }
      }
      nc := nc + 1;
    }
    return None;
  }

  lemma LineLengthsStep(sample: seq<string>, k: nat)
    requires k < |sample|
    ensures LineLengths(sample[..k + 1]) == LineLengths(sample[..k]) + LengthOf(sample[k])
  {
    assert sample[..k + 1][..k] == sample[..k];
  }

  /** A count seen before: its dict entry grows by one, the key order stays. */
  lemma TallySeen(counts: map<nat, nat>, order: seq<nat>, before: seq<nat>, length: nat)
    requires order == Dedup(before) && length in order
    requires forall x :: x in counts ==> counts[x] == Count(before, x)
    requires length in counts
    ensures order == Dedup(before + [length])
    ensures forall x :: x in counts[length := counts[length] + 1] ==>
      counts[length := counts[length] + 1][x] == Count(before + [length], x)
  {
    DedupSnoc(before, length);
    forall x | x in counts[length := counts[length] + 1]
      ensures counts[length := counts[length] + 1][x] == Count(before + [length], x)
    {
      CountSnoc(before, length, x);
    }
  }

  /** A new count: it enters the dict with 1 and goes last in the key order. */
  lemma TallyNew(counts: map<nat, nat>, order: seq<nat>, before: seq<nat>, length: nat)
    requires order == Dedup(before) && length !in order
    requires forall x :: x in counts ==> counts[x] == Count(before, x)
    requires length !in counts
    ensures order + [length] == Dedup(before + [length])
    ensures forall x :: x in counts[length := 1] ==> counts[length := 1][x] == Count(before + [length], x)
  {
    DedupSnoc(before, length);
    assert Count(before, length) == 0 by {
      CountAbsent(before, length);
    }
    forall x | x in counts[length := 1]
      ensures counts[length := 1][x] == Count(before + [length], x)
    {
      CountSnoc(before, length, x);
    }
  }

  lemma {:induction false} CountAbsent(s: seq<nat>, x: nat)
    requires x !in s
    ensures Count(s, x) == 0
    decreases |s|
  {
    if s != [] {
      assert x !in s[..|s| - 1];
      CountAbsent(s[..|s| - 1], x);
    }
  }

  /**
   * The `line_lengths` dict after the counts `lens`: its keys in insertion
   * order are `order`, and each key maps to its number of occurrences.
   */
  ghost predicate Tallied(counts: map<nat, nat>, order: seq<nat>, lens: seq<nat>) {
    && order == Dedup(lens)
    && (forall x :: x in counts <==> x in order)
    && (forall x :: x in counts ==> counts[x] == Count(lens, x))
  }

  /** One line of the tally: a line with tokens tallies its token count, any other changes nothing. */
  method TallyLine(counts: map<nat, nat>, order: seq<nat>, ghost before: seq<nat>, line: string)
    returns (counts': map<nat, nat>, order': seq<nat>)
    requires Tallied(counts, order, before)
    ensures Tallied(counts', order', before + LengthOf(line))
  {
    var tokens := LineTokens(line);
    if tokens == [] {
      assert before + LengthOf(line) == before;
      return counts, order;
    }
    assert LengthOf(line) == [|tokens|];
    counts', order' := Tally(counts, order, before, |tokens|);
  }

  /**
   * `line_lengths[length] = line_lengths.get(length, 0) + 1`: the count of
   * `length` grows by one, and a new key goes last in the key order.
   */
  method Tally(counts: map<nat, nat>, order: seq<nat>, ghost before: seq<nat>, length: nat)
    returns (counts': map<nat, nat>, order': seq<nat>)
    requires Tallied(counts, order, before)
    ensures Tallied(counts', order', before + [length])
  {
    var seen := if length in counts then counts[length] else 0;
    counts' := counts[length := seen + 1];
    if length in counts {
      TallySeen(counts, order, before, length);
      order' := order;
    } else {
      TallyNew(counts, order, before, length);
      order' := order + [length];
    }
  }

  /**
   * The `line_lengths` loop over the first 100 lines: the dict's keys in
   * insertion order, and each key's count.
   */
  method CountLineLengths(sample: seq<string>) returns (counts: map<nat, nat>, order: seq<nat>)
    ensures Tallied(counts, order, LineLengths(sample))
  {
    counts := map[];
    order := [];
    ghost var lens: seq<nat> := [];
    var k := 0;
    while k < |sample|
      invariant 0 <= k <= |sample|
      invariant lens == LineLengths(sample[..k])
      invariant Tallied(counts, order, lens)
    {
      LineLengthsStep(sample, k);
      counts, order := TallyLine(counts, order, lens, sample[k]);
      lens := lens + LengthOf(sample[k]);
      k := k + 1;
    }
    assert sample[..k] == sample;
  }

  lemma FirstMaxSnoc(keys: seq<nat>, y: nat, lens: seq<nat>)
    requires |keys| > 0
    ensures FirstMax(keys + [y], lens) ==
      if Count(lens, y) > Count(lens, FirstMax(keys, lens)) then y else FirstMax(keys, lens)
  {
    assert (keys + [y])[..|keys|] == keys;
  }

  /** `max(line_lengths, key=line_lengths.get)`: a strict comparison keeps the first maximum. */
  method MostCommon(order: seq<nat>, counts: map<nat, nat>, ghost lens: seq<nat>) returns (best: nat)
    requires |order| > 0
    requires forall x :: x in order ==> x in counts && counts[x] == Count(lens, x)
    ensures best == FirstMax(order, lens)
  {
    best := order[0];
    var i := 1;
    while i < |order|
      invariant 1 <= i <= |order|
      invariant best in order
      invariant best == FirstMax(order[..i], lens)
    {
      assert order[..i + 1] == order[..i] + [order[i]];
      FirstMaxSnoc(order[..i], order[i], lens);
      if counts[order[i]] > counts[best] {
        best := order[i];
      }
      i := i + 1;
    }
    assert order[..i] == order;
  }

  /** `detect_columns`: the answer is `DetectSpec(text)`. */
  method DetectColumns(text: string) returns (n: nat)
    ensures n == DetectSpec(text)
    ensures 2 <= n <= 10
  {
    var lines := SampleLines(text);
    var tokens := CollectTokens(Take(lines, 50));
    ghost var lens := LineLengths(Take(lines, 100));
    assert DetectSpec(text) == Decide(tokens, lens);
    n := DetectFrom(tokens, lines, lens);
  }

  /** Stages 1 and 2 and the default, once the tokens are collected. */
  method DetectFrom(tokens: seq<string>, lines: seq<string>, ghost lens: seq<nat>) returns (n: nat)
    requires lens == LineLengths(Take(lines, 100))
    ensures n == Decide(tokens, lens)
  {
    if tokens == [] {
      return DefaultColumns;
    }
    var stride := FindStride(tokens);
    if stride.Some? {
      return stride.value;
    }
    var counts, order := CountLineLengths(Take(lines, 100));
    if order == [] {
      return DefaultColumns;
    }
    assert |lens| > 0 by {
      assert order[0] in lens;
    }
    var best := MostCommon(order, counts, lens);
    if 2 <= best <= 10 {
      return best;
    }
    return DefaultColumns;
  }
}
