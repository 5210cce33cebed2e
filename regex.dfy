/**
 * The one regular expression the converter builds: for `k` columns,
 * `(\S+)\s*(\S+)\s*...(\S+)` with `k` groups, and Python's `re.findall`
 * over it. Matching is modelled literally as the backtracking search of
 * Python's engine: each `\S+` first takes the longest run it can and gives
 * characters back one at a time, each `\s*` likewise; `findall` tries a
 * match at every position from left to right and resumes after each match.
 *
 * The main result, `FindAllWords`, says what this search amounts to: the
 * matches are the consecutive `k`-word strides of `Text.Split(s)`, plus at
 * most one last match when the leftover words still hold `k` characters.
 */
module Regex {
  import opened Wrappers
  import opened Text

  /** The group `s[lo..hi]`. */
  datatype Span = Span(lo: nat, hi: nat)

  /** A match: its groups in order and the position where it ends. */
  datatype Match = Match(spans: seq<Span>, end: nat)

  /**
   * `spans` is a chain of groups read from position `q` to `end`: before
   * each group only whitespace, each group a non-empty run without
   * whitespace, and `end` right after the last group.
   */
  predicate Chain(s: string, q: nat, spans: seq<Span>, end: nat)
    decreases |spans|
  {
    if spans == [] then end == q
    else
      && q <= spans[0].lo < spans[0].hi <= |s|
      && AllSpaceIn(s, q, spans[0].lo)
      && NoSpaceIn(s, spans[0].lo, spans[0].hi)
      && Chain(s, spans[0].hi, spans[1..], end)
  }

  /** The text of one group. */
  function GroupText(s: string, sp: Span): string {
    if sp.lo <= sp.hi <= |s| then s[sp.lo..sp.hi] else []
  }

  /** The texts of the groups, in order: what `findall` reports for one match. */
  function Texts(s: string, spans: seq<Span>): (r: seq<string>)
    ensures |r| == |spans|
    ensures forall i :: 0 <= i < |spans| ==> r[i] == GroupText(s, spans[i])
    decreases |spans|
  {
    if spans == [] then [] else [GroupText(s, spans[0])] + Texts(s, spans[1..])
  }

  // ---------------------------------------------------------------------
  // The backtracking matcher
  // ---------------------------------------------------------------------

  /** `k` more groups, each after `\s*`, starting at `q`. */
  function MatchRest(s: string, q: nat, k: nat): (r: Option<Match>)
    requires q <= |s|
    ensures r.Some? ==> |r.value.spans| == k && r.value.end <= |s| && Chain(s, q, r.value.spans, r.value.end)
    decreases k, 3
  {
    if k == 0 then Some(Match([], q))
    else TrySpaces(s, q, SkipSpace(s, q), k)
  }

  /** `\s*` of length `w - q`, then `k` groups; on failure `\s*` gives back one character. */
  function TrySpaces(s: string, q: nat, w: nat, k: nat): (r: Option<Match>)
    requires q <= w <= |s| && AllSpaceIn(s, q, w) && k >= 1
    ensures r.Some? ==> |r.value.spans| == k && r.value.end <= |s| && Chain(s, q, r.value.spans, r.value.end)
    decreases k, 2, w - q
  {
    match MatchGroup(s, w, k)
    case Some(m) => Some(m)
    case None => if w == q then None else TrySpaces(s, q, w - 1, k)
  }

  /** A group `(\S+)` starting exactly at `p`, then `k - 1` more groups. */
  function MatchGroup(s: string, p: nat, k: nat): (r: Option<Match>)
    requires p <= |s| && k >= 1
    ensures r.Some? ==> |r.value.spans| == k && r.value.spans[0].lo == p && r.value.end <= |s|
                        && Chain(s, p, r.value.spans, r.value.end)
    decreases k, 1
  {
    TryEnds(s, p, WordEnd(s, p), k)
  }

  /** The group `s[p..e]`, then `k - 1` more; on failure the group gives back one character. */
  function TryEnds(s: string, p: nat, e: nat, k: nat): (r: Option<Match>)
    requires p <= e <= |s| && NoSpaceIn(s, p, e) && k >= 1
    ensures r.Some? ==> |r.value.spans| == k && r.value.spans[0].lo == p && r.value.end <= |s|
                        && Chain(s, p, r.value.spans, r.value.end)
    decreases k, 0, e - p
  {
    if e == p then None
    else
      match MatchRest(s, e, k - 1)
      case Some(m) => Some(Match([Span(p, e)] + m.spans, m.end))
      case None => TryEnds(s, p, e - 1, k)
  }

  lemma {:induction false} ChainBounds(s: string, q: nat, spans: seq<Span>, end: nat)
    requires q <= |s| && Chain(s, q, spans, end)
    ensures q <= end <= |s|
    ensures spans != [] ==> spans[0].hi <= end
    decreases |spans|
  {
    if spans != [] {
      ChainBounds(s, spans[0].hi, spans[1..], end);
    }
  }

  /** `re.findall` from position `p`: try a match at `p`; after a match resume at its end. */
  function FindFrom(s: string, p: nat, k: nat): (ms: seq<Match>)
    requires p <= |s| && k >= 1
    ensures MatchesChain(s, p, ms, k)
    decreases |s| - p
  {
    match MatchGroup(s, p, k)
    case Some(m) =>
      ChainBounds(s, p, m.spans, m.end);
      [m] + FindFrom(s, m.end, k)
    case None =>
      if p == |s| then [] else FindFrom(s, p + 1, k)
  }

  /**
   * The matches follow one another from `p` on without overlapping: each
   * has `k` groups chained from its first group, which starts no earlier
   * than the end of the match before it.
   */
  predicate MatchesChain(s: string, p: nat, ms: seq<Match>, k: nat)
    decreases |ms|
  {
    ms != [] ==>
      && |ms[0].spans| == k && k >= 1
      && p <= ms[0].spans[0].lo
      && Chain(s, ms[0].spans[0].lo, ms[0].spans, ms[0].end)
      && MatchesChain(s, ms[0].end, ms[1..], k)
  }

  /** `re.findall(pattern, s)` for the `k`-group pattern. */
  function FindAll(s: string, k: nat): seq<Match>
    requires k >= 1
  {
    FindFrom(s, 0, k)
  }

  /** The group texts of each match. */
  function MatchTexts(s: string, ms: seq<Match>): (r: seq<seq<string>>)
    ensures |r| == |ms|
    ensures forall i :: 0 <= i < |ms| ==> r[i] == Texts(s, ms[i].spans)
    decreases |ms|
  {
    if ms == [] then [] else [Texts(s, ms[0].spans)] + MatchTexts(s, ms[1..])
  }

  // ---------------------------------------------------------------------
  // What a chain of groups says about its texts
  // ---------------------------------------------------------------------

  /** Every group of a chain is a non-empty, whitespace-free substring, and they do not overlap. */
  lemma {:induction false} ChainGroups(s: string, q: nat, spans: seq<Span>, end: nat)
    requires Chain(s, q, spans, end)
    ensures forall i :: 0 <= i < |spans| ==>
      q <= spans[i].lo < spans[i].hi <= end && spans[i].hi <= |s|
      && GroupText(s, spans[i]) == s[spans[i].lo..spans[i].hi]
      && GroupText(s, spans[i]) != [] && NoSpace(GroupText(s, spans[i]))
    ensures forall i, j :: 0 <= i < j < |spans| ==> spans[i].hi <= spans[j].lo
    decreases |spans|
  {
    if spans != [] {
      ChainGroups(s, spans[0].hi, spans[1..], end);
      var t := GroupText(s, spans[0]);
      assert forall i :: 0 <= i < |t| ==> t[i] == s[spans[0].lo + i];
    }
  }

  /** A chain of groups uses up at least one non-whitespace character per group. */
  lemma {:induction false} ChainCount(s: string, q: nat, spans: seq<Span>, end: nat)
    requires q <= |s| && Chain(s, q, spans, end)
    ensures end <= |s| && NonSpaceCount(s, q) >= |spans| + NonSpaceCount(s, end)
    decreases |spans|
  {
    ChainBounds(s, q, spans, end);
    if spans != [] {
      var sp := spans[0];
      NonSpaceCountAcrossSpace(s, q, sp.lo);
      NonSpaceCountAcrossWord(s, sp.lo, sp.hi);
      ChainCount(s, sp.hi, spans[1..], end);
    }
  }

  /** No match without `k` non-whitespace characters ahead. */
  lemma GroupNeedsCharacters(s: string, p: nat, k: nat)
    requires p <= |s| && k >= 1 && MatchGroup(s, p, k).Some?
    ensures NonSpaceCount(s, p) >= k
  {
    var m := MatchGroup(s, p, k).value;
    ChainCount(s, p, m.spans, m.end);
  }

  // ---------------------------------------------------------------------
  // Completeness: k non-whitespace characters are enough for a match
  // ---------------------------------------------------------------------

  /** `\s*` backtracking never helps: the groups must start right after the whitespace run. */
  lemma {:induction false} TrySpacesFirst(s: string, q: nat, w: nat, k: nat)
    requires q <= w <= |s| && AllSpaceIn(s, q, w) && k >= 1
    requires w == |s| || !IsSpace(s[w])
    ensures TrySpaces(s, q, w, k) == MatchGroup(s, w, k)
    decreases w - q
  {
    if MatchGroup(s, w, k).None? && w > q {
      TrySpacesOnlySpace(s, q, w - 1, k);
    }
  }

  lemma {:induction false} TrySpacesOnlySpace(s: string, q: nat, w: nat, k: nat)
    requires q <= w < |s| && AllSpaceIn(s, q, w + 1) && k >= 1
    ensures TrySpaces(s, q, w, k).None?
    decreases w - q
  {
    assert WordEnd(s, w) == w;
    if w > q {
      TrySpacesOnlySpace(s, q, w - 1, k);
    }
  }

  /** The rest of the groups match exactly when at least `k` non-whitespace characters remain. */
  lemma {:induction false} RestComplete(s: string, q: nat, k: nat)
    requires q <= |s| && NonSpaceCount(s, q) >= k
    ensures MatchRest(s, q, k).Some?
    decreases k, 1
  {
    if k > 0 {
      var w := SkipSpace(s, q);
      NonSpaceCountAcrossSpace(s, q, w);
      TrySpacesFirst(s, q, w, k);
      GroupComplete(s, w, k);
    }
  }

  lemma {:induction false} GroupComplete(s: string, p: nat, k: nat)
    requires p <= |s| && k >= 1 && NonSpaceCount(s, p) >= k
    requires p == |s| || !IsSpace(s[p])
    ensures MatchGroup(s, p, k).Some?
    decreases k, 0
  {
    assert p < |s|;
    var e := WordEnd(s, p);
    assert NonSpaceCount(s, p) == 1 + NonSpaceCount(s, p + 1);
    RestComplete(s, p + 1, k - 1);
    TryEndsReaches(s, p, e, p + 1, k);
  }

  /** The backtracking over the group's end reaches every shorter end, so it succeeds if one does. */
  lemma {:induction false} TryEndsReaches(s: string, p: nat, e: nat, e': nat, k: nat)
    requires p < e' <= e <= |s| && NoSpaceIn(s, p, e) && k >= 1
    requires MatchRest(s, e', k - 1).Some?
    ensures TryEnds(s, p, e, k).Some?
    decreases e - p
  {
    if e > e' && MatchRest(s, e, k - 1).None? {
      TryEndsReaches(s, p, e - 1, e', k);
    }
  }

  // ---------------------------------------------------------------------
  // With k words ahead, a match is exactly those k words
  // ---------------------------------------------------------------------

  lemma {:induction false} WholeWords(s: string, p: nat, k: nat)
    requires p < |s| && !IsSpace(s[p]) && k >= 1 && |SplitFrom(s, p)| >= k
    ensures MatchGroup(s, p, k).Some?
    ensures MatchGroup(s, p, k).value.end <= |s|
    ensures Texts(s, MatchGroup(s, p, k).value.spans) == SplitFrom(s, p)[..k]
    ensures SplitFrom(s, MatchGroup(s, p, k).value.end) == SplitFrom(s, p)[k..]
    decreases k
  {
    var e := WordEnd(s, p);
    var words := SplitFrom(s, p);
    SplitFromAtWord(s, p);
    assert words[0] == s[p..e] && words[1..] == SplitFrom(s, e);
    if k == 1 {
      assert e > p;
      assert MatchRest(s, e, 0) == Some(Match([], e));
      assert [Span(p, e)] + [] == [Span(p, e)];
      assert TryEnds(s, p, e, 1) == Some(Match([Span(p, e)], e));
      assert Texts(s, [Span(p, e)]) == [s[p..e]];
    } else {
      var w := SkipSpace(s, e);
      SplitFromAcrossSpace(s, e, w);
      SplitFromStartsAtWord(s, w);
      WholeWords(s, w, k - 1);
      var m' := MatchGroup(s, w, k - 1).value;
      TrySpacesFirst(s, e, w, k - 1);
      assert MatchRest(s, e, k - 1) == Some(m');
      var m := Match([Span(p, e)] + m'.spans, m'.end);
      assert MatchGroup(s, p, k) == Some(m);
      assert m.spans[1..] == m'.spans;
      assert Texts(s, m.spans) == [s[p..e]] + Texts(s, m'.spans);
      assert words[..k] == [words[0]] + words[1..][..k - 1];
      assert words[k..] == words[1..][k - 1..];
    }
  }

  // ---------------------------------------------------------------------
  // With fewer than k words ahead, a match uses up every remaining character
  // ---------------------------------------------------------------------

  /**
   * When the group could not end one character later (`e + 1`), the match it
   * finds leaves exactly `k - 1` characters for the other groups and so
   * leaves nothing after it.
   */
  lemma {:induction false} TryEndsTight(s: string, p: nat, e: nat, k: nat)
    requires p <= e < |s| && NoSpaceIn(s, p, e + 1) && k >= 1
    requires MatchRest(s, e + 1, k - 1).None?
    requires TryEnds(s, p, e, k).Some?
    ensures NonSpaceCount(s, TryEnds(s, p, e, k).value.end) == 0
    decreases e - p
  {
    match MatchRest(s, e, k - 1)
    case Some(m') =>
      if NonSpaceCount(s, e + 1) >= k - 1 {
        RestComplete(s, e + 1, k - 1);
      }
      assert NonSpaceCount(s, e) == 1 + NonSpaceCount(s, e + 1);
      ChainCount(s, e, m'.spans, m'.end);
    case None =>
      TryEndsTight(s, p, e - 1, k);
  }

  lemma {:induction false} FewWordsConsumeAll(s: string, p: nat, k: nat)
    requires p < |s| && !IsSpace(s[p]) && k >= 1 && |SplitFrom(s, p)| < k
    requires MatchGroup(s, p, k).Some?
    ensures NonSpaceCount(s, MatchGroup(s, p, k).value.end) == 0
    decreases k
  {
    var e := WordEnd(s, p);
    SplitFromAtWord(s, p);
    match MatchRest(s, e, k - 1)
    case Some(m') =>
      assert k >= 2;
      var w := SkipSpace(s, e);
      TrySpacesFirst(s, e, w, k - 1);
      SplitFromAcrossSpace(s, e, w);
      assert MatchGroup(s, w, k - 1) == Some(m');
      assert w < |s| && !IsSpace(s[w]) by {
        GroupNeedsCharacters(s, w, k - 1);
      }
      FewWordsConsumeAll(s, w, k - 1);
    case None =>
      TryEndsTight(s, p, e - 1, k);
  }

  // ---------------------------------------------------------------------
  // findall over whole words
  // ---------------------------------------------------------------------

  /** Without `k` non-whitespace characters ahead, `findall` finds nothing more. */
  lemma {:induction false} NoMoreMatches(s: string, p: nat, k: nat)
    requires p <= |s| && k >= 1 && NonSpaceCount(s, p) < k
    ensures FindFrom(s, p, k) == []
    decreases |s| - p
  {
    if MatchGroup(s, p, k).Some? {
      GroupNeedsCharacters(s, p, k);
    }
    if p < |s| {
      NonSpaceCountMonotone(s, p, p + 1);
      NoMoreMatches(s, p + 1, k);
    }
  }

  /** Whitespace before the next word changes nothing. */
  lemma {:induction false} FindFromAcrossSpace(s: string, a: nat, b: nat, k: nat)
    requires a <= b <= |s| && AllSpaceIn(s, a, b) && k >= 1
    ensures FindFrom(s, a, k) == FindFrom(s, b, k)
    decreases b - a
  {
    if a < b {
      assert WordEnd(s, a) == a;
      FindFromAcrossSpace(s, a + 1, b, k);
    }
  }

  /** The number of matches beyond the strides: one if the leftover words still hold `k` characters. */
  function TailMatches(words: seq<string>, k: nat): nat
    requires k >= 1
  {
    if TotalLength(Leftover(words, k)) >= k then 1 else 0
  }

  lemma {:induction false} FindFromWords(s: string, p: nat, k: nat)
    requires p <= |s| && k >= 1
    ensures var words := SplitFrom(s, p);
            var texts := MatchTexts(s, FindFrom(s, p, k));
            && |texts| == |Chunks(words, k)| + TailMatches(words, k)
            && texts[..|Chunks(words, k)|] == Chunks(words, k)
    decreases |s| - p
  {
    var q := SkipSpace(s, p);
    FindFromAcrossSpace(s, p, q, k);
    SplitFromAcrossSpace(s, p, q);
    var words := SplitFrom(s, q);
    if q == |s| {
      assert MatchGroup(s, q, k).None?;
      assert FindFrom(s, q, k) == [];
    } else if |words| >= k {
      WholeWords(s, q, k);
      var m := MatchGroup(s, q, k).value;
      ChainBounds(s, q, m.spans, m.end);
      FindFromWords(s, m.end, k);
      var ms := FindFrom(s, q, k);
      assert ms == [m] + FindFrom(s, m.end, k);
      assert MatchTexts(s, ms) == [Texts(s, m.spans)] + MatchTexts(s, FindFrom(s, m.end, k));
      assert Chunks(words, k) == [words[..k]] + Chunks(words[k..], k);
      assert Leftover(words, k) == Leftover(words[k..], k);
    } else {
      SplitFromLength(s, q);
      assert Leftover(words, k) == words && Chunks(words, k) == [];
      if NonSpaceCount(s, q) >= k {
        GroupComplete(s, q, k);
        var m := MatchGroup(s, q, k).value;
        FewWordsConsumeAll(s, q, k);
        ChainBounds(s, q, m.spans, m.end);
        NoMoreMatches(s, m.end, k);
        assert FindFrom(s, q, k) == [m];
      } else {
        NoMoreMatches(s, q, k);
      }
    }
  }

  /**
   * What `re.findall` returns for the `k`-group pattern: first one match per
   * stride of `k` words of `s.split()`, each match's groups being exactly
   * those words; then one more match when the leftover words hold at least
   * `k` characters (it splits them into `k` groups), and nothing else.
   */
  lemma FindAllWords(s: string, k: nat)
    requires k >= 1
    ensures var texts := MatchTexts(s, FindAll(s, k));
            && |texts| == |Chunks(Split(s), k)| + TailMatches(Split(s), k)
            && texts[..|Chunks(Split(s), k)|] == Chunks(Split(s), k)
  {
    FindFromWords(s, 0, k);
  }

  /** Each match has `k` groups, each a non-empty whitespace-free substring of `s`; matches do not overlap. */
  lemma {:induction false} MatchesAreWords(s: string, p: nat, ms: seq<Match>, k: nat)
    requires p <= |s| && MatchesChain(s, p, ms, k)
    ensures forall i :: 0 <= i < |ms| ==>
      |ms[i].spans| == k
      && (forall g :: 0 <= g < k ==>
            p <= ms[i].spans[g].lo < ms[i].spans[g].hi <= ms[i].end <= |s|
            && Texts(s, ms[i].spans)[g] == s[ms[i].spans[g].lo..ms[i].spans[g].hi]
            && Texts(s, ms[i].spans)[g] != [] && NoSpace(Texts(s, ms[i].spans)[g]))
    ensures forall i, j :: 0 <= i < j < |ms| ==> ms[i].end <= ms[j].spans[0].lo
    decreases |ms|
  {
    if ms != [] {
      var m := ms[0];
      ChainGroups(s, m.spans[0].lo, m.spans, m.end);
      ChainBounds(s, m.spans[0].lo, m.spans, m.end);
      MatchesAreWords(s, m.end, ms[1..], k);
      assert forall j :: 1 <= j < |ms| ==> ms[j] == ms[1..][j - 1];
    }
  }

  /** The group texts of every match are `k` non-empty, whitespace-free strings. */
  lemma FindAllTexts(s: string, k: nat)
    requires k >= 1
    ensures forall i :: 0 <= i < |FindAll(s, k)| ==>
      var t := MatchTexts(s, FindAll(s, k))[i];
      |t| == k && forall g :: 0 <= g < k ==> t[g] != [] && NoSpace(t[g])
  {
    MatchesAreWords(s, 0, FindAll(s, k), k);
  }
}
