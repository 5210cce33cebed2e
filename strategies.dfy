/**
 * The three extraction strategies and the page dispatch, as functions of
 * their inputs: which value lists each strategy builds ("candidates"), how
 * validation sorts them into kept and rejected, and what a page yields for
 * each extraction method. The converter's methods are proved against these.
 */
module Strategies {
  import opened Wrappers
  import opened Text
  import opened Records
  import RE = Regex

  /** `ExtractionMethod`. */
  datatype ExtractionMethod = Auto | Structured | Regex | Table

  /** A table cell as the PDF library reports it: `None` for an empty cell. */
  datatype Cell = Missing | CellText(text: string)

  type Row = seq<Cell>

  type Table = seq<Row>

  /** A PDF page: the text it yields (`None` when there is none) and its tables. */
  datatype Page = Page(text: Option<string>, tables: seq<Table>)

  /** Python's truth value of an optional column count: unset and 0 are both false. */
  predicate IsSet(n: Option<int>) {
    n.Some? && n.value != 0
  }

  function Max0(n: int): nat { if n < 0 then 0 else n }

  // ---------------------------------------------------------------------
  // Validation bookkeeping, shared by all strategies
  // ---------------------------------------------------------------------

  /**
   * What a strategy reports: the value lists it keeps as records, and by
   * how much it raises the valid and invalid counters.
   */
  datatype Outcome = Outcome(kept: seq<seq<string>>, valid: nat, invalid: nat)

  /**
   * `if not self.validate or record.validate(): keep, valid += 1 else invalid += 1`,
   * applied to the candidates in order.
   */
  function Admit(cands: seq<seq<string>>, validateEnabled: bool): (o: Outcome)
    ensures o.valid == |o.kept| && o.valid + o.invalid == |cands|
    ensures !validateEnabled ==> o.kept == cands && o.invalid == 0
    decreases |cands|
  {
    if cands == [] then Outcome([], 0, 0)
    else
      var n := |cands| - 1;
      var o := Admit(cands[..n], validateEnabled);
      assert cands == cands[..n] + [cands[n]];
      if !validateEnabled || Validate(cands[n]) then Outcome(o.kept + [cands[n]], o.valid + 1, o.invalid)
      else Outcome(o.kept, o.valid, o.invalid + 1)
  }

  /** A value list is kept exactly when it is a candidate that passes validation (or validation is off). */
  lemma {:induction false} AdmitKeeps(cands: seq<seq<string>>, validateEnabled: bool)
    ensures forall v :: v in Admit(cands, validateEnabled).kept <==> v in cands && (!validateEnabled || Validate(v))
    decreases |cands|
  {
    if cands != [] {
      var n := |cands| - 1;
      AdmitKeeps(cands[..n], validateEnabled);
      assert cands == cands[..n] + [cands[n]];
    }
  }

  /** Admitting one more candidate. */
  lemma AdmitSnoc(cands: seq<seq<string>>, v: seq<string>, validateEnabled: bool)
    ensures var o := Admit(cands, validateEnabled);
            Admit(cands + [v], validateEnabled) ==
              if !validateEnabled || Validate(v) then Outcome(o.kept + [v], o.valid + 1, o.invalid)
              else Outcome(o.kept, o.valid, o.invalid + 1)
  {
    assert (cands + [v])[..|cands|] == cands;
  }

  /** When every candidate is valid, all are kept and nothing is counted invalid. */
  lemma {:induction false} AdmitAllValid(cands: seq<seq<string>>, validateEnabled: bool)
    requires forall i :: 0 <= i < |cands| ==> Validate(cands[i])
    ensures Admit(cands, validateEnabled) == Outcome(cands, |cands|, 0)
    decreases |cands|
  {
    if cands != [] {
      var n := |cands| - 1;
      AdmitAllValid(cands[..n], validateEnabled);
      assert cands[..n] + [cands[n]] == cands;
    }
  }

  // ---------------------------------------------------------------------
  // extract_structured_data
  // ---------------------------------------------------------------------

  /**
   * The value lists of the fixed-stride strategy: consecutive strides of
   * `num_columns` tokens of `text.split()`; nothing when the count is unset,
   * zero, or (see the findings) negative.
   */
  function StructuredCandidates(text: string, n: Option<int>): seq<seq<string>> {
    if !IsSet(n) || n.value < 0 then [] else Chunks(Split(text), n.value)
  }

  /**
   * With `n > 0` columns and `L` tokens the strategy builds `L / n` records,
   * record `k` being tokens `k*n` up to `(k+1)*n`.
   */
  lemma StructuredCount(text: string, n: nat)
    requires n > 0
    ensures |StructuredCandidates(text, Some(n))| == |Split(text)| / n
  {
    ChunksLength(Split(text), n);
  }

  lemma StructuredRecord(text: string, n: nat, k: nat)
    requires n > 0 && k < |Split(text)| / n
    ensures (k + 1) * n <= |Split(text)| && k < |StructuredCandidates(text, Some(n))|
    ensures StructuredCandidates(text, Some(n))[k] == Split(text)[k * n..(k + 1) * n]
  {
    ChunksLength(Split(text), n);
    ChunkAt(Split(text), n, k);
  }

  /**
   * As tokens are never blank, every structured record is valid and none is
   * counted invalid; an unset or zero count yields and counts nothing.
   */
  lemma StructuredAdmitted(text: string, n: Option<int>, validateEnabled: bool)
    ensures Admit(StructuredCandidates(text, n), validateEnabled) ==
      Outcome(StructuredCandidates(text, n), |StructuredCandidates(text, n)|, 0)
    ensures !IsSet(n) ==> Admit(StructuredCandidates(text, n), validateEnabled) == Outcome([], 0, 0)
  {
    StructuredValid(text, n);
    AdmitAllValid(StructuredCandidates(text, n), validateEnabled);
  }

  /** Every structured record passes `validate`. */
  lemma StructuredValid(text: string, n: Option<int>)
    ensures forall i :: 0 <= i < |StructuredCandidates(text, n)| ==> Validate(StructuredCandidates(text, n)[i])
  {
    if IsSet(n) && n.value > 0 {
      var words := Split(text);
      ChunksLength(words, n.value);
      forall i | 0 <= i < |Chunks(words, n.value)|
        ensures Validate(Chunks(words, n.value)[i])
      {
        ChunkAt(words, n.value, i);
        var c := Chunks(words, n.value)[i];
        forall j | 0 <= j < |c| ensures c[j] != [] && NoSpace(c[j]) {
          assert c[j] == words[i * n.value + j];
        }
        WordsValidate(c);
      }
    }
  }

  // ---------------------------------------------------------------------
  // extract_regex_data
  // ---------------------------------------------------------------------

  /**
   * The value lists of the regex strategy: the groups of every match of
   * `(\S+)\s*...(\S+)` with `num_columns` groups. Nothing when the count is
   * unset or zero; for a negative count the pattern is empty and `findall`
   * reports zero-width matches with no values at each of `|text| + 1` positions.
   */
  function RegexCandidates(text: string, n: Option<int>): seq<seq<string>> {
    if !IsSet(n) then []
    else if n.value < 0 then seq(|text| + 1, _ => [])
    else RE.MatchTexts(text, RE.FindAll(text, n.value))
  }

  /**
   * Every regex record holds exactly `n` values, each a non-empty
   * whitespace-free piece of the text.
   */
  lemma RegexShape(text: string, n: Option<int>)
    ensures forall i :: 0 <= i < |RegexCandidates(text, n)| ==>
      |RegexCandidates(text, n)[i]| == Max0(n.value)
      && forall g :: 0 <= g < |RegexCandidates(text, n)[i]| ==>
           RegexCandidates(text, n)[i][g] != [] && NoSpace(RegexCandidates(text, n)[i][g])
  {
    if IsSet(n) && n.value > 0 {
      RE.FindAllTexts(text, n.value);
    }
  }

  /** So all regex records pass validation, and the valid counter grows by the number of matches. */
  lemma RegexAdmitted(text: string, n: Option<int>, validateEnabled: bool)
    ensures Admit(RegexCandidates(text, n), validateEnabled) ==
      Outcome(RegexCandidates(text, n), |RegexCandidates(text, n)|, 0)
  {
    var cands := RegexCandidates(text, n);
    RegexShape(text, n);
    forall i | 0 <= i < |cands| ensures Validate(cands[i]) {
      WordsValidate(cands[i]);
    }
    AdmitAllValid(cands, validateEnabled);
  }

  /**
   * The regex strategy starts with exactly the structured records, and adds
   * at most one more: the leftover tokens split into `n` pieces when they
   * hold at least `n` characters. The two strategies therefore differ only
   * in that last record.
   */
  lemma RegexExtendsStructured(text: string, n: nat)
    requires n > 0
    ensures var r := RegexCandidates(text, Some(n));
            var s := StructuredCandidates(text, Some(n));
            && |r| == |s| + RE.TailMatches(Split(text), n)
            && r[..|s|] == s
  {
    RE.FindAllWords(text, n);
  }

  // ---------------------------------------------------------------------
  // extract_table_data
  // ---------------------------------------------------------------------

  /** `str(cell)`: an empty cell is Python's `None` and prints as "None". */
  function CellString(c: Cell): string {
    match c
    case Missing => "None"
    case CellText(t) => t
  }

  /** `[str(row[i]).strip() for i in range(num_columns)]`. */
  function RowValues(row: Row, n: int): (v: seq<string>)
    requires |row| >= n
    ensures |v| == Max0(n)
    ensures forall i :: 0 <= i < |v| ==> v[i] == Strip(CellString(row[i]))
  {
    seq(Max0(n), i requires 0 <= i < Max0(n) => Strip(CellString(row[i])))
  }

  /** The rows of all tables, in order, that have at least `n` cells. */
  function WideRows(tables: seq<Table>, n: int): (rows: seq<Row>)
    ensures forall r :: r in rows <==> exists t :: t in tables && r in t && |r| >= n
    ensures forall k :: 0 <= k < |rows| ==> |rows[k]| >= n
    decreases |tables|
  {
    if tables == [] then []
    else
      var m := |tables| - 1;
      assert tables == tables[..m] + [tables[m]];
      WideRows(tables[..m], n) + WideRowsOf(tables[m], n)
  }

  function WideRowsOf(table: Table, n: int): (rows: seq<Row>)
    ensures forall r :: r in rows <==> r in table && |r| >= n
    ensures forall k :: 0 <= k < |rows| ==> |rows[k]| >= n
    decreases |table|
  {
    if table == [] then []
    else
      var m := |table| - 1;
      assert table == table[..m] + [table[m]];
      WideRowsOf(table[..m], n) + (if |table[m]| >= n then [table[m]] else [])
  }

  /** The values of each of the given wide rows. */
  function ValuesOfRows(rows: seq<Row>, n: int): (cands: seq<seq<string>>)
    requires forall k :: 0 <= k < |rows| ==> |rows[k]| >= n
    ensures |cands| == |rows|
    ensures forall k :: 0 <= k < |rows| ==> cands[k] == RowValues(rows[k], n)
  {
    seq(|rows|, k requires 0 <= k < |rows| => RowValues(rows[k], n))
  }

  /** What one row contributes: its values when it has at least `n` cells, nothing otherwise. */
  function WideValues(row: Row, n: int): seq<seq<string>> {
    if |row| >= n then [RowValues(row, n)] else []
  }

  /** The value lists the inner loop of the table strategy builds from one table. */
  function RowCandidates(table: Table, n: int): seq<seq<string>>
    decreases |table|
  {
    if table == [] then []
    else
      var m := |table| - 1;
      RowCandidates(table[..m], n) + WideValues(table[m], n)
  }

  /** The value lists of the table strategy, table by table. */
  function TableCandidates(tables: seq<Table>, n: int): seq<seq<string>>
    decreases |tables|
  {
    if tables == [] then []
    else
      var m := |tables| - 1;
      TableCandidates(tables[..m], n) + RowCandidates(tables[m], n)
  }

  /** One more row: its values follow when it is wide enough. */
  lemma RowCandidatesSnoc(seen: seq<seq<string>>, table: Table, r: nat, n: int)
    requires r < |table|
    ensures seen + RowCandidates(table[..r + 1], n) == (seen + RowCandidates(table[..r], n)) + WideValues(table[r], n)
  {
    assert table[..r + 1][..r] == table[..r];
  }

  /** One more table: its rows' values follow. */
  lemma TableCandidatesSnoc(tables: seq<Table>, t: nat, n: int)
    requires t < |tables|
    ensures TableCandidates(tables[..t + 1], n) == TableCandidates(tables[..t], n) + RowCandidates(tables[t], n)
  {
    assert tables[..t + 1][..t] == tables[..t];
  }

  lemma ValuesOfRowsAppend(a: seq<Row>, b: seq<Row>, n: int)
    requires forall k :: 0 <= k < |a| ==> |a[k]| >= n
    requires forall k :: 0 <= k < |b| ==> |b[k]| >= n
    ensures forall k :: 0 <= k < |a + b| ==> |(a + b)[k]| >= n
    ensures ValuesOfRows(a + b, n) == ValuesOfRows(a, n) + ValuesOfRows(b, n)
  {
  }

  lemma {:induction false} RowCandidatesRows(table: Table, n: int)
    ensures RowCandidates(table, n) == ValuesOfRows(WideRowsOf(table, n), n)
    decreases |table|
  {
    if table != [] {
      var m := |table| - 1;
      RowCandidatesRows(table[..m], n);
      var last: seq<Row> := if |table[m]| >= n then [table[m]] else [];
      var lastValues: seq<seq<string>> := if |table[m]| >= n then [RowValues(table[m], n)] else [];
      assert RowCandidates(table, n) == RowCandidates(table[..m], n) + lastValues;
      assert WideRowsOf(table, n) == WideRowsOf(table[..m], n) + last;
      assert ValuesOfRows(last, n) == lastValues;
      ValuesOfRowsAppend(WideRowsOf(table[..m], n), last, n);
    }
  }

  /**
   * The table strategy takes exactly the rows with at least `n` cells, in
   * order, and each gives the stripped `str` of its first `n` cells.
   */
  lemma {:induction false} TableCandidatesRows(tables: seq<Table>, n: int)
    ensures TableCandidates(tables, n) == ValuesOfRows(WideRows(tables, n), n)
    decreases |tables|
  {
    if tables != [] {
      var m := |tables| - 1;
      TableCandidatesRows(tables[..m], n);
      RowCandidatesRows(tables[m], n);
      ValuesOfRowsAppend(WideRows(tables[..m], n), WideRowsOf(tables[m], n), n);
    }
  }

  /**
   * So the valid and invalid counters together grow by the number of wide
   * rows, and what is returned is the values of the wide rows that pass
   * validation.
   */
  lemma TableCounted(tables: seq<Table>, n: int, validateEnabled: bool)
    ensures var o := Admit(TableCandidates(tables, n), validateEnabled);
            o.valid + o.invalid == |WideRows(tables, n)|
    ensures forall v :: v in Admit(TableCandidates(tables, n), validateEnabled).kept <==>
      v in ValuesOfRows(WideRows(tables, n), n) && (!validateEnabled || Validate(v))
  {
    TableCandidatesRows(tables, n);
    AdmitKeeps(TableCandidates(tables, n), validateEnabled);
  }

  // ---------------------------------------------------------------------
  // process_page
  // ---------------------------------------------------------------------

  /** The regex outcome followed by the structured one: AUTO's one retry. */
  function Then(first: Outcome, second: Outcome): Outcome {
    Outcome(second.kept, first.valid + second.valid, first.invalid + second.invalid)
  }

  /** What `extract_structured_data` returns and counts. */
  function StructuredOutcome(text: string, n: Option<int>, validateEnabled: bool): Outcome {
    Admit(StructuredCandidates(text, n), validateEnabled)
  }

  /** What `extract_regex_data` returns and counts. */
  function RegexOutcome(text: string, n: Option<int>, validateEnabled: bool): Outcome {
    Admit(RegexCandidates(text, n), validateEnabled)
  }

  /** What `extract_table_data` returns and counts. */
  function TableOutcome(tables: seq<Table>, n: int, validateEnabled: bool): Outcome {
    Admit(TableCandidates(tables, n), validateEnabled)
  }

  /** What one page yields under the given method and settings. */
  function PageOutcome(m: ExtractionMethod, page: Page, n: Option<int>, validateEnabled: bool): Outcome
    requires m == Table ==> n.Some?
  {
    if m == Table then TableOutcome(page.tables, n.value, validateEnabled)
    else if page.text.None? || page.text.value == [] then Outcome([], 0, 0)
    else TextOutcome(m, page.text.value, n, validateEnabled)
  }

  /** What the text strategies yield on the non-empty text of a page. */
  function TextOutcome(m: ExtractionMethod, text: string, n: Option<int>, validateEnabled: bool): Outcome
    requires m != Table
  {
    match m
    case Structured => StructuredOutcome(text, n, validateEnabled)
    case Regex => RegexOutcome(text, n, validateEnabled)
    case Auto =>
      var r := RegexOutcome(text, n, validateEnabled);
      if |r.kept| > 0 then r else Then(r, StructuredOutcome(text, n, validateEnabled))
  }

  /**
   * On a text, the structured retry of AUTO changes nothing: regex yields
   * nothing only when the text has fewer tokens than columns, and then the
   * structured strategy yields and counts nothing either.
   */
  lemma RetryChangesNothing(text: string, n: Option<int>, validateEnabled: bool)
    ensures RegexOutcome(text, n, validateEnabled).kept == RegexCandidates(text, n)
    ensures |RegexCandidates(text, n)| == 0 ==> StructuredOutcome(text, n, validateEnabled) == Outcome([], 0, 0)
  {
    RegexAdmitted(text, n, validateEnabled);
    if |RegexCandidates(text, n)| == 0 {
      NoMatchNoStride(text, n);
      var s := StructuredOutcome(text, n, validateEnabled);
      assert s.valid + s.invalid == 0;
    }
  }

  /** A text on which the pattern finds nothing holds no whole stride either. */
  lemma NoMatchNoStride(text: string, n: Option<int>)
    requires RegexCandidates(text, n) == []
    ensures StructuredCandidates(text, n) == []
  {
    if IsSet(n) && n.value > 0 {
      RegexExtendsStructured(text, n.value);
    }
  }

  /** On the text of a page, AUTO behaves exactly like REGEX. */
  lemma AutoIsRegexOnText(text: string, n: Option<int>, validateEnabled: bool)
    ensures TextOutcome(Auto, text, n, validateEnabled) == TextOutcome(Regex, text, n, validateEnabled)
  {
    RetryChangesNothing(text, n, validateEnabled);
  }

  /** AUTO behaves exactly like REGEX. */
  lemma AutoIsRegex(page: Page, n: Option<int>, validateEnabled: bool)
    ensures PageOutcome(Auto, page, n, validateEnabled) == PageOutcome(Regex, page, n, validateEnabled)
  {
    if page.text.Some? && page.text.value != [] {
      var text := page.text.value;
      assert PageOutcome(Auto, page, n, validateEnabled) == TextOutcome(Auto, text, n, validateEnabled);
      assert PageOutcome(Regex, page, n, validateEnabled) == TextOutcome(Regex, text, n, validateEnabled);
      AutoIsRegexOnText(text, n, validateEnabled);
    }
  }

  /** Every page adds to the valid counter exactly as many records as it returns. */
  lemma PageValidIsKept(m: ExtractionMethod, page: Page, n: Option<int>, validateEnabled: bool)
    requires m == Table ==> n.Some?
    ensures PageOutcome(m, page, n, validateEnabled).valid == |PageOutcome(m, page, n, validateEnabled).kept|
  {
    if m == Auto && page.text.Some? && page.text.value != [] {
      var text := page.text.value;
      var r := Admit(RegexCandidates(text, n), validateEnabled);
      assert |r.kept| == 0 ==> r.valid == 0;
    }
  }

  /** With validation switched off, no page counts a record as invalid. */
  lemma PageNoInvalid(m: ExtractionMethod, page: Page, n: Option<int>)
    requires m == Table ==> n.Some?
    ensures PageOutcome(m, page, n, false).invalid == 0
  {
  }

  // ---------------------------------------------------------------------
  // The record loop of convert
  // ---------------------------------------------------------------------

  /** Page outcomes in page order, summed: the records concatenated, the counter increments added. */
  function Combine(outs: seq<Outcome>): Outcome
    decreases |outs|
  {
    if outs == [] then Outcome([], 0, 0)
    else
      var k := |outs| - 1;
      var o := Combine(outs[..k]);
      Outcome(o.kept + outs[k].kept, o.valid + outs[k].valid, o.invalid + outs[k].invalid)
  }

  /** Summing outcomes keeps "valid counts the records returned" and "nothing counted invalid". */
  lemma {:induction false} CombineCounters(outs: seq<Outcome>)
    ensures (forall i :: 0 <= i < |outs| ==> outs[i].valid == |outs[i].kept|) ==>
      Combine(outs).valid == |Combine(outs).kept|
    ensures (forall i :: 0 <= i < |outs| ==> outs[i].invalid == 0) ==> Combine(outs).invalid == 0
    decreases |outs|
  {
    if outs != [] {
      CombineCounters(outs[..|outs| - 1]);
    }
  }

  /** The number of records of each outcome. */
  function KeptCounts(outs: seq<Outcome>): (c: seq<nat>)
    ensures |c| == |outs| && forall i :: 0 <= i < |outs| ==> c[i] == |outs[i].kept|
  {
    seq(|outs|, i requires 0 <= i < |outs| => |outs[i].kept|)
  }

  function Sum(xs: seq<nat>): nat
    decreases |xs|
  {
    if xs == [] then 0 else Sum(xs[..|xs| - 1]) + xs[|xs| - 1]
  }

  /** The records of a document number the sum of the per-page record counts. */
  lemma {:induction false} CombineCount(outs: seq<Outcome>)
    ensures |Combine(outs).kept| == Sum(KeptCounts(outs))
    decreases |outs|
  {
    if outs != [] {
      var k := |outs| - 1;
      CombineCount(outs[..k]);
      assert KeptCounts(outs)[..k] == KeptCounts(outs[..k]);
    }
  }

  /** The outcome of every page, in page order. */
  function PageOutcomes(pages: seq<Page>, m: ExtractionMethod, n: Option<int>, validateEnabled: bool): (outs: seq<Outcome>)
    requires m == Table ==> n.Some?
    ensures |outs| == |pages|
    ensures forall i :: 0 <= i < |pages| ==> outs[i] == PageOutcome(m, pages[i], n, validateEnabled)
  {
    seq(|pages|, i requires 0 <= i < |pages| => PageOutcome(m, pages[i], n, validateEnabled))
  }

  /** The record loop of `convert` over all pages. */
  function DocumentOutcome(pages: seq<Page>, m: ExtractionMethod, n: Option<int>, validateEnabled: bool): Outcome
    requires m == Table ==> n.Some?
  {
    Combine(PageOutcomes(pages, m, n, validateEnabled))
  }

  /** One more page: its records follow those of the pages before it, and its counts add up. */
  lemma DocumentSnoc(pages: seq<Page>, p: nat, m: ExtractionMethod, n: Option<int>, validateEnabled: bool)
    requires m == Table ==> n.Some?
    requires p < |pages|
    ensures var d := DocumentOutcome(pages[..p], m, n, validateEnabled);
            var o := PageOutcome(m, pages[p], n, validateEnabled);
            DocumentOutcome(pages[..p + 1], m, n, validateEnabled) ==
              Outcome(d.kept + o.kept, d.valid + o.valid, d.invalid + o.invalid)
  {
    var outs := PageOutcomes(pages[..p + 1], m, n, validateEnabled);
    var before := PageOutcomes(pages[..p], m, n, validateEnabled);
    assert forall i :: 0 <= i < p ==> outs[..p][i] == before[i];
    assert outs[..p] == before;
  }

  /**
   * Over a whole document the valid counter grows by the number of records
   * written, and with validation off the invalid counter does not grow.
   */
  lemma DocumentCounters(pages: seq<Page>, m: ExtractionMethod, n: Option<int>, validateEnabled: bool)
    requires m == Table ==> n.Some?
    ensures DocumentOutcome(pages, m, n, validateEnabled).valid == |DocumentOutcome(pages, m, n, validateEnabled).kept|
    ensures !validateEnabled ==> DocumentOutcome(pages, m, n, validateEnabled).invalid == 0
  {
    var outs := PageOutcomes(pages, m, n, validateEnabled);
    forall i | 0 <= i < |outs| ensures outs[i].valid == |outs[i].kept| {
      PageValidIsKept(m, pages[i], n, validateEnabled);
    }
    if !validateEnabled {
      forall i | 0 <= i < |outs| ensures outs[i].invalid == 0 {
        PageNoInvalid(m, pages[i], n);
      }
    }
    CombineCounters(outs);
  }

  // ---------------------------------------------------------------------
  // Findings: the code as written, where it differs from the model above
  // ---------------------------------------------------------------------

  /**
   * `list(match)` as written: for one column `findall` returns each match as
   * a string rather than a 1-tuple, and `list` of a string is its characters.
   */
  function MatchValuesAsWritten(groups: seq<string>): seq<string> {
    if |groups| == 1 then seq(|groups[0]|, i requires 0 <= i < |groups[0]| => [groups[0][i]])
    else groups
  }

  function RegexCandidatesAsWritten(text: string, n: Option<int>): seq<seq<string>> {
    var ms := RegexCandidates(text, n);
    seq(|ms|, i requires 0 <= i < |ms| => MatchValuesAsWritten(ms[i]))
  }

  /**
   * With one column, the text "ab" gives a record of two values "a", "b"
   * as written, where one value "ab" (the record width being the column
   * count) is intended.
   */
  lemma RegexOneColumnAsWritten()
    ensures RegexCandidates("ab", Some(1)) == [["ab"]]
    ensures RegexCandidatesAsWritten("ab", Some(1)) == [["a", "b"]]
  {
    var text := "ab";
    assert SkipSpace(text, 0) == 0 && WordEnd(text, 0) == 2 && SkipSpace(text, 2) == 2;
    assert text[0..2] == "ab";
    assert Split(text) == ["ab"];
    assert Chunks(["ab"], 1) == [["ab"]] by {
      assert ["ab"][1..] == [];
    }
    assert Leftover(["ab"], 1) == [];
    RE.FindAllWords(text, 1);
    assert MatchValuesAsWritten(["ab"]) == ["a", "b"];
    assert RegexCandidatesAsWritten(text, Some(1)) == [MatchValuesAsWritten(["ab"])];
  }

  /**
   * The stride loop as written, `while i + n <= len(tokens): ...; i += n`:
   * the index after `steps` iterations.
   */
  function StructuredIndexAsWritten(n: int, steps: nat): int {
    if steps == 0 then 0 else StructuredIndexAsWritten(n, steps - 1) + n
  }

  /** For a negative column count the loop guard holds after every number of iterations: the loop never ends. */
  lemma {:induction false} StructuredNeverStopsAsWritten(n: int, tokenCount: nat, steps: nat)
    requires n < 0
    ensures StructuredIndexAsWritten(n, steps) <= 0
    ensures StructuredIndexAsWritten(n, steps) + n <= tokenCount
    decreases steps
  {
    if steps > 0 {
      StructuredNeverStopsAsWritten(n, tokenCount, steps - 1);
    }
  }
}
