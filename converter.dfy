/**
 * `PDFToCSVConverter`: the settings, the column schema and the statistics
 * counters, updated in place by the extraction strategies and by `convert`.
 * Every method is proved against the functions of `Strategies` and `Schema`.
 */
module Converter {
  import opened Wrappers
  import opened Text
  import opened Records
  import opened Strategies
  import opened Schema

  /** The records built from kept value lists, each carrying the converter's column names. */
  function AsRecords(kept: seq<seq<string>>, names: seq<string>): (rs: seq<DataRecord>)
    ensures |rs| == |kept|
  {
    seq(|kept|, i requires 0 <= i < |kept| => DataRecord(kept[i], names))
  }

  lemma AsRecordsSnoc(kept: seq<seq<string>>, v: seq<string>, names: seq<string>)
    ensures AsRecords(kept + [v], names) == AsRecords(kept, names) + [DataRecord(v, names)]
  {
  }

  /** The value lists of some records, in order: the CSV rows they are written as. */
  function RecordValues(records: seq<DataRecord>): (rows: seq<seq<string>>)
    ensures |rows| == |records|
  {
    seq(|records|, i requires 0 <= i < |records| => records[i].values)
  }

  /** Writing the records built from kept value lists writes exactly those lists. */
  lemma RecordValuesOfRecords(kept: seq<seq<string>>, names: seq<string>)
    ensures RecordValues(AsRecords(kept, names)) == kept
  {
  }

  /** Rows appended page after page stay in page order. */
  lemma RowsThen(rows: seq<seq<string>>, before: seq<seq<string>>, more: seq<seq<string>>)
    ensures (rows + before) + more == rows + (before + more)
  {
  }

  lemma PrefixSnoc(cands: seq<seq<string>>, m: nat)
    requires m < |cands|
    ensures cands[..m + 1] == cands[..m] + [cands[m]]
  {
  }

  class PdfToCsvConverter {
    const extraction: ExtractionMethod
    const validate: bool
    var columnNames: seq<string>
    var numColumns: Option<int>
    var totalPages: nat
    var totalRecords: nat
    var validRecords: nat
    var invalidRecords: nat

    /** `__init__`: a missing name list is stored as the empty list; the counters start at zero. */
    constructor (extraction: ExtractionMethod, validate: bool, columnNames: Option<seq<string>>, numColumns: Option<int>)
      ensures this.extraction == extraction && this.validate == validate
      ensures this.columnNames == (if columnNames.Some? then columnNames.value else [])
      ensures this.numColumns == numColumns
      ensures totalPages == 0 && totalRecords == 0 && validRecords == 0 && invalidRecords == 0
    {
      this.extraction := extraction;
      this.validate := validate;
      this.columnNames := if columnNames.Some? then columnNames.value else [];
      this.numColumns := numColumns;
      totalPages := 0;
      totalRecords := 0;
      validRecords := 0;
      invalidRecords := 0;
    }

    /**
     * The step every strategy takes for one value list: when validation is
     * off or the list passes, it becomes a record and counts as valid;
     * otherwise it counts as invalid. `seen` are the lists handled before.
     */
    method AdmitOne(ghost seen: seq<seq<string>>, values: seq<string>, records: seq<DataRecord>,
                    ghost validBase: nat, ghost invalidBase: nat)
      returns (records': seq<DataRecord>)
      requires records == AsRecords(Admit(seen, validate).kept, columnNames)
      requires validRecords == validBase + Admit(seen, validate).valid
      requires invalidRecords == invalidBase + Admit(seen, validate).invalid
      modifies this`validRecords, this`invalidRecords
      ensures records' == AsRecords(Admit(seen + [values], validate).kept, columnNames)
      ensures validRecords == validBase + Admit(seen + [values], validate).valid
      ensures invalidRecords == invalidBase + Admit(seen + [values], validate).invalid
    {
      AdmitSnoc(seen, values, validate);
      if !validate || Validate(values) {
        AsRecordsSnoc(Admit(seen, validate).kept, values, columnNames);
        records' := records + [DataRecord(values, columnNames)];
        validRecords := validRecords + 1;
      } else {
        records' := records;
        invalidRecords := invalidRecords + 1;
      }
    }

    /**
     * `extract_structured_data`: the tokens of `text.split()` in strides of
     * `num_columns`. A negative count stops at once (as written, the loop
     * never ends).
     */
    method ExtractStructured(text: string) returns (records: seq<DataRecord>)
      modifies this`validRecords, this`invalidRecords
      ensures var o := StructuredOutcome(text, numColumns, validate);
              && records == AsRecords(o.kept, columnNames)
              && validRecords == old(validRecords) + o.valid
              && invalidRecords == old(invalidRecords) + o.invalid
    {
      records := [];
      var tokens := Split(text);
      if !IsSet(numColumns) {
        return;
      }
      if numColumns.value < 0 {
        return;
      }
      records := ExtractStrides(tokens, numColumns.value);
    }

    /** The stride loop: `i` advances by `n` while a whole stride remains. */
    method ExtractStrides(tokens: seq<string>, n: nat) returns (records: seq<DataRecord>)
      requires n >= 1
      modifies this`validRecords, this`invalidRecords
      ensures var o := Admit(Chunks(tokens, n), validate);
              && records == AsRecords(o.kept, columnNames)
              && validRecords == old(validRecords) + o.valid
              && invalidRecords == old(invalidRecords) + o.invalid
    {
      records := [];
      ghost var seen: seq<seq<string>> := [];
      var i := 0;
      while i + n <= |tokens|
        invariant 0 <= i <= |tokens|
        invariant seen + Chunks(tokens[i..], n) == Chunks(tokens, n)
        invariant records == AsRecords(Admit(seen, validate).kept, columnNames)
        invariant validRecords == old(validRecords) + Admit(seen, validate).valid
        invariant invalidRecords == old(invalidRecords) + Admit(seen, validate).invalid
        decreases |tokens| - i
      {
        var values := tokens[i..i + n];
        ChunksFrom(tokens, n, i);
        assert seen + Chunks(tokens[i..], n) == (seen + [values]) + Chunks(tokens[i + n..], n);
        records := AdmitOne(seen, values, records, old(validRecords), old(invalidRecords));
        seen := seen + [values];
        i := i + n;
      }
      ChunksFrom(tokens, n, i);
      assert seen + [] == seen;
    }

    /**
     * The loop every strategy runs over its value lists: each is tallied,
     * and kept as a record when it passes.
     */
    method AdmitAll(cands: seq<seq<string>>) returns (records: seq<DataRecord>)
      modifies this`validRecords, this`invalidRecords
      ensures var o := Admit(cands, validate);
              && records == AsRecords(o.kept, columnNames)
              && validRecords == old(validRecords) + o.valid
              && invalidRecords == old(invalidRecords) + o.invalid
    {
      records := [];
      var m := 0;
      while m < |cands|
        invariant 0 <= m <= |cands|
        invariant records == AsRecords(Admit(cands[..m], validate).kept, columnNames)
        invariant validRecords == old(validRecords) + Admit(cands[..m], validate).valid
        invariant invalidRecords == old(invalidRecords) + Admit(cands[..m], validate).invalid
      {
        PrefixSnoc(cands, m);
        records := AdmitOne(cands[..m], cands[m], records, old(validRecords), old(invalidRecords));
        m := m + 1;
      }
      assert cands[..m] == cands;
    }

    /**
     * `extract_regex_data`: the matches of the pattern, each match's groups
     * being one record's values, run through the validation loop.
     */
    method ExtractRegex(text: string) returns (records: seq<DataRecord>)
      modifies this`validRecords, this`invalidRecords
      ensures var o := RegexOutcome(text, numColumns, validate);
              && records == AsRecords(o.kept, columnNames)
              && validRecords == old(validRecords) + o.valid
              && invalidRecords == old(invalidRecords) + o.invalid
    {
      records := [];
      if !IsSet(numColumns) {
        return;
      }
      var matches := RegexCandidates(text, numColumns);
      records := AdmitAll(matches);
    }

    /**
     * `extract_table_data`: every row of every table with at least
     * `num_columns` cells gives one value list. The count must be set (the
     * comparison with `None` raises).
     */
    method ExtractTable(page: Page) returns (records: seq<DataRecord>)
      requires numColumns.Some?
      modifies this`validRecords, this`invalidRecords
      ensures var o := TableOutcome(page.tables, numColumns.value, validate);
              && records == AsRecords(o.kept, columnNames)
              && validRecords == old(validRecords) + o.valid
              && invalidRecords == old(invalidRecords) + o.invalid
    {
      records := [];
      var n := numColumns.value;
      var tables := page.tables;
      ghost var seen: seq<seq<string>> := [];
      var t := 0;
      while t < |tables|
        invariant 0 <= t <= |tables|
        invariant seen == TableCandidates(tables[..t], n)
        invariant records == AsRecords(Admit(seen, validate).kept, columnNames)
        invariant validRecords == old(validRecords) + Admit(seen, validate).valid
        invariant invalidRecords == old(invalidRecords) + Admit(seen, validate).invalid
      {
        TableCandidatesSnoc(tables, t, n);
        records := ExtractRows(tables[t], n, seen, records, old(validRecords), old(invalidRecords));
        seen := seen + RowCandidates(tables[t], n);
        t := t + 1;
      }
      assert tables[..t] == tables;
    }

    /** The rows of one table, after the value lists `seen` of the tables before it. */
    method ExtractRows(table: Table, n: int, ghost seen: seq<seq<string>>, records: seq<DataRecord>,
                       ghost validBase: nat, ghost invalidBase: nat)
      returns (records': seq<DataRecord>)
      requires records == AsRecords(Admit(seen, validate).kept, columnNames)
      requires validRecords == validBase + Admit(seen, validate).valid
      requires invalidRecords == invalidBase + Admit(seen, validate).invalid
      modifies this`validRecords, this`invalidRecords
      ensures var o := Admit(seen + RowCandidates(table, n), validate);
              && records' == AsRecords(o.kept, columnNames)
              && validRecords == validBase + o.valid
              && invalidRecords == invalidBase + o.invalid
    {
      records' := records;
      ghost var cur := seen;
      var r := 0;
      while r < |table|
        invariant 0 <= r <= |table|
        invariant cur == seen + RowCandidates(table[..r], n)
        invariant records' == AsRecords(Admit(cur, validate).kept, columnNames)
        invariant validRecords == validBase + Admit(cur, validate).valid
        invariant invalidRecords == invalidBase + Admit(cur, validate).invalid
      {
        RowCandidatesSnoc(seen, table, r, n);
        records' := ExtractRow(cur, table[r], n, records', validBase, invalidBase);
        cur := cur + WideValues(table[r], n);
        r := r + 1;
      }
      assert table[..r] == table;
    }

    /** The body of the row loop: a row with at least `n` cells gives one value list. */
    method ExtractRow(ghost seen: seq<seq<string>>, row: Row, n: int, records: seq<DataRecord>,
                      ghost validBase: nat, ghost invalidBase: nat)
      returns (records': seq<DataRecord>)
      requires records == AsRecords(Admit(seen, validate).kept, columnNames)
      requires validRecords == validBase + Admit(seen, validate).valid
      requires invalidRecords == invalidBase + Admit(seen, validate).invalid
      modifies this`validRecords, this`invalidRecords
      ensures var o := Admit(seen + WideValues(row, n), validate);
              && records' == AsRecords(o.kept, columnNames)
              && validRecords == validBase + o.valid
              && invalidRecords == invalidBase + o.invalid
    {
      if |row| >= n {
        var values := RowValues(row, n);
        records' := AdmitOne(seen, values, records, validBase, invalidBase);
      } else {
        assert seen + WideValues(row, n) == seen;
        records' := records;
      }
    }

    /** `process_page`: the dispatch on the extraction method. */
    method ProcessPage(page: Page) returns (records: seq<DataRecord>)
      requires extraction == Table ==> numColumns.Some?
      modifies this`validRecords, this`invalidRecords
      ensures var o := PageOutcome(extraction, page, numColumns, validate);
              && records == AsRecords(o.kept, columnNames)
              && validRecords == old(validRecords) + o.valid
              && invalidRecords == old(invalidRecords) + o.invalid
    {
      if extraction == Table {
        records := ExtractTable(page);
        return;
      }
      if page.text.None? || page.text.value == [] {
        return [];
      }
      var text := page.text.value;
      if extraction == Structured {
        records := ExtractStructured(text);
      } else if extraction == Regex {
        records := ExtractRegex(text);
      } else {
        records := ExtractRegex(text);
        if |records| == 0 {
          records := ExtractStructured(text);
        }
      }
    }

    /** The defaulting block of `convert`, in its intended form. */
    method FinaliseSchema()
      modifies this`columnNames, this`numColumns
      ensures Schema(columnNames, numColumns) == Finalise(old(Schema(columnNames, numColumns)))
    {
      if columnNames == [] && IsSet(numColumns) {
        columnNames := DefaultNames(numColumns.value);
      } else if !IsSet(numColumns) {
        if columnNames == [] {
          numColumns := Some(DefaultColumnCount);
          columnNames := DefaultNames(DefaultColumnCount);
        } else {
          numColumns := Some(|columnNames|);
        }
      }
    }

    /**
     * `convert` on the pages of an opened document: the schema is
     * finalised, the header row is the column names, then each page's
     * records follow in page order. The result is the total and the valid
     * record counts, and the rows written.
     */
    method Convert(pages: seq<Page>) returns (total: nat, valid: nat, rows: seq<seq<string>>)
      modifies this
      ensures totalPages == |pages|
      ensures Schema(columnNames, numColumns) == Finalise(old(Schema(columnNames, numColumns)))
      ensures var o := DocumentOutcome(pages, extraction, numColumns, validate);
              && rows == [columnNames] + o.kept
              && totalRecords == old(totalRecords) + |o.kept|
              && validRecords == old(validRecords) + o.valid
              && invalidRecords == old(invalidRecords) + o.invalid
      ensures total == totalRecords && valid == validRecords
      ensures totalRecords - old(totalRecords) == validRecords - old(validRecords)
    {
      totalPages := |pages|;
      FinaliseSchema();
      rows := ConvertPages(pages, [columnNames]);
      DocumentCounters(pages, extraction, numColumns, validate);
      total, valid := totalRecords, validRecords;
    }

    /** The page loop of `convert`: each page's records are written after the rows before. */
    method ConvertPages(pages: seq<Page>, rows: seq<seq<string>>) returns (rows': seq<seq<string>>)
      requires extraction == Table ==> numColumns.Some?
      modifies this`totalRecords, this`validRecords, this`invalidRecords
      ensures var o := DocumentOutcome(pages, extraction, numColumns, validate);
              && rows' == rows + o.kept
              && totalRecords == old(totalRecords) + |o.kept|
              && validRecords == old(validRecords) + o.valid
              && invalidRecords == old(invalidRecords) + o.invalid
    {
      rows' := rows;
      ghost var d := Outcome([], 0, 0);
      var p := 0;
      while p < |pages|
        invariant 0 <= p <= |pages|
        invariant d == DocumentOutcome(pages[..p], extraction, numColumns, validate)
        invariant rows' == rows + d.kept
        invariant totalRecords == old(totalRecords) + |d.kept|
        invariant validRecords == old(validRecords) + d.valid
        invariant invalidRecords == old(invalidRecords) + d.invalid
      {
        DocumentSnoc(pages, p, extraction, numColumns, validate);
        rows' := ConvertPage(pages[p], rows');
        RowsThen(rows, d.kept, PageOutcome(extraction, pages[p], numColumns, validate).kept);
        d := DocumentOutcome(pages[..p + 1], extraction, numColumns, validate);
        p := p + 1;
      }
      assert pages[..p] == pages;
    }

    /** The body of the page loop: the page's records are written, one row each, and counted. */
    method ConvertPage(page: Page, rows: seq<seq<string>>) returns (rows': seq<seq<string>>)
      requires extraction == Table ==> numColumns.Some?
      modifies this`totalRecords, this`validRecords, this`invalidRecords
      ensures var o := PageOutcome(extraction, page, numColumns, validate);
              && rows' == rows + o.kept
              && totalRecords == old(totalRecords) + |o.kept|
              && validRecords == old(validRecords) + o.valid
              && invalidRecords == old(invalidRecords) + o.invalid
    {
      var records := ProcessPage(page);
      RecordValuesOfRecords(PageOutcome(extraction, page, numColumns, validate).kept, columnNames);
      rows' := WriteRecords(rows, records);
    }

    /** The inner loop of `convert`: one CSV row per record, each counted. */
    method WriteRecords(rows: seq<seq<string>>, records: seq<DataRecord>) returns (rows': seq<seq<string>>)
      modifies this`totalRecords
      ensures rows' == rows + RecordValues(records)
      ensures totalRecords == old(totalRecords) + |records|
    {
      rows' := rows;
      var r := 0;
      while r < |records|
        invariant 0 <= r <= |records|
        invariant rows' == rows + RecordValues(records[..r])
        invariant totalRecords == old(totalRecords) + r
      {
        assert RecordValues(records[..r + 1]) == RecordValues(records[..r]) + [records[r].values];
        rows' := rows' + [records[r].values];
        totalRecords := totalRecords + 1;
        r := r + 1;
      }
      assert records[..r] == records;
    }
  }
}
