# pdf2csv in Dafny

This project models the text-to-record core of `pdf_to_csv_converter.py`, a
command-line tool that pulls tabular records out of PDF pages and writes them
as CSV rows. A page is a value here: an optional text and a list of tables,
each table a list of rows, each row a list of cells. pdfplumber itself is not
part of this model.

The modules follow the parts of the program:

- `Wrappers`: `Option` and `Result`.
- `Text`: the Python string operations the core relies on.
  - `str.split()`, `strip()`, `split(',')`, and the digit and alpha tests.
  - The decimal rendering in `Column_<i>`.
  - Fixed-stride chunking of a token list.
- `Records`: `DataRecord.validate` and `DataRecord.to_dict`.
- `Detection`: `detect_columns`.
  - It is a method whose nested loops are proved equal to `DetectSpec`.
  - The properties of `DetectSpec` are lemmas: the bounds, the default and the order in which candidates are chosen.
- `Regex`: the one pattern the regex strategy builds, `(\S+)\s*(\S+)...` with n groups.
  - `re.findall` is modelled for that pattern with Python's greedy, backtracking, leftmost semantics.
  - The main theorem: the matches are exactly the fixed-stride chunks of the whitespace tokens, plus at most one extra match cut from the leftover tokens.
- `Strategies`: the specification functions.
  - What each extraction strategy returns and how it moves the valid and invalid counters.
  - The page dispatch of `process_page` and the accumulation over a document.
- `Schema`: the defaulting of column names and column count in `convert`, and the rule for a blank prompted name.
- `Converter`: the class `PdfToCsvConverter`.
  - It holds the settings, the schema and the four counters as fields.
  - Its methods change those fields the way the Python methods do, and each is proved against the `Strategies` and `Schema` functions.
- `Cli`: the `--columns` parsing of `main`, with its count check against `--num-columns`.

`num_columns` is an `Option<int>`. Python's `if not self.num_columns` treats
`None` and `0` alike; `IsSet` captures exactly that.

## Model

| member | source | states |
|---|---|---|
| Records.Validate | pdf_to_csv_converter.py:43-46 | a record is valid exactly when every value has a non-whitespace character, so an empty value list is valid |
| Records.WordsValidate | pdf_to_csv_converter.py:43-46 | values that are non-empty and contain no whitespace always validate |
| Records.ToDict | pdf_to_csv_converter.py:48-52 | with names: the keys are the names paired with a value (zip stops at the shorter list), and a repeated name maps to its last value; without names: the keys are exactly `Column_1..Column_k` and `Column_<i+1>` maps to value i |
| Records.ZipDictKeys | pdf_to_csv_converter.py:51 | the keys of `dict(zip(names, values))` are exactly the names |
| Records.ZipDictLast | pdf_to_csv_converter.py:51 | the last occurrence of a name determines its value |
| Records.NumberedDictKeys | pdf_to_csv_converter.py:52 | the synthesised dictionary has exactly one `Column_<i+1>` key per value |
| Records.NumberedDictValues | pdf_to_csv_converter.py:52 | key `Column_<i+1>` maps to the i-th value |
| Text.SplitFrom | pdf_to_csv_converter.py:185 | every token of `str.split()` is non-empty and holds no whitespace |
| Text.Split | pdf_to_csv_converter.py:185 | `text.split()`: every token is non-empty and holds no whitespace |
| Text.SplitFromLength | pdf_to_csv_converter.py:185 | the tokens hold as many characters in total as the text has non-whitespace characters |
| Text.SplitFromChars | pdf_to_csv_converter.py:185 | the tokens written one after another are exactly the text's non-whitespace characters, in order |
| Text.Chunks | pdf_to_csv_converter.py:190-208 | defines the consecutive stride-k chunks of a token list; `ChunksLength`, `ChunkAt` and `LeftoverIsTail` state what they are |
| Text.Strip | pdf_to_csv_converter.py:46 | the result is empty exactly for an all-whitespace string; otherwise it starts and ends with non-whitespace and is a slice of the input |
| Text.StripIdempotent | pdf_to_csv_converter.py:417 | stripping twice is stripping once |
| Text.ChunksLength | pdf_to_csv_converter.py:190-208 | chunking L tokens by stride n gives L / n chunks |
| Text.ChunkAt | pdf_to_csv_converter.py:191-193 | chunk k is tokens k·n up to (k+1)·n |
| Text.LeftoverIsTail | pdf_to_csv_converter.py:191 | the tokens the stride loop leaves over are the last L mod n tokens |
| Text.SplitOn | pdf_to_csv_converter.py:417 | `split(',')` gives at least one part and no part holds a comma |
| Text.JoinSplit | pdf_to_csv_converter.py:417 | joining the parts with commas gives back the argument |
| Text.SplitJoin | pdf_to_csv_converter.py:417 | comma-free parts joined with commas and split again give back the parts |
| Text.ParseNatToString | pdf_to_csv_converter.py:52 | the decimal rendering in `Column_<i>` reads back as i |
| Text.NatToString | pdf_to_csv_converter.py:52 | `str(i)` for a natural number: at least one character, all of them decimal digits; `ParseNatToString` shows it reads back as i |
| Text.ColumnNameInjective | pdf_to_csv_converter.py:52 | distinct indices give distinct `Column_<i>` names |
| Detection.PatternRepeats | pdf_to_csv_converter.py:113-136 | defines the stage-1 test for stride n: at least 3·n tokens, and no sampled position i + j·n (i below n, j from 1 below min(5, L div n)) breaks from token i; `PatternMatches` is proved to decide it |
| Detection.SampleLines | pdf_to_csv_converter.py:98 | `text.strip().split('\n')`: at least one line, and no line holds a newline |
| Detection.TokensOf | pdf_to_csv_converter.py:99-105 | the tokens of the given lines, in order; every token is non-empty and holds no whitespace |
| Detection.Breaks | pdf_to_csv_converter.py:130-131 | defines the break test: a sampled token breaks the pattern exactly when it differs from its column's first token in the digit test and in the alpha test |
| Detection.SampleBound | pdf_to_csv_converter.py:123 | `min(5, L div n)`: at most 5, at most L div n, and equal to one of them |
| Detection.LineLengths | pdf_to_csv_converter.py:144-148 | the token counts of the lines that have tokens, in line order; every count is positive |
| Detection.FirstRepeating | pdf_to_csv_converter.py:112-140 | stage 1 answers the smallest stride in 2..10 whose pattern repeats, or none when no stride repeats |
| Detection.PatternMatches | pdf_to_csv_converter.py:117-136 | the nested sampling loops with their early breaks decide exactly `PatternRepeats` (three full rows present; no sampled position that differs from its column's first token in both the digit and the alpha test) |
| Detection.CollectTokens | pdf_to_csv_converter.py:99-105 | the loop collects the tokens of the sampled lines in order |
| Detection.FindStride | pdf_to_csv_converter.py:112-140 | the stride loop returns the first repeating stride |
| Detection.CountLineLengths | pdf_to_csv_converter.py:144-149 | the tally map counts the lines of each token count over the first 100 lines; its key order is the order of first appearance |
| Detection.TallyLine | pdf_to_csv_converter.py:146-149 | a line with tokens adds its token count to the tally, and a line without tokens leaves it as it is |
| Detection.Tally | pdf_to_csv_converter.py:149 | `get(length, 0) + 1`: the count of the length grows by one, other counts stay, and a new length goes last in the key order |
| Detection.ModeOf | pdf_to_csv_converter.py:153 | defines the most common length as `FirstMax` over the keys in insertion order; `ModeCharacterised` states what it is |
| Detection.MostCommon | pdf_to_csv_converter.py:153 | `max` with `key=` returns the first-seen count among those of highest frequency |
| Detection.ModeCharacterised | pdf_to_csv_converter.py:144-153 | the chosen length occurs, no length is more frequent, and every length first seen before it is strictly less frequent |
| Detection.DetectSpec | pdf_to_csv_converter.py:95-160 | the answer always lies in 2..10, and it is 3 when the first 50 lines hold no token |
| Detection.Decide | pdf_to_csv_converter.py:107-160 | the decision always lies in 2..10, and it is 3 when there are no tokens |
| Detection.DetectSelection | pdf_to_csv_converter.py:112-160 | given tokens, the smallest repeating stride wins; when no stride repeats, a most common line length in 2..10 wins; otherwise the answer is 3 |
| Detection.DetectColumns | pdf_to_csv_converter.py:95-160 | the method computes `DetectSpec(text)`, so its answer lies in 2..10 |
| Detection.DetectFrom | pdf_to_csv_converter.py:107-160 | once tokens are collected: the default for no tokens, then stage 1, then stage 2, then the default |
| Regex.MatchGroup | pdf_to_csv_converter.py:221-224 | a match of the k-group pattern at a position has k groups chained by whitespace only |
| Regex.MatchRest | pdf_to_csv_converter.py:221-224 | k more groups, each after `\s*`: a result has exactly k spans, ends inside the text and is chained by whitespace only |
| Regex.TrySpaces | pdf_to_csv_converter.py:221-224 | `\s*` giving back one character at a time on failure: a result has exactly k spans chained by whitespace only |
| Regex.TryEnds | pdf_to_csv_converter.py:221-224 | a greedy `(\S+)` giving back one character at a time on failure: a result starts at the given position and has exactly k chained spans |
| Regex.FindFrom | pdf_to_csv_converter.py:224 | the matches `findall` reports form a chain: each starts no earlier than the previous one ends |
| Regex.FindAll | pdf_to_csv_converter.py:224 | defines `findall` as the scan from position 0; `FindAllWords` and `FindAllTexts` state what it finds |
| Regex.MatchesAreWords | pdf_to_csv_converter.py:224-227 | every match has exactly k groups, each a non-empty whitespace-free slice of the text, and the matches do not overlap and are in left-to-right order |
| Regex.WholeWords | pdf_to_csv_converter.py:221-224 | at a word start with at least k words left, the greedy match takes exactly the next k words |
| Regex.FindFromWords | pdf_to_csv_converter.py:224 | `findall` gives as many matches as there are full k-word chunks, plus one more when the leftover words hold at least k characters; the first matches are the chunks themselves |
| Regex.FindAllWords | pdf_to_csv_converter.py:224 | the same on the whole text |
| Regex.FindAllTexts | pdf_to_csv_converter.py:224-227 | every match's values are k non-empty, whitespace-free strings |
| Strategies.Admit | pdf_to_csv_converter.py:200-204 | every candidate is counted once, as valid or invalid; the valid count is the number kept; with validation off everything is kept |
| Strategies.IsSet | pdf_to_csv_converter.py:187 | defines Python's truth value of the optional count: `None` and `0` are both unset |
| Strategies.AdmitKeeps | pdf_to_csv_converter.py:200-201 | a value list is kept exactly when it is a candidate and, when validation is on, it validates |
| Strategies.AdmitAllValid | pdf_to_csv_converter.py:200-204 | when every candidate validates, all are kept and nothing is counted invalid |
| Strategies.StructuredCandidates | pdf_to_csv_converter.py:185-208 | defines the structured value lists as the stride-n chunks of `text.split()`, none for an unset or zero count and (as intended, where the loop as written never stops) none for a negative one; `StructuredCount`, `StructuredRecord` and `StructuredValid` state their properties |
| Strategies.StructuredCount | pdf_to_csv_converter.py:190-208 | with n > 0 columns and L tokens, the structured strategy builds L / n records |
| Strategies.StructuredRecord | pdf_to_csv_converter.py:191-193 | structured record k is tokens k·n up to (k+1)·n |
| Strategies.StructuredValid | pdf_to_csv_converter.py:185-200 | every structured record passes `validate` |
| Strategies.StructuredAdmitted | pdf_to_csv_converter.py:187-208 | the structured strategy keeps every candidate; the valid counter grows by their number and the invalid one does not move; an unset or zero count yields and counts nothing |
| Strategies.StructuredOutcome | pdf_to_csv_converter.py:182-210 | defines what `extract_structured_data` returns and counts as `Admit` of the structured candidates; `StructuredAdmitted` states it |
| Strategies.RegexCandidates | pdf_to_csv_converter.py:216-227 | defines the regex value lists as intended, the group texts of every `findall` match, none for an unset or zero count; `RegexShape` and `RegexExtendsStructured` state their properties |
| Strategies.RegexShape | pdf_to_csv_converter.py:221-227 | with the regex value lists as intended (the group texts), every regex record has exactly n values, each non-empty and whitespace-free |
| Strategies.RegexAdmitted | pdf_to_csv_converter.py:226-240 | every regex record validates, so the valid counter grows by the match count and the invalid one does not move |
| Strategies.RegexOutcome | pdf_to_csv_converter.py:212-242 | defines what `extract_regex_data` returns and counts as `Admit` of the regex candidates; `RegexAdmitted` states it |
| Strategies.RegexExtendsStructured | pdf_to_csv_converter.py:185-240 | with the regex value lists as intended (the group texts), the regex records start with exactly the structured records and add at most one more |
| Strategies.PageOutcome | pdf_to_csv_converter.py:272-291 | defines the dispatch tree: TABLE uses the table strategy only; an empty or missing text gives nothing and counts nothing; otherwise `TextOutcome` decides |
| Strategies.TextOutcome | pdf_to_csv_converter.py:280-289 | defines the text dispatch: STRUCTURED and REGEX use only their own strategy; AUTO keeps a non-empty regex result, or else retries once with structured, counting both; `AutoIsRegexOnText` states what that amounts to |
| Strategies.Then | pdf_to_csv_converter.py:284-289 | defines AUTO's retry: the second strategy's records, with both strategies' valid and invalid counts added |
| Strategies.RetryChangesNothing | pdf_to_csv_converter.py:284-289 | when regex finds nothing, the structured retry also yields and counts nothing |
| Strategies.NoMatchNoStride | pdf_to_csv_converter.py:284-289 | no regex match means fewer tokens than columns, so no full stride |
| Strategies.AutoIsRegexOnText | pdf_to_csv_converter.py:284-289 | on any text, AUTO returns and counts what REGEX does |
| Strategies.AutoIsRegex | pdf_to_csv_converter.py:272-291 | on any page, AUTO returns and counts what REGEX does |
| Strategies.RowValues | pdf_to_csv_converter.py:253 | a wide row's values are its first n cells, each passed through `str` and then `strip` |
| Strategies.CellString | pdf_to_csv_converter.py:253 | defines `str(cell)`: a missing cell is Python's `None` and becomes the text `None` |
| Strategies.WideRows | pdf_to_csv_converter.py:249-251 | the rows considered are exactly the rows of any table with at least n cells |
| Strategies.WideRowsOf | pdf_to_csv_converter.py:250-251 | the same for one table |
| Strategies.RowCandidates | pdf_to_csv_converter.py:250-253 | defines one table's value lists, row by row, as the values of each row with at least n cells; `RowCandidatesRows` states what they are |
| Strategies.TableCandidates | pdf_to_csv_converter.py:249-253 | defines the value lists of all tables, table by table; `TableCandidatesRows` and `TableCounted` state what they are |
| Strategies.ValuesOfRows | pdf_to_csv_converter.py:253 | one value list per wide row, in order |
| Strategies.RowCandidatesRows | pdf_to_csv_converter.py:250-253 | the row loop's candidates are the values of the table's wide rows, in order |
| Strategies.TableCandidatesRows | pdf_to_csv_converter.py:249-253 | over all tables, the candidates are the values of all wide rows, in order |
| Strategies.TableCounted | pdf_to_csv_converter.py:249-264 | valid plus invalid grows by exactly the number of wide rows; a value list is returned exactly when it comes from a wide row and validates (or validation is off) |
| Strategies.TableOutcome | pdf_to_csv_converter.py:244-266 | defines what `extract_table_data` returns and counts as `Admit` of the table candidates; `TableCounted` states it |
| Strategies.PageValidIsKept | pdf_to_csv_converter.py:268-291 | under every method, a page's valid count equals the number of records it returns |
| Strategies.PageNoInvalid | pdf_to_csv_converter.py:268-291 | with validation off, no page counts an invalid record |
| Strategies.PageOutcomes | pdf_to_csv_converter.py:338-339 | one outcome per page, in page order |
| Strategies.Combine | pdf_to_csv_converter.py:338-342 | defines the document outcome as the pages' records in page order and the sums of their counts; `CombineCount` and `CombineCounters` state its properties |
| Strategies.DocumentOutcome | pdf_to_csv_converter.py:338-342 | defines what a document yields under one method as `Combine` of its page outcomes; `DocumentSnoc` and `DocumentCounters` state its properties |
| Strategies.CombineCounters | pdf_to_csv_converter.py:338-342 | the per-page counter properties carry over to the whole document |
| Strategies.CombineCount | pdf_to_csv_converter.py:338-342 | the number of records written is the sum of the per-page record counts |
| Strategies.DocumentSnoc | pdf_to_csv_converter.py:338-342 | one more page appends its records after the earlier pages' and adds its counts |
| Strategies.DocumentCounters | pdf_to_csv_converter.py:338-349 | over a document the valid count equals the records written; with validation off nothing is counted invalid |
| Strategies.MatchValuesAsWritten | pdf_to_csv_converter.py:227 | `list(match)` as written: for one group, the characters of the matched string; otherwise the groups |
| Strategies.RegexCandidatesAsWritten | pdf_to_csv_converter.py:224-227 | the regex value lists as written, `MatchValuesAsWritten` of each match; `RegexOneColumnAsWritten` shows where they differ |
| Strategies.RegexOneColumnAsWritten | pdf_to_csv_converter.py:224-227 | with one column the text `ab` gives the record `a`, `b` as written, where `ab` is intended |
| Strategies.StructuredNeverStopsAsWritten | pdf_to_csv_converter.py:190-208 | for a negative column count the loop guard holds after any number of iterations |
| Schema.DefaultNames | pdf_to_csv_converter.py:324 | the default names are `Column_1..Column_n`, none for a count that is not positive |
| Schema.Finalise | pdf_to_csv_converter.py:322-327 | afterwards the count is set; given names are kept; a set count is kept; no names with a set count gives `Column_1..Column_n`; neither gives count 3 and `Column_1..Column_3`; names without a count give their number as the count |
| Schema.FinaliseAsWritten | pdf_to_csv_converter.py:322-327 | the defaulting as written: the count ends up set; an unset count gives count 3 and `Column_1..Column_3` whatever names were given; no names with a set count gives `Column_1..Column_n`; names with a set count stay |
| Schema.FinaliseConsistent | pdf_to_csv_converter.py:322-327 | for every schema the command-line parsing lets through (given names and a set count agree), the finalised header has one name per extracted value, and none for a negative count |
| Schema.FinaliseIdempotent | pdf_to_csv_converter.py:322-327 | finalising twice is finalising once, for every schema |
| Schema.FinaliseAgrees | pdf_to_csv_converter.py:322-327 | the intended and the as-written defaulting agree except for names given without a count |
| Schema.NamesOverwrittenAsWritten | pdf_to_csv_converter.py:322-327 | as written, the names `ID,Name,Age,City` without a count become `Column_1..Column_3` with count 3 |
| Schema.PromptedName | pdf_to_csv_converter.py:169-171 | a blank answer becomes `Column_<i+1>`, any other answer is stripped, and no resulting name is blank |
| Schema.PromptedNames | pdf_to_csv_converter.py:167-172 | one non-blank name per answer, in order |
| Cli.ColumnList | pdf_to_csv_converter.py:417 | one name per comma-separated part, each the stripped part |
| Cli.ParseColumnNames | pdf_to_csv_converter.py:415-420 | no names for an absent or empty argument; an error exactly when a set `--num-columns` differs from the number of parts; otherwise the stripped parts, as many as a set count says |
| Cli.SplitOnCount | pdf_to_csv_converter.py:417 | a string with m commas has m + 1 parts |
| Cli.ColumnListClean | pdf_to_csv_converter.py:417 | every parsed name is already stripped and holds no comma |
| Cli.ColumnListRoundTrip | pdf_to_csv_converter.py:417 | stripped, comma-free names joined with commas parse back to themselves |
| Cli.ParsedHeaderMatchesCount | pdf_to_csv_converter.py:415-420 | whatever names the parsing accepts are kept by the intended finalisation `Schema.Finalise`, and their number equals the column count extracted with |
| Converter.RecordValuesOfRecords | pdf_to_csv_converter.py:340-341 | the rows written from the records are exactly the kept value lists |
| Converter.PdfToCsvConverter.constructor | pdf_to_csv_converter.py:58-83 | settings as given, missing names become empty, all counters 0 |
| Converter.PdfToCsvConverter.AdmitOne | pdf_to_csv_converter.py:195-204 | one candidate is appended and counted valid when it passes, or else counted invalid |
| Converter.PdfToCsvConverter.ExtractStructured | pdf_to_csv_converter.py:182-210 | returns `StructuredOutcome`'s records with the record names, and moves the counters by its counts; it stops for every count |
| Converter.PdfToCsvConverter.ExtractStrides | pdf_to_csv_converter.py:190-208 | the stride loop admits exactly the chunks of the token list |
| Converter.PdfToCsvConverter.AdmitAll | pdf_to_csv_converter.py:226-240 | the match loop admits the candidates in order |
| Converter.PdfToCsvConverter.ExtractRegex | pdf_to_csv_converter.py:212-242 | returns `RegexOutcome`'s records and moves the counters by its counts |
| Converter.PdfToCsvConverter.ExtractTable | pdf_to_csv_converter.py:244-266 | returns `TableOutcome`'s records and moves the counters by its counts |
| Converter.PdfToCsvConverter.ExtractRows | pdf_to_csv_converter.py:250-264 | the row loop of one table admits that table's row candidates |
| Converter.PdfToCsvConverter.ExtractRow | pdf_to_csv_converter.py:251-264 | a narrow row changes nothing; a wide row is admitted with its first n cells |
| Converter.PdfToCsvConverter.ProcessPage | pdf_to_csv_converter.py:268-291 | returns `PageOutcome`'s records for the method and moves the counters by its counts |
| Converter.PdfToCsvConverter.FinaliseSchema | pdf_to_csv_converter.py:322-327 | the schema becomes `Finalise` of the old one |
| Converter.PdfToCsvConverter.Convert | pdf_to_csv_converter.py:293-349 | the page count is recorded and the schema finalised; the rows are the header followed by the document's records in page order; total and valid grow by exactly the records written; the result is the total and valid counters |
| Converter.PdfToCsvConverter.ConvertPages | pdf_to_csv_converter.py:338-342 | the page loop appends the document's records and adds the document's counts |
| Converter.PdfToCsvConverter.ConvertPage | pdf_to_csv_converter.py:339-342 | one page's records are appended and counted |
| Converter.PdfToCsvConverter.WriteRecords | pdf_to_csv_converter.py:340-342 | the records' values are appended in order and the total grows by their number |

## Left out

- pdfplumber. Opening a PDF, `extract_text` and `extract_tables` are not modelled; a page is a value holding the optional text and the tables.
- The CSV writer, opening and creating the output file and its directory, and the input-exists check. The model appends rows to a sequence instead.
- Logging, the tqdm progress bar, argparse and `sys.exit`. The `total == 0` warning and exit in `main` is output only.
- The interactive branch of `convert` (302-320). It samples the first page's text, calls `detect_columns` on it (the only call of it in the program), and takes the detected count, or a typed override, as the column count before prompting for names. `Detection.DetectColumns` is modelled on its own and nothing calls it; `Converter.PdfToCsvConverter.Convert` models a non-interactive run.
- `get_column_names_interactive`, with its confirmation and recursive re-prompt. It is `input()` throughout; only the blank-name rule is modelled, as `Schema.PromptedName` and `Schema.PromptedNames`.
- Character classes. Whitespace is the ten ASCII characters `str.split()`, `strip()` and `\s` accept: space, tab, newline, carriage return, vertical tab, form feed and the separators 0x1C-0x1F. Digits and letters are the ASCII ones. Other Unicode whitespace (such as 0x85 and 0xA0) and Unicode digits and letters are not modelled.
- The exception handler of `convert`. It only logs and re-raises.
- Converter.PdfToCsvConverter.ExtractTable requires a column count. Python raises `TypeError` when it compares a row length with `None`; the model does not represent that exception. `convert` always finalises the schema first, so the count is set by then.
- Converter.AsRecords states only the number of records; what each record holds is stated by `RecordValuesOfRecords` and `AsRecordsSnoc`.
- Converter.PdfToCsvConverter.ExtractStructured returns nothing for a negative column count, where the code as written never stops (see Findings).
- Schema.Finalise keeps explicitly given names when the count is unset and takes their number as the count, where the code as written replaces them with `Column_1..Column_3` and count 3 (see Findings).
- Converter.PdfToCsvConverter.FinaliseSchema keeps explicitly given names when the count is unset, where the code as written replaces them (see Findings).
- Converter.PdfToCsvConverter.ExtractRegex gives a one-column match a single value, where the code as written splits it into characters (see Findings).
- Strategies.StructuredCandidates gives no value lists for a negative column count, where the loop as written never stops (see Findings).
- Strategies.RegexCandidates gives a one-column match its group text as the one value, where `list(match)` as written gives its characters (see Findings); `RegexCandidatesAsWritten` is the as-written version.
- Strategies.RegexShape holds for the intended regex value lists only; as written, a one-column match has one value per character (see Findings).
- Strategies.RegexExtendsStructured holds for the intended regex value lists only; as written, with one column the regex records are character lists, not the structured records (see Findings).
- Cli.ParsedHeaderMatchesCount holds under the intended `Schema.Finalise`; as written, names given without `--num-columns` are replaced by `Column_1..Column_3` (see Findings and `Schema.NamesOverwrittenAsWritten`).

## Findings

| source | as written | input that shows it | evidently intended | confidence | as-written member | corrected member |
|---|---|---|---|---|---|---|
| pdf_to_csv_converter.py:224-227 | with one column `findall` returns each match as a string, and `list(match)` splits it into characters | `num_columns = 1`, text `ab`: one record with the two values `a` and `b` | one value per column, so the record `ab` | high, not executed | Strategies.RegexOneColumnAsWritten | Strategies.RegexShape |
| pdf_to_csv_converter.py:187-208 | the guard lets a negative count through, and `i += n` then moves the index down, so `i + n <= len(tokens)` never fails | `num_columns = -1` with any text: the loop never ends | no records for a count that is not positive | medium, not executed | Strategies.StructuredNeverStopsAsWritten | Converter.PdfToCsvConverter.ExtractStructured |
| pdf_to_csv_converter.py:322-327 | when the count is unset, the `elif` replaces the names with `Column_1..Column_3` even when names were given | `--columns "ID,Name,Age,City"` without `--num-columns`: the header is `Column_1,Column_2,Column_3` and records have three values | keep the given names and extract one value per name | medium, not executed | Schema.NamesOverwrittenAsWritten | Schema.Finalise |
