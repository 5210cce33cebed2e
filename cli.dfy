/**
 * The `--columns` handling of `main`: the comma-separated names are split
 * and stripped, and a count given with `--num-columns` must agree with
 * the number of names.
 */
module Cli {
  import opened Wrappers
  import opened Text
  import opened Strategies
  import opened Schema

  /** The names and the count disagree: "Number of column names (...) doesn't match --num-columns (...)". */
  datatype CliError = CountMismatch(names: nat, numColumns: int)

  /** The number of occurrences of `c` in `s`. */
  function Occurrences(s: string, c: char): nat
    decreases |s|
  {
    if s == [] then 0 else (if s[0] == c then 1 else 0) + Occurrences(s[1..], c)
  }

  /** `[col.strip() for col in columns.split(',')]`. */
  function ColumnList(columns: string): (names: seq<string>)
    ensures |names| == |SplitOn(columns, ',')|
    ensures forall i :: 0 <= i < |names| ==> names[i] == Strip(SplitOn(columns, ',')[i])
  {
    var parts := SplitOn(columns, ',');
    seq(|parts|, i requires 0 <= i < |parts| => Strip(parts[i]))
  }

  /**
   * The `--columns` parsing: no names for a missing or empty argument;
   * otherwise the stripped parts, unless a set `--num-columns` disagrees
   * with their number.
   */
  function ParseColumnNames(columns: Option<string>, numColumns: Option<int>): (r: Result<Option<seq<string>>, CliError>)
    ensures columns.None? || columns.value == [] ==> r == Ok(None)
    ensures r.Err? <==> columns.Some? && columns.value != [] && IsSet(numColumns)
                        && Occurrences(columns.value, ',') + 1 != numColumns.value
    ensures r.Ok? && r.value.Some? ==> columns.Some? && r.value.value == ColumnList(columns.value)
    ensures r.Ok? && r.value.Some? && IsSet(numColumns) ==> |r.value.value| == numColumns.value
  {
    SplitOnCount(if columns.Some? then columns.value else [], ',');
    if columns.None? || columns.value == [] then Ok(None)
    else
      var names := ColumnList(columns.value);
      if IsSet(numColumns) && |names| != numColumns.value then Err(CountMismatch(|names|, numColumns.value))
      else Ok(Some(names))
  }

  /** A string with `m` separators splits into `m + 1` parts. */
  lemma {:induction false} SplitOnCount(s: string, sep: char)
    ensures |SplitOn(s, sep)| == Occurrences(s, sep) + 1
    decreases |s|
  {
    if s != [] {
      SplitOnCount(s[1..], sep);
    }
  }

  /** Every parsed name is already stripped and holds no comma. */
  lemma ColumnListClean(columns: string)
    ensures forall i :: 0 <= i < |ColumnList(columns)| ==>
      Strip(ColumnList(columns)[i]) == ColumnList(columns)[i] && ',' !in ColumnList(columns)[i]
  {
    var parts := SplitOn(columns, ',');
    forall i | 0 <= i < |parts|
      ensures Strip(ColumnList(columns)[i]) == ColumnList(columns)[i] && ',' !in ColumnList(columns)[i]
    {
      StripIdempotent(parts[i]);
    }
  }

  /**
   * Names that are stripped and hold no comma survive a round trip: joined
   * with commas and parsed again, they come back unchanged.
   */
  lemma ColumnListRoundTrip(names: seq<string>)
    requires |names| >= 1
    requires forall i :: 0 <= i < |names| ==> Strip(names[i]) == names[i] && ',' !in names[i]
    ensures ColumnList(JoinOn(names, ',')) == names
  {
    SplitJoin(names, ',');
  }

  /**
   * Whatever names the parsing accepts, the header and the count the
   * converter extracts with agree once the schema is finalised: a set count
   * equals the number of names, and an unset one becomes it.
   */
  lemma ParsedHeaderMatchesCount(columns: string, numColumns: Option<int>)
    requires columns != [] && ParseColumnNames(Some(columns), numColumns).Ok?
    ensures var names := ParseColumnNames(Some(columns), numColumns).value;
            && names.Some?
            && var s := Finalise(Schema(names.value, numColumns));
               |s.names| == s.numColumns.value && s.names == names.value
  {
    assert |ColumnList(columns)| >= 1;
  }
}
