/**
 * The column schema the CSV header is written from: the defaulting block of
 * `convert`, and the rule the name prompts apply to a blank answer.
 */
module Schema {
  import opened Wrappers
  import opened Text
  import opened Strategies

  /** The column names and the column count the converter extracts with. */
  datatype Schema = Schema(names: seq<string>, numColumns: Option<int>)

  /** `[f"Column_{i+1}" for i in range(n)]`: empty for a count that is not positive. */
  function DefaultNames(n: int): (names: seq<string>)
    ensures |names| == Max0(n)
    ensures forall i :: 0 <= i < |names| ==> names[i] == ColumnName(i + 1)
  {
    seq(Max0(n), i requires 0 <= i < Max0(n) => ColumnName(i + 1))
  }

  /**
   * The defaulting block as written: names are synthesised when there are
   * none and the count is set; when the count is unset it becomes 3 and
   * the names become `Column_1..Column_3`, whatever names were given.
   */
  function FinaliseAsWritten(s: Schema): (r: Schema)
    ensures IsSet(r.numColumns)
    ensures !IsSet(s.numColumns) ==> r == Schema(DefaultNames(DefaultColumnCount), Some(DefaultColumnCount))
    ensures s.names == [] && IsSet(s.numColumns) ==> r == Schema(DefaultNames(s.numColumns.value), s.numColumns)
    ensures s.names != [] && IsSet(s.numColumns) ==> r == s
  {
    if s.names == [] && IsSet(s.numColumns) then Schema(DefaultNames(s.numColumns.value), s.numColumns)
    else if !IsSet(s.numColumns) then Schema(DefaultNames(DefaultColumnCount), Some(DefaultColumnCount))
    else s
  }

  const DefaultColumnCount: nat := 3

  /**
   * The defaulting block as intended: as written, except that explicitly
   * given names are kept when the count is unset, and the count becomes
   * the number of names.
   */
  function Finalise(s: Schema): (r: Schema)
    ensures IsSet(r.numColumns)
    ensures s.names != [] ==> r.names == s.names
    ensures IsSet(s.numColumns) ==> r.numColumns == s.numColumns
    ensures s.names != [] && !IsSet(s.numColumns) ==> r.numColumns == Some(|s.names|)
    ensures s.names == [] && IsSet(s.numColumns) ==> r.names == DefaultNames(s.numColumns.value)
    ensures s.names == [] && !IsSet(s.numColumns) ==> r == Schema(DefaultNames(3), Some(3))
  {
    if s.names == [] && IsSet(s.numColumns) then Schema(DefaultNames(s.numColumns.value), s.numColumns)
    else if !IsSet(s.numColumns) then
      if s.names == [] then Schema(DefaultNames(DefaultColumnCount), Some(DefaultColumnCount))
      else Schema(s.names, Some(|s.names|))
    else s
  }

  /**
   * After the intended defaulting, the count and the header agree: the
   * header has one name per extracted value, and none for a negative count,
   * as `range` gives. (Given names and a set count that disagree are
   * rejected earlier, by the command-line parsing.)
   */
  lemma FinaliseConsistent(s: Schema)
    requires IsSet(s.numColumns) && s.names != [] ==> |s.names| == s.numColumns.value
    ensures |Finalise(s).names| == Max0(Finalise(s).numColumns.value)
  {
  }

  /** The defaulting is idempotent: a finalised schema is left as it is. */
  lemma FinaliseIdempotent(s: Schema)
    ensures Finalise(Finalise(s)) == Finalise(s)
  {
    var r := Finalise(s);
    if s.names == [] && IsSet(s.numColumns) {
      assert |r.names| == Max0(s.numColumns.value);
    } else if s.names == [] {
      assert r.names != [];
    }
  }

  /** The two versions agree except when names were given without a count. */
  lemma FinaliseAgrees(s: Schema)
    ensures s.names == [] || IsSet(s.numColumns) ==> Finalise(s) == FinaliseAsWritten(s)
  {
  }

  /**
   * As written, `--columns "ID,Name,Age,City"` without `--num-columns`
   * ends up with the header `Column_1,Column_2,Column_3` and three values
   * per record; the intended defaulting keeps the four names and extracts
   * four values per record.
   */
  lemma NamesOverwrittenAsWritten()
    ensures FinaliseAsWritten(Schema(["ID", "Name", "Age", "City"], None))
      == Schema(["Column_1", "Column_2", "Column_3"], Some(3))
    ensures Finalise(Schema(["ID", "Name", "Age", "City"], None))
      == Schema(["ID", "Name", "Age", "City"], Some(4))
  {
    assert NatToString(1) == "1" && NatToString(2) == "2" && NatToString(3) == "3";
    var d := DefaultNames(3);
    assert d[0] == "Column_1" && d[1] == "Column_2" && d[2] == "Column_3";
    assert d == ["Column_1", "Column_2", "Column_3"];
  }

  /**
   * The rule the name prompts apply to each answer: the answer stripped, or
   * `Column_<i+1>` when that is empty. No resulting name is blank.
   */
  function PromptedName(answer: string, i: nat): (name: string)
    ensures Strip(answer) != [] ==> name == Strip(answer)
    ensures Strip(answer) == [] ==> name == ColumnName(i + 1)
    ensures HasNonSpace(name)
  {
    if Strip(answer) != [] then
      assert !IsSpace(Strip(answer)[0]);
      Strip(answer)
    else
      assert ColumnName(i + 1)[0] == 'C';
      ColumnName(i + 1)
  }

  /** The names the prompts build from one answer per column. */
  function PromptedNames(answers: seq<string>): (names: seq<string>)
    ensures |names| == |answers|
    ensures forall i :: 0 <= i < |names| ==> names[i] == PromptedName(answers[i], i) && HasNonSpace(names[i])
  {
    seq(|answers|, i requires 0 <= i < |answers| => PromptedName(answers[i], i))
  }
}
