/**
 * The extracted record (`DataRecord`): the raw field strings of one row and
 * the column names it was created with.
 */
module Records {
  import opened Text

  /**
   * One row of extracted field strings. `columnNames` is the converter's
   * name list at creation time; Python's `None` default behaves like the
   * empty list wherever the record reads it.
   */
  datatype DataRecord = DataRecord(values: seq<string>, columnNames: seq<string>)

  /**
   * `DataRecord.validate`: every value is non-empty and not blank after
   * stripping. A record is valid exactly when each of its values holds a
   * non-whitespace character; a record without values is valid.
   */
  function Validate(values: seq<string>): (ok: bool)
    ensures ok <==> forall i :: 0 <= i < |values| ==> HasNonSpace(values[i])
  {
    forall i :: 0 <= i < |values| ==> values[i] != [] && Strip(values[i]) != []
  }

  /** Words never break validation: a row of non-empty whitespace-free strings is valid. */
  lemma {:induction false} WordsValidate(values: seq<string>)
    requires forall i :: 0 <= i < |values| ==> values[i] != [] && NoSpace(values[i])
    ensures Validate(values)
  {
    forall i | 0 <= i < |values|
      ensures HasNonSpace(values[i])
    {
      assert !IsSpace(values[i][0]);
    }
  }

  function Min(a: nat, b: nat): nat { if a <= b then a else b }

  /** The name at `i` is not repeated further right in `names`. */
  predicate LastOccurrence(names: seq<string>, i: nat)
    requires i < |names|
  {
    forall j :: i < j < |names| ==> names[j] != names[i]
  }

  /** `dict(zip(names, values))`: pairs are inserted left to right, so a later duplicate name wins. */
  function ZipDict(names: seq<string>, values: seq<string>): map<string, string>
    requires |names| == |values|
    decreases |names|
  {
    if names == [] then map[]
    else
      var n := |names| - 1;
      ZipDict(names[..n], values[..n])[names[n] := values[n]]
  }

  /** The keys of `dict(zip(names, values))` are the names. */
  lemma {:induction false} ZipDictKeys(names: seq<string>, values: seq<string>)
    requires |names| == |values|
    ensures forall k :: k in ZipDict(names, values) <==> k in names
    decreases |names|
  {
    if names != [] {
      var n := |names| - 1;
      ZipDictKeys(names[..n], values[..n]);
      assert names == names[..n] + [names[n]];
    }
  }

  /** A name that is not repeated later maps to the value at its own position. */
  lemma {:induction false} ZipDictLast(names: seq<string>, values: seq<string>, i: nat)
    requires |names| == |values| && i < |names| && LastOccurrence(names, i)
    ensures names[i] in ZipDict(names, values) && ZipDict(names, values)[names[i]] == values[i]
    decreases |names|
  {
    var n := |names| - 1;
    if i < n {
      assert names[..n][i] == names[i] && values[..n][i] == values[i];
      assert LastOccurrence(names[..n], i);
      ZipDictLast(names[..n], values[..n], i);
    }
  }

  /** The key of the `i`-th value (0-based) when a record has no column names. */
  function NumberedKey(i: nat): string {
    ColumnName(i + 1)
  }

  /** `{f"Column_{i+1}": val for i, val in enumerate(values)}`. */
  function NumberedDict(values: seq<string>): map<string, string>
    decreases |values|
  {
    if values == [] then map[]
    else
      var n := |values| - 1;
      NumberedDict(values[..n])[NumberedKey(n) := values[n]]
  }

  /** The keys of the numbered dictionary are `Column_1` up to `Column_<len(values)>`. */
  lemma {:induction false} NumberedDictKeys(values: seq<string>)
    ensures forall k :: k in NumberedDict(values) <==> exists i :: 0 <= i < |values| && NumberedKey(i) == k
    decreases |values|
  {
    if values != [] {
      var n := |values| - 1;
      NumberedDictKeys(values[..n]);
      forall k | k in NumberedDict(values) ensures exists i :: 0 <= i < |values| && NumberedKey(i) == k {
        if k != NumberedKey(n) {
          assert k in NumberedDict(values[..n]);
          var i :| 0 <= i < n && NumberedKey(i) == k;
        }
      }
    }
  }

  /** `Column_<i+1>` maps to the `i`-th value: the keys are distinct, so none is overwritten. */
  lemma {:induction false} NumberedDictValues(values: seq<string>)
    ensures forall i :: 0 <= i < |values| ==> NumberedKey(i) in NumberedDict(values) && NumberedDict(values)[NumberedKey(i)] == values[i]
    decreases |values|
  {
    if values != [] {
      var n := |values| - 1;
      NumberedDictValues(values[..n]);
      forall i | 0 <= i < n ensures NumberedDict(values)[NumberedKey(i)] == values[i] {
        ColumnNameInjective(i + 1, n + 1);
        assert values[..n][i] == values[i];
      }
    }
  }

  /**
   * `DataRecord.to_dict`: with column names, the names (as far as there are
   * values) map to the values at the same position, the last occurrence of
   * a repeated name winning; without names, `Column_<i+1>` maps to the
   * `i`-th value.
   */
  function ToDict(r: DataRecord): (m: map<string, string>)
    ensures r.columnNames != [] ==>
      forall k :: k in m <==> k in r.columnNames[..Min(|r.columnNames|, |r.values|)]
    ensures r.columnNames != [] ==>
      forall i :: 0 <= i < Min(|r.columnNames|, |r.values|)
                  && LastOccurrence(r.columnNames[..Min(|r.columnNames|, |r.values|)], i)
                  ==> r.columnNames[i] in m && m[r.columnNames[i]] == r.values[i]
    ensures r.columnNames == [] ==>
      forall k :: k in m <==> exists i :: 0 <= i < |r.values| && NumberedKey(i) == k
    ensures r.columnNames == [] ==>
      forall i :: 0 <= i < |r.values| ==> NumberedKey(i) in m && m[NumberedKey(i)] == r.values[i]
  {
    if r.columnNames != [] then
      var k := Min(|r.columnNames|, |r.values|);
      var names, values := r.columnNames[..k], r.values[..k];
      ZipDictKeys(names, values);
      assert forall i :: 0 <= i < k && LastOccurrence(names, i) ==>
        r.columnNames[i] in ZipDict(names, values) && ZipDict(names, values)[r.columnNames[i]] == r.values[i] by {
        forall i | 0 <= i < k && LastOccurrence(names, i) {
          ZipDictLast(names, values, i);
        }
      }
      ZipDict(names, values)
    else
      NumberedDictKeys(r.values);
      NumberedDictValues(r.values);
      NumberedDict(r.values)
  }
}
