/**
 * The ICD-10 -> ICD-9 General Equivalence Mapping table as the loader reads it:
 * the rows of the comma-separated crosswalk file, already split into fields.
 * The first row is a header and is discarded; every later row supplies its
 * first two fields, whitespace-stripped, as a (ICD-10 code, ICD-9 code) pair;
 * a later row with the same ICD-10 code overwrites an earlier one.
 */
module GemCrosswalk {
  import opened Wrappers
  import opened Whitespace

  /** A row as the CSV reader yields it: a list of fields. */
  type Row = seq<string>

  /** Why loading fails: the file has no row at all, or a data row has fewer than two fields. */
  datatype ParseError =
    | MissingHeader
    | ShortRow(index: nat, fields: nat)

  /** The row can be read as a pair: it has a first and a second field. */
  predicate HasPair(row: Row) {
    |row| >= 2
  }

  predicate AllPairs(data: seq<Row>) {
    forall i :: 0 <= i < |data| ==> HasPair(data[i])
  }

  /** The stripped ICD-10 code of a data row. */
  function Key(row: Row): string
    requires HasPair(row)
  {
    Strip(row[0])
  }

  /** The stripped ICD-9 code of a data row. */
  function Value(row: Row): string
    requires HasPair(row)
  {
    Strip(row[1])
  }

  /**
   * The index of the first row at or after `from` that has fewer than two
   * fields, or `|rows|` when every such row has at least two.
   */
  function FirstShort(rows: seq<Row>, from: nat): (k: nat)
    requires from <= |rows|
    ensures from <= k <= |rows|
    ensures forall j :: from <= j < k ==> HasPair(rows[j])
    ensures k < |rows| ==> !HasPair(rows[k])
    decreases |rows| - from
  {
    if from == |rows| || !HasPair(rows[from]) then from else FirstShort(rows, from + 1)
  }

  /** The table built by inserting the data rows in order: later rows overwrite earlier ones. */
  function BuildTable(data: seq<Row>): (r: map<string, string>)
    requires AllPairs(data)
    ensures forall k :: k in r ==> Trimmed(k) && Trimmed(r[k])
  {
    if data == [] then map[]
    else
      var last := data[|data| - 1];
      BuildTable(data[..|data| - 1])[Key(last) := Value(last)]
  }

  /**
   * What loading a crosswalk file yields: its table, or the error that stops
   * loading. Row 0 is the header; it is required to exist but is never read.
   */
  function Parse(rows: seq<Row>): (r: Result<map<string, string>, ParseError>)
    ensures r == Failure(MissingHeader) <==> |rows| == 0
    ensures r.Success? <==> |rows| >= 1 && forall i :: 1 <= i < |rows| ==> HasPair(rows[i])
    ensures r.Failure? && r.error.ShortRow? ==>
              && 1 <= r.error.index < |rows|
              && r.error.fields == |rows[r.error.index]| < 2
              && forall j :: 1 <= j < r.error.index ==> HasPair(rows[j])
  {
    if |rows| == 0 then Failure(MissingHeader)
    else
      var k := FirstShort(rows, 1);
      if k < |rows| then Failure(ShortRow(k, |rows[k]|))
      else
        assert forall j :: 0 <= j < |rows| - 1 ==> rows[1..][j] == rows[j + 1];
        Success(BuildTable(rows[1..]))
  }

  // ---------------------------------------------------------------------
  // How Parse unfolds row by row (used by the loader's loop)

  /** Inserting one more data row updates the table at that row's key. */
  lemma BuildTableSnoc(data: seq<Row>, row: Row)
    requires AllPairs(data) && HasPair(row)
    ensures AllPairs(data + [row])
    ensures BuildTable(data + [row]) == BuildTable(data)[Key(row) := Value(row)]
  {
    assert (data + [row])[..|data|] == data;
  }

  /** Loading stops at the first data row with fewer than two fields. */
  lemma ParseStopsAt(rows: seq<Row>, i: nat)
    requires 1 <= i < |rows| && !HasPair(rows[i])
    requires forall j :: 1 <= j < i ==> HasPair(rows[j])
    ensures Parse(rows) == Failure(ShortRow(i, |rows[i]|))
  {
    assert FirstShort(rows, 1) == i;
  }

  /** When every data row has two fields, loading yields the table of all data rows. */
  lemma ParseCompletes(rows: seq<Row>)
    requires |rows| >= 1
    requires forall j :: 1 <= j < |rows| ==> HasPair(rows[j])
    ensures AllPairs(rows[1..])
    ensures Parse(rows) == Success(BuildTable(rows[1..]))
  {
    assert FirstShort(rows, 1) == |rows|;
  }

  // ---------------------------------------------------------------------
  // The table built from the data rows

  /** A code is a key of the table exactly when some data row's stripped first field is that code. */
  lemma {:induction false} BuildTableKeys(data: seq<Row>, code: string)
    requires AllPairs(data)
    ensures code in BuildTable(data) <==> exists i :: 0 <= i < |data| && Key(data[i]) == code
  {
    if data != [] {
      var n := |data| - 1;
      var init := data[..n];
      assert AllPairs(init);
      assert BuildTable(data) == BuildTable(init)[Key(data[n]) := Value(data[n])];
      BuildTableKeys(init, code);
      assert forall i :: 0 <= i < n ==> init[i] == data[i];
    }
  }

  /** A key maps to the value of the LAST data row that carries it. */
  lemma {:induction false} BuildTableLastWins(data: seq<Row>, i: nat)
    requires AllPairs(data)
    requires i < |data|
    requires forall j :: i < j < |data| ==> Key(data[j]) != Key(data[i])
    ensures Key(data[i]) in BuildTable(data)
    ensures BuildTable(data)[Key(data[i])] == Value(data[i])
  {
    var init := data[..|data| - 1];
    if i < |data| - 1 {
      assert forall j :: 0 <= j < |init| ==> init[j] == data[j];
      BuildTableLastWins(init, i);
    }
  }

  /** The table holds at most one entry per data row: duplicates collapse, nothing is invented. */
  lemma {:induction false} BuildTableSize(data: seq<Row>)
    requires AllPairs(data)
    ensures |BuildTable(data)| <= |data|
  {
    if data != [] {
      BuildTableSize(data[..|data| - 1]);
    }
  }

  /** The table depends only on the first two fields of each data row. */
  lemma {:induction false} BuildTableFirstTwoFields(data: seq<Row>, other: seq<Row>)
    requires AllPairs(data) && AllPairs(other) && |data| == |other|
    requires forall i :: 0 <= i < |data| ==> data[i][..2] == other[i][..2]
    ensures BuildTable(data) == BuildTable(other)
  {
    if data != [] {
      var n := |data| - 1;
      assert data[n][0] == data[n][..2][0] && data[n][1] == data[n][..2][1];
      assert other[n][0] == other[n][..2][0] && other[n][1] == other[n][..2][1];
      BuildTableFirstTwoFields(data[..n], other[..n]);
    }
  }

  // ---------------------------------------------------------------------
  // Loading a whole file: the header row is skipped

  /** The first short row depends only on which rows from `from` on have two fields. */
  lemma FirstShortSame(rows: seq<Row>, other: seq<Row>, from: nat)
    requires from <= |rows| == |other|
    requires forall j :: from <= j < |rows| ==> (HasPair(rows[j]) <==> HasPair(other[j]))
    ensures FirstShort(rows, from) == FirstShort(other, from)
  {
  }

  /** A loaded table's keys are the stripped first fields of rows 1 onwards; the header adds none. */
  lemma ParsedKeys(rows: seq<Row>, code: string)
    requires Parse(rows).Success?
    ensures code in Parse(rows).value <==> exists i :: 1 <= i < |rows| && Key(rows[i]) == code
  {
    var data := rows[1..];
    assert forall i :: 0 <= i < |data| ==> data[i] == rows[i + 1];
    BuildTableKeys(data, code);
    if exists i :: 1 <= i < |rows| && Key(rows[i]) == code {
      var i :| 1 <= i < |rows| && Key(rows[i]) == code;
      assert Key(data[i - 1]) == code;
    }
  }

  /** In a loaded table a code maps to the stripped second field of the last data row carrying it. */
  lemma ParsedLastWins(rows: seq<Row>, i: nat)
    requires Parse(rows).Success?
    requires 1 <= i < |rows|
    requires forall j :: i < j < |rows| ==> Key(rows[j]) != Key(rows[i])
    ensures Key(rows[i]) in Parse(rows).value
    ensures Parse(rows).value[Key(rows[i])] == Value(rows[i])
  {
    var data := rows[1..];
    assert forall j :: 0 <= j < |data| ==> data[j] == rows[j + 1];
    BuildTableLastWins(data, i - 1);
  }

  /** No key and no value of a loaded table begins or ends with whitespace. */
  lemma ParsedTrimmed(rows: seq<Row>)
    requires Parse(rows).Success?
    ensures forall k :: k in Parse(rows).value ==> Trimmed(k) && Trimmed(Parse(rows).value[k])
  {
  }

  /** The header row is never read: any other header gives the same outcome. */
  lemma HeaderIgnored(header: Row, other: Row, data: seq<Row>)
    ensures Parse([header] + data) == Parse([other] + data)
  {
    var rows, rows' := [header] + data, [other] + data;
    assert forall j :: 1 <= j < |rows| ==> rows[j] == rows'[j];
    FirstShortSame(rows, rows', 1);
    assert rows[1..] == data == rows'[1..];
  }

  /** A data row's fields beyond the second never matter. */
  function FirstTwo(row: Row): Row {
    if |row| <= 2 then row else row[..2]
  }

  /** Cutting every row down to its first two fields changes neither the table nor the error. */
  lemma ExtraFieldsIgnored(rows: seq<Row>)
    ensures Parse(rows) == Parse(seq(|rows|, i requires 0 <= i < |rows| => FirstTwo(rows[i])))
  {
    var cut := seq(|rows|, i requires 0 <= i < |rows| => FirstTwo(rows[i]));
    if |rows| > 0 {
      assert forall j :: 0 <= j < |rows| ==> (HasPair(rows[j]) <==> HasPair(cut[j]));
      FirstShortSame(rows, cut, 1);
      var k := FirstShort(rows, 1);
      if k == |rows| {
        var data, data' := rows[1..], cut[1..];
        assert forall j :: 0 <= j < |data| ==> data[j] == rows[j + 1] && data'[j] == cut[j + 1];
        forall j | 0 <= j < |data| ensures data[j][..2] == data'[j][..2] {
          assert HasPair(rows[j + 1]);
        }
        BuildTableFirstTwoFields(data, data');
      }
    }
  }
}
