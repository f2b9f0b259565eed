/**
 * The ICD-10 -> ICD-9 mapper: loads the GEM crosswalk once, at construction,
 * then answers single-code and batch lookups against the loaded table.
 */
module Icd10ToIcd9 {
  import opened Wrappers
  import opened Whitespace
  import opened GemCrosswalk

  /** What `map` is given, classified the way the mapper inspects it: a string first, then any other iterable. */
  datatype Query =
    | Str(code: string)
    | Iterable(codes: seq<string>)
    | Other(typeName: string)

  /** What `map` returns: one value for a string, a list of values for an iterable. */
  datatype Answer =
    | One(value: Option<string>)
    | Many(values: seq<Option<string>>)

  const TypeErrorText := "Wrong input type. Expecting str or pd.Series. Got "

  /** The error `map` raises for an input that is neither a string nor iterable. */
  datatype TypeError = TypeError(typeName: string) {
    /** The message the mapper raises: a fixed text, then the received type as Python renders it. */
    function Message(): (m: string)
      ensures |m| == |TypeErrorText| + |typeName| + 10
      ensures m[..|TypeErrorText|] == TypeErrorText
      ensures m[|TypeErrorText|..] == "<class '" + typeName + "'>"
      ensures m[|m| - |typeName| - 2..|m| - 2] == typeName
    {
      TypeErrorText + "<class '" + typeName + "'>"
    }
  }

  class ICD10toICD9 {
    /** ICD-10 code -> ICD-9 code; assigned once, at construction, and never changed. */
    const table: map<string, string>

    /** Installs a loaded table as the mapper's table. */
    constructor FromTable(t: map<string, string>)
      ensures table == t
    {
      table := t;
    }

    /**
     * Constructing a mapper: load the crosswalk rows and install the table,
     * or fail with the loader's error and yield no mapper at all.
     */
    static method Create(rows: seq<Row>) returns (r: Result<ICD10toICD9, ParseError>)
      ensures r.Failure? ==> Parse(rows) == Failure(r.error)
      ensures r.Success? ==> fresh(r.value) && Parse(rows) == Success(r.value.table)
    {
      var loaded := ParseFile(rows);
      if loaded.Failure? {
        r := Failure(loaded.error);
      } else {
        var mapper := new ICD10toICD9.FromTable(loaded.value);
        r := Success(mapper);
      }
    }

    /**
     * Reads the crosswalk rows: skips the header, then inserts each data row's
     * stripped first and second fields, a later row overwriting an earlier one.
     */
    static method ParseFile(rows: seq<Row>) returns (r: Result<map<string, string>, ParseError>)
      ensures r == Parse(rows)
    {
      if |rows| == 0 {
        return Failure(MissingHeader);
      }
      var mapping: map<string, string> := map[];
      var i := 1;
      while i < |rows|
        invariant 1 <= i <= |rows|
        invariant forall j :: 1 <= j < i ==> HasPair(rows[j])
        invariant AllPairs(rows[1..i]) && mapping == BuildTable(rows[1..i])
      {
        var row := rows[i];
        if |row| < 2 {
          ParseStopsAt(rows, i);
          return Failure(ShortRow(i, |row|));
        }
        BuildTableSnoc(rows[1..i], row);
        assert rows[1..i + 1] == rows[1..i] + [row];
        mapping := mapping[Strip(row[0]) := Strip(row[1])];
        i := i + 1;
      }
      ParseCompletes(rows);
      assert rows[1..i] == rows[1..];
      return Success(mapping);
    }

    /** One code: its table entry, or `None` when the code is not a key. */
    function MapSingle(code: string): (r: Option<string>)
      ensures r == None <==> code !in table
      ensures r.Some? ==> code in table && table[code] == r.value
    {
      if code in table then Some(table[code]) else None
    }

    /** A list of codes: one answer per code, in the same order. */
    function MapAll(codes: seq<string>): (r: seq<Option<string>>)
      ensures |r| == |codes|
      ensures forall i :: 0 <= i < |codes| ==> r[i] == MapSingle(codes[i])
    {
      if codes == [] then [] else [MapSingle(codes[0])] + MapAll(codes[1..])
    }

    /**
     * The mapper's entry point: a string is looked up as one code (never split
     * into characters), any other iterable element by element, anything else
     * is a type error naming the received type.
     */
    function Map(q: Query): (r: Result<Answer, TypeError>)
      ensures q.Str? ==> r == Success(One(MapSingle(q.code)))
      ensures q.Iterable? ==> r.Success? && r.value.Many? && |r.value.values| == |q.codes|
      ensures q.Iterable? ==> forall i :: 0 <= i < |q.codes| ==> r.value.values[i] == MapSingle(q.codes[i])
      ensures q.Other? ==> r == Failure(TypeError(q.typeName))
    {
      match q
      case Str(code) => Success(One(MapSingle(code)))
      case Iterable(codes) => Success(Many(MapAll(codes)))
      case Other(typeName) => Failure(TypeError(typeName))
    }
  }

  // ---------------------------------------------------------------------
  // Lookups against a table loaded from crosswalk rows

  /** A code carried by a data row maps to the ICD-9 code of the last data row carrying it. */
  lemma LookupFound(mapper: ICD10toICD9, rows: seq<Row>, i: nat)
    requires Parse(rows) == Success(mapper.table)
    requires 1 <= i < |rows|
    requires forall j :: i < j < |rows| ==> Key(rows[j]) != Key(rows[i])
    ensures mapper.Map(Str(Key(rows[i]))) == Success(One(Some(Value(rows[i]))))
  {
    ParsedLastWins(rows, i);
  }

  /** A code is answered with `None`, and no error, exactly when no data row carries it. */
  lemma LookupMissing(mapper: ICD10toICD9, rows: seq<Row>, code: string)
    requires Parse(rows) == Success(mapper.table)
    ensures mapper.Map(Str(code)) == Success(One(None)) <==> forall i :: 1 <= i < |rows| ==> Key(rows[i]) != code
  {
    ParsedKeys(rows, code);
  }

  /** Codes are looked up as given: one with leading or trailing whitespace is never found. */
  lemma UntrimmedCodeMissing(mapper: ICD10toICD9, rows: seq<Row>, code: string)
    requires Parse(rows) == Success(mapper.table)
    requires !Trimmed(code)
    ensures mapper.Map(Str(code)) == Success(One(None))
  {
    ParsedTrimmed(rows);
  }

  /** A batch is answered element by element: splitting it never changes an answer. */
  lemma {:induction false} BatchSplits(mapper: ICD10toICD9, front: seq<string>, back: seq<string>)
    ensures mapper.MapAll(front + back) == mapper.MapAll(front) + mapper.MapAll(back)
  {
    var whole, left, right := mapper.MapAll(front + back), mapper.MapAll(front), mapper.MapAll(back);
    forall i | 0 <= i < |whole| ensures whole[i] == (left + right)[i] {
      if i >= |front| {
        assert (front + back)[i] == back[i - |front|];
      }
    }
  }

  /** A worked example: a header row and the data row ("0010", "001"). */
  method GemExample() returns (single: Result<Answer, TypeError>, batch: Result<Answer, TypeError>)
    ensures single == Success(One(Some("001")))
    ensures batch == Success(Many([Some("001"), None]))
  {
    var rows := [["icd10", "icd9"], ["0010", "001"]];
    StripFixedPoints("0010");
    StripFixedPoints("001");
    ParseCompletes(rows);
    assert rows[1..] == [["0010", "001"]];
    assert BuildTable(rows[1..]) == map["0010" := "001"];
    var created := ICD10toICD9.Create(rows);
    var mapper := created.value;
    single := mapper.Map(Str("0010"));
    batch := mapper.Map(Iterable(["0010", "ZZZZ"]));
    assert "ZZZZ" !in mapper.table;
    assert batch.value.values == [Some("001"), None];
  }
}
