# ICD-10 → ICD-9 mapper, modelled in Dafny

This project models the `ICD10toICD9` mapper of the ICD-Mappings library. The
mapper loads the NBER General Equivalence Mapping (GEM) crosswalk once, when it
is constructed. The crosswalk is a comma-separated file whose first row is a
header. Every later row supplies an ICD-10 code and an ICD-9 code in its first
two fields. Both fields are whitespace-stripped, and a later row with the same
ICD-10 code overwrites an earlier one. After loading, `map` answers:

- a string, with the ICD-9 code recorded for it or `None`;
- any other iterable of codes, with a list of such answers in the same order;
- anything else, with a `TypeError` that names the type it received.

Files:

- `wrappers.dfy`: `Option` (`None` is the "not found" answer) and `Result` (a value, or the error the Python code would raise).
- `whitespace.dfy`: Python's `str.strip()` over the characters that `str.isspace()` accepts.
- `gem_crosswalk.dfy`: the specification of loading. `Parse` maps the file's rows, already split into fields, to a table or a `ParseError`. It is defined through `FirstShort` (the first data row with fewer than two fields) and `BuildTable` (data rows inserted in order). The lemmas state what a loaded table contains.
- `icd10_to_icd9.dfy`: the class `ICD10toICD9`.
  - Its `table` is a `const`. It is assigned once, at construction, and nothing changes it afterwards.
  - `ParseFile` is the loader's row loop. It is proved equal to `Parse`.
  - `Create` is construction. It gives either a fresh mapper holding the loaded table or the loader's error.
  - `MapSingle`, `MapAll` and `Map` are the lookups, plus the lemmas that connect them to the crosswalk rows.

Error behaviour, following the code:

- An empty file makes `next(reader)` raise. This is `ParseError.MissingHeader`.
- A data row with fewer than two fields makes `row[0]` or `row[1]` raise. This is `ParseError.ShortRow(index, fields)`, where `index` is the row's position in the file (the header is row 0). The partly built dictionary is discarded. Loading stops at the first such row.
- A blank line also counts as a short row, because the CSV reader yields it as an empty row.
- The header row itself may have any number of fields.

## Model

| member | source | states |
|---|---|---|
| `Whitespace.TrimStart` | icdmappings/mappers/icd10_to_icd9.py:70 | the left half of `strip()`: the result is no longer than the input and does not start with whitespace |
| `Whitespace.TrimEnd` | icdmappings/mappers/icd10_to_icd9.py:70 | the right half of `strip()`: the result is no longer than the input and does not end with whitespace |
| `Whitespace.TrimStartFrames` | icdmappings/mappers/icd10_to_icd9.py:70 | what the left trim removes is a whitespace prefix; the rest of the string is kept unchanged as a suffix |
| `Whitespace.TrimEndFrames` | icdmappings/mappers/icd10_to_icd9.py:70 | what the right trim removes is a whitespace suffix; the rest of the string is kept unchanged as a prefix |
| `Whitespace.Strip` | icdmappings/mappers/icd10_to_icd9.py:70 | a stripped field neither begins nor ends with whitespace |
| `Whitespace.StripFrames` | icdmappings/mappers/icd10_to_icd9.py:70 | a stripped field is an infix of the raw field, with only whitespace before and after it |
| `Whitespace.StripUnique` | icdmappings/mappers/icd10_to_icd9.py:70 | for any whitespace `p` and `q` around a trimmed `t`, `strip(p + t + q)` is `t`. With `StripFrames`, this characterises `strip` completely |
| `Whitespace.StripIdempotent` | icdmappings/mappers/icd10_to_icd9.py:70 | stripping an already stripped key or value changes nothing |
| `Whitespace.StripFixedPoints` | icdmappings/mappers/icd10_to_icd9.py:70 | `strip(s) == s` exactly when `s` neither begins nor ends with whitespace |
| `GemCrosswalk.FirstShort` | icdmappings/mappers/icd10_to_icd9.py:69-70 | the first row from a given index that lacks a second field: every row before it has two fields, and it has fewer |
| `GemCrosswalk.Parse` | icdmappings/mappers/icd10_to_icd9.py:61-73 | loading fails with `MissingHeader` exactly when there is no row. It succeeds exactly when every row after the header has two fields. Otherwise it names the first short data row and its field count |
| `GemCrosswalk.BuildTable` | icdmappings/mappers/icd10_to_icd9.py:69-72 | the dictionary the loop builds from the data rows, each row inserted in order. Its ensures: every key and every value is whitespace-trimmed. Its contents are fixed by `BuildTableKeys` (which codes are keys) and `BuildTableLastWins` (each key's value comes from its last row) |
| `GemCrosswalk.BuildTableSnoc` | icdmappings/mappers/icd10_to_icd9.py:72 | one more data row sets its stripped key to its stripped value; every other entry stays as it was |
| `GemCrosswalk.ParseStopsAt` | icdmappings/mappers/icd10_to_icd9.py:69-70 | loading stops with `ShortRow` at the first data row with fewer than two fields |
| `GemCrosswalk.ParseCompletes` | icdmappings/mappers/icd10_to_icd9.py:67-73 | when every data row has two fields, loading yields the table built from all rows after the header |
| `GemCrosswalk.BuildTableKeys` | icdmappings/mappers/icd10_to_icd9.py:69-72 | a code is a key exactly when some data row's stripped first field equals it |
| `GemCrosswalk.BuildTableLastWins` | icdmappings/mappers/icd10_to_icd9.py:72 | a key maps to the stripped second field of the last row that carries it |
| `GemCrosswalk.BuildTableSize` | icdmappings/mappers/icd10_to_icd9.py:69-72 | the table has at most one entry per data row: duplicate keys collapse and no entry is invented |
| `GemCrosswalk.BuildTableFirstTwoFields` | icdmappings/mappers/icd10_to_icd9.py:70 | rows that agree on their first two fields build the same table |
| `GemCrosswalk.FirstShortSame` | icdmappings/mappers/icd10_to_icd9.py:69-70 | where loading stops depends only on which rows have two fields |
| `GemCrosswalk.ParsedKeys` | icdmappings/mappers/icd10_to_icd9.py:67-72 | a loaded table's key set is exactly the set of stripped first fields of rows 1 onwards. The header contributes no key |
| `GemCrosswalk.ParsedLastWins` | icdmappings/mappers/icd10_to_icd9.py:67-72 | in a loaded table, each key maps to the stripped second field of the last data row with that key (last write wins) |
| `GemCrosswalk.ParsedTrimmed` | icdmappings/mappers/icd10_to_icd9.py:70 | every key and every value of a loaded table is whitespace-trimmed |
| `GemCrosswalk.HeaderIgnored` | icdmappings/mappers/icd10_to_icd9.py:67 | replacing the header row by any other row changes neither the table nor the error |
| `GemCrosswalk.ExtraFieldsIgnored` | icdmappings/mappers/icd10_to_icd9.py:70 | cutting every row down to its first two fields changes neither the table nor the error |
| `Icd10ToIcd9.ICD10toICD9.FromTable` | icdmappings/mappers/icd10_to_icd9.py:26 | the mapper's table is the one that was loaded |
| `Icd10ToIcd9.ICD10toICD9.Create` | icdmappings/mappers/icd10_to_icd9.py:14-26 | construction either yields a fresh mapper whose table is `Parse(rows)`'s table, or yields exactly `Parse(rows)`'s error and no mapper |
| `Icd10ToIcd9.ICD10toICD9.ParseFile` | icdmappings/mappers/icd10_to_icd9.py:61-73 | the row loop (skip the header, then strip and insert each pair) returns exactly `Parse(rows)`. That covers both the table and the error |
| `Icd10ToIcd9.ICD10toICD9.MapSingle` | icdmappings/mappers/icd10_to_icd9.py:29-34 | a code gets its table entry when it is a key, and `None` otherwise, never an error. Against the crosswalk rows, `LookupFound` and `LookupMissing` state which codes are found and with what value |
| `Icd10ToIcd9.ICD10toICD9.MapAll` | icdmappings/mappers/icd10_to_icd9.py:55-56 | a batch answer has one entry per input code, in input order, each being that code's single lookup |
| `Icd10ToIcd9.ICD10toICD9.Map` | icdmappings/mappers/icd10_to_icd9.py:36-58 | a string gets one answer, its lookup, and is never split into characters. An iterable gets a list of the same length with `result[i]` the lookup of `input[i]`. Anything else is a `TypeError` naming its type. `Map` reads only the constant table, so repeated calls on one mapper give identical results |
| `Icd10ToIcd9.TypeError.Message` | icdmappings/mappers/icd10_to_icd9.py:58 | the error text is the fixed "Wrong input type. Expecting str or pd.Series. Got " followed by `<class 'name'>`, so the message names the received type |
| `Icd10ToIcd9.LookupFound` | icdmappings/mappers/icd10_to_icd9.py:29-34 | a code carried by a data row is answered with the ICD-9 code of the last data row carrying it |
| `Icd10ToIcd9.LookupMissing` | icdmappings/mappers/icd10_to_icd9.py:29-34 | a code is answered with `None`, and no error, exactly when no data row's stripped first field equals it |
| `Icd10ToIcd9.UntrimmedCodeMissing` | icdmappings/mappers/icd10_to_icd9.py:29-34 | the queried code is not stripped, so a code with leading or trailing whitespace is always `None` |
| `Icd10ToIcd9.BatchSplits` | icdmappings/mappers/icd10_to_icd9.py:55-56 | the answers for a concatenated batch are the two batches' answers concatenated, so a missing code never affects its neighbours |
| `Icd10ToIcd9.GemExample` | icdmappings/mappers/icd10_to_icd9.py:52-56 | from a header and the row `("0010", "001")`, the string `"0010"` maps to `"001"` and the batch `["0010", "ZZZZ"]` maps to `["001", None]` |

## Left out

- Resolving the data file's location (icdmappings/mappers/icd10_to_icd9.py:15, :19-24). This is packaging plumbing and depends on a library that is not part of this model.
- Opening the file and splitting it into CSV fields (icdmappings/mappers/icd10_to_icd9.py:65-66). The model takes the rows already split into fields (`seq<seq<string>>`).
- The whitespace set is fixed to the characters Python's `str.isspace()` accepts: U+0009–U+000D, U+001C–U+0020, U+0085, U+00A0, U+1680, U+2000–U+200A, U+2028, U+2029, U+202F, U+205F and U+3000. It does not follow later changes to the Unicode database.
- Icd10ToIcd9.ICD10toICD9.MapSingle: the bare `except` (icdmappings/mappers/icd10_to_icd9.py:33) also turns errors other than a missing key into `None`, such as an unhashable batch element. The model's batch elements are strings only, so that path does not arise.
- How a Python value is sorted into a string, an iterable or neither is left to the caller, who builds the `Query`. Iterables whose elements are not strings (bytes, dictionaries, nested lists) and single-use iterators are not modelled.
- The docstring promises `np.nan` for a missing code (icdmappings/mappers/icd10_to_icd9.py:49). The code returns `None` (:34). The model follows the code, with `Option.None`.
- Construction errors are modelled as the errors the code actually meets (`StopIteration` for an empty file, `IndexError` for a short row), as `ParseError` values. They are not modelled as a single resource error. Rows with more than two fields are accepted; only missing fields fail.
- Icd10ToIcd9.TypeError: the message renders the type as `<class 'name'>`, given the type's name. The model does not derive names from actual Python types.
- `MapperInterface`, the five other mappers and the re-exports in icdmappings/mappers/__init__.py are not part of this model.
