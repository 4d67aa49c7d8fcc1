# vaex struct helpers in Dafny

A model of vaex's struct-column helpers (`packages/vaex-core/vaex/struct.py`):
the two operations vaex registers under the `struct` scope, `get` (one field of
every row) and `project` (a new struct array made of chosen fields), the dtype
guard in front of both, the validation of requested field names, the
resolution of a positional identifier to a label, and the textual rendering of
a single struct value whose type repeats a field label.

Everything in the source is an expression, a comprehension or a call, so the
model is made of datatypes, functions and lemmas.

| file | module | what it holds |
|---|---|---|
| `values.dfy` | `Values` | scalars (`Int`, `Bool`, `Null`, `Str`), field identifiers (`ByName`, `ByPosition`), data types, the two errors, `Result`/`Outcome` |
| `schema.dfy` | `Schema` | the label set, how often a label occurs, where a lookup by name lands |
| `json.dfy` | `Json` | Python's `json.dumps` for those scalars (RFC 8259 section 7 escapes, `ensure_ascii`), and decoders for them |
| `text.dfy` | `Text` | `", ".join(...)` and `str.split(", ")` |
| `format.dfy` | `StructFormat` | duplicate-label check, the `'label(idx)': json` renderer, the dispatching formatter, and a parser that reads a rendering back |
| `fields.dfy` | `StructFields` | `_get_struct_field_label`, `_check_valid_struct_fields` |
| `ops.dfy` | `StructOps` | struct arrays, the dtype guard, `struct_get`, `struct_project` |
| `laws.dfy` | `StructLaws` | how get, project and the formatter compose |
| `examples.dfy` | `StructExamples` | the test fixture and its expected results |

A struct array is held column-wise, as pyarrow holds it: `labels`, one child
array per label, and a row count that every child has. Row `i` of it is the
`StructItem` of all children's `i`-th values. A column that is not a struct
array is `Flat(tag, values)`, where `tag` is the type name.

Where the code and its docstrings disagree, the model follows the code:

- The docstrings of `struct_get` and `struct_project` say that integers are
  accepted as field identifiers. But `_check_valid_struct_fields` tests each
  identifier for membership in a set of label strings (lines 81-82), so a
  position is always reported as unknown. The model does the same
  (`StructFields.PositionsRejected`, `StructLaws.GetByPositionFails`).
- `struct_project` names the new fields with the raw identifiers (line 165).
  `_get_struct_field_label` is called nowhere in the file. The model keeps both
  as written. `StructLaws.ProjectLabelsAreResolvedLabels` shows that the two
  namings agree whenever projection succeeds, because only labels pass
  validation.
- The repository's tests call the operation `get_field`, while the file
  registers `struct_get`. The examples treat both names as the same operation.
- `struct_project` with an empty field list passes validation and hands
  `pa.StructArray.from_arrays` no child arrays. The row count of a struct array
  built from its children is taken from the first child, so the model gives an
  array of zero rows (`StructOps.FromArrays`). Every non-empty projection keeps
  the source's row count.

## Model

| member | source | states |
|---|---|---|
| `Schema.LabelSetSize` | packages/vaex-core/vaex/struct.py:45-46 | the label set never has more elements than there are fields, and has exactly as many precisely when no label repeats |
| `Schema.UniqueIndex` | packages/vaex-core/vaex/struct.py:124 | a lookup by a label that occurs at most once lands on the position that carries it |
| `Schema.DistinctCount` | packages/vaex-core/vaex/struct.py:45-46 | in a label sequence without repeats, every label occurs at most once |
| `StructFormat.HasDuplicatedFieldLabels` | packages/vaex-core/vaex/struct.py:40-46 | true exactly when some label sits at two different positions |
| `StructFormat.FormatStructItem` | packages/vaex-core/vaex/struct.py:13-24 | takes the duplicate-label renderer exactly when some label repeats; otherwise returns the `as_py()` dict |
| `StructFormat.AsPy` | packages/vaex-core/vaex/struct.py:24 | the dict has one pair per field, pairing each label with that field's value, in position order |
| `StructFormat.DictKeepsEveryField` | packages/vaex-core/vaex/struct.py:14-17 | the keys of the `as_py()` dict are the label set; the dict keeps every field exactly when no label repeats, and then maps each label to its own field's value |
| `StructFormat.RenderedRoundTrip` | packages/vaex-core/vaex/struct.py:27-37 | the rendering of a struct item reads back into the same item: exactly one `'label(idx)': json` entry per field, in position order, joined by `", "` inside braces |
| `StructFormat.FormatDuplicatedStructItem` | packages/vaex-core/vaex/struct.py:27-37 | the rendering is wrapped in braces; what it holds, one entry per field in position order, is proved by its inverse `StructFormat.RenderedRoundTrip` |
| `StructFormat.EntriesFrom` | packages/vaex-core/vaex/struct.py:33-35 | one entry per field; that entry `k` carries field `k`'s label, position and value is proved by `StructFormat.RenderedRoundTrip` |
| `StructFormat.Entry` | packages/vaex-core/vaex/struct.py:34 | the entry of a comma-free label and value holds no comma, which is what lets the `", "` join be split again; that it carries the label, the position and the value is proved by `StructFormat.ParseEntryOf` |
| `StructFormat.ParseEntryOf` | packages/vaex-core/vaex/struct.py:34 | one entry reads back into its label, its position and its value |
| `StructExamples.DuplicatedRenderingExample` | packages/vaex-core/vaex/struct.py:27-37 | labels `["a","a"]` with values `[1,2]` render as `{'a(0)': 1, 'a(1)': 2}` |
| `StructLaws.RenderTwinFields` | packages/vaex-core/vaex/struct.py:21-22 | a row with two fields under one label is rendered as its two entries, at positions 0 and 1, joined by `", "` inside braces |
| `Json.Decimal` | packages/vaex-core/vaex/struct.py:34 | the position is written as decimal digits with no leading zero |
| `Json.DecimalRoundTrip` | packages/vaex-core/vaex/struct.py:34 | the decimal digits of a number read back as that number |
| `Json.EscapeString` | packages/vaex-core/vaex/struct.py:34 | the escaped body of a JSON string is printable ASCII and holds no comma when the string holds none |
| `Json.UnescapeRoundTrip` | packages/vaex-core/vaex/struct.py:34 | unescaping the JSON string body of any string gives the string back, including characters above U+FFFF written as surrogate pairs |
| `Json.Literal` | packages/vaex-core/vaex/struct.py:34 | `json.dumps` of a scalar is non-empty printable ASCII, with a comma only inside a string that has one; that it denotes the scalar is proved by `Json.LiteralRoundTrip` |
| `Json.LiteralRoundTrip` | packages/vaex-core/vaex/struct.py:34 | every JSON literal `json.dumps` writes for a scalar reads back as that scalar |
| `Text.Join` | packages/vaex-core/vaex/struct.py:37 | `", ".join`; that the parts can be recovered from it is proved by its inverse `Text.SplitJoin` |
| `Text.SplitJoin` | packages/vaex-core/vaex/struct.py:37 | splitting a `", "`-join at `", "` gives back the parts when no part holds a comma |
| `StructFields.FieldLabel` | packages/vaex-core/vaex/struct.py:49-59 | a label is returned unchanged; an in-range position resolves to a label of the struct type, the one at that position |
| `StructFields.CheckValidStructFields` | packages/vaex-core/vaex/struct.py:76-85 | passes exactly when every requested identifier is a label of the type; on failure reports exactly the requested identifiers that are not labels, and exactly the set of all labels |
| `StructFields.ValidationIgnoresOrderAndRepeats` | packages/vaex-core/vaex/struct.py:81-85 | two requests that mention the same identifiers get the same outcome, whatever the order and repeats |
| `StructFields.NoFieldsPass` | packages/vaex-core/vaex/struct.py:82-83 | requesting no field passes |
| `StructFields.UnknownNameReported` | packages/vaex-core/vaex/struct.py:82-85 | one unknown label is reported alone, beside the set of all labels |
| `StructFields.PositionsRejected` | packages/vaex-core/vaex/struct.py:81-82 | any request holding a position fails, and the position is among the reported identifiers |
| `StructFields.ResolvedLabelPasses` | packages/vaex-core/vaex/struct.py:49-59 | the label an in-range position resolves to passes validation |
| `StructOps.AssertStructDtype` | packages/vaex-core/vaex/struct.py:62-73 | passes exactly for a struct-typed column; otherwise fails with a type mismatch carrying the actual, non-struct type |
| `StructOps.Field` | packages/vaex-core/vaex/struct.py:124 | the child array of an unambiguous label: one value per row, the child at the label's position |
| `StructOps.FromArrays` | packages/vaex-core/vaex/struct.py:165 | the new struct array is well formed, with the given labels and child arrays; its row count is that of the first child array, and zero when there are none |
| `StructOps.GetField` | packages/vaex-core/vaex/struct.py:122-124 | succeeds exactly for a label of the type; then is that label's child array, one value per row, so that element `i` is row `i`'s value of the field; otherwise raises the unknown-field error naming the identifier and all labels |
| `StructOps.ProjectFields` | packages/vaex-core/vaex/struct.py:163-165 | succeeds exactly when every identifier is a label; then the new labels are the requested ones in order with repeats, the row count is kept for a non-empty request, and new field `k` is the child array labelled `fields[k]`, so row `i` of it is row `i`'s value of that field; otherwise reports the unknown identifiers and all labels |
| `StructOps.StructGet` | packages/vaex-core/vaex/struct.py:88-124 | a type mismatch carrying the actual type on a non-struct column; otherwise exactly the undecorated `get` |
| `StructOps.StructProject` | packages/vaex-core/vaex/struct.py:127-165 | a type mismatch carrying the actual type on a non-struct column; otherwise exactly the undecorated `project` |
| `StructLaws.ByNames` | packages/vaex-core/vaex/struct.py:164 | identifiers for a list of labels, whose names are that list |
| `StructLaws.ProjectLabelsAreResolvedLabels` | packages/vaex-core/vaex/struct.py:165 | after a successful projection every identifier is a label, and the new labels are the identifiers resolved by `_get_struct_field_label` |
| `StructLaws.ProjectByNames` | packages/vaex-core/vaex/struct.py:163-165 | a projection by labels that exist and are unambiguous succeeds, keeps the row count unless no label is requested, and its field `k` is the source's child array of the `k`-th label |
| `StructLaws.ProjectThenGet` | packages/vaex-core/vaex/struct.py:163-165 | getting a field from a projection that holds it once gives the same column as getting it from the source |
| `StructLaws.ProjectAllIsIdentity` | packages/vaex-core/vaex/struct.py:163-165 | projecting every label of an array with unambiguous labels, in position order, rebuilds the array |
| `StructLaws.ProjectOfProject` | packages/vaex-core/vaex/struct.py:163-165 | projecting a projection is projecting the source directly |
| `StructLaws.RepeatedProjectionIsDuplicated` | packages/vaex-core/vaex/struct.py:164-165 | requesting one label twice yields duplicated labels, and each row renders as two entries of that field's value at positions 0 and 1 |
| `StructLaws.DistinctLabelsAreUnambiguous` | packages/vaex-core/vaex/struct.py:40-46 | when the duplicate-label check is false, every label can be looked up by name |
| `StructLaws.GetByPositionFails` | packages/vaex-core/vaex/struct.py:123 | `get` by position always raises the unknown-field error |
| `StructExamples.GetFieldExample` | tests/struct_test.py:21-26 | `get` of `col1` and `col2` on the fixture gives `[1,2,3]` and `["a","b","c"]` |
| `StructExamples.GetUnknownFieldExample` | tests/struct_test.py:34-36 | `get` of an unknown label raises the unknown-field error |
| `StructExamples.WrongDtypeExample` | tests/struct_test.py:39-42 | `get` and `project` on the integer column raise the type error |
| `StructExamples.ProjectExample` | tests/struct_test.py:45-49 | projecting `["col3","col1"]` gives rows `{col3:4, col1:1}`, `{col3:5, col1:2}`, `{col3:6, col1:3}` |
| `StructExamples.ProjectUnknownFieldExample` | tests/struct_test.py:58-60 | `project` of an unknown label raises the unknown-field error |

## Left out

- Registration under the `struct` scope, the lazy expression machinery, the
  `expr[:, field]` sugar, and whether a check runs when the call is made or
  when the expression is evaluated: these live in `vaex.expression` and
  `vaex`, which are not part of this model.
- `StructOperations.assert_struct_dtype` is not part of this model. Its effect
  is modelled as a type check on the column's type tag. `field_names` and
  `field_types` are left out with it.
- The text of the `ValueError` and `TypeError` messages. The model keeps what
  they carry: the set of unknown identifiers, the set of valid labels, and the
  actual type.
- Struct rows that are null as a whole, and how pyarrow's `StructArray.field`
  shows them. The model has no row-level validity, only field values, which
  may be `Null`.
- Floats, nested values and the other pyarrow scalar types, together with
  their JSON form.
- pyarrow's lookup of a label that occurs more than once, and its negative or
  out-of-range positions. These are preconditions: `Unambiguous` for `get` and
  `project`, `id.pos < |labels|` for `FieldLabel`.
- `as_py()` of a struct scalar whose labels repeat. The formatter never calls
  it there.
- Struct values that are null as a whole, passed to the formatter.
- Concurrency and scheduling of the executor (`tests/execution_test.py`). They
  have nothing to do with the struct helpers.
- StructFormat.RenderedRoundTrip: covers only labels without `,` or `(` and
  string values without `,`. The renderer inserts labels without escaping, and
  it joins entries with `", "`, so text outside these limits can be read in
  more than one way.
