/** The two operations registered under the `struct` scope, `get` and
    `project`, over a columnar struct array, and the dtype guard that the
    `_assert_struct_dtype` decorator puts in front of both. */
module StructOps {
  import opened Values
  import opened Schema
  import opened StructFields
  import opened StructFormat

  /** A pyarrow struct array held column-wise: one child array per field,
      in position order, each with one value per row. */
  datatype StructArray = StructArray(labels: seq<string>, children: seq<seq<Value>>, length: nat)
  {
    predicate Valid()
    {
      && |labels| == |children|
      && forall k | 0 <= k < |children| :: |children[k]| == length
    }

    /** Row `i` as a struct item: the value of every field in that row. */
    function Row(i: nat): (r: StructItem)
      requires Valid() && i < length
      ensures r.Valid() && r.labels == labels
      ensures forall k | 0 <= k < |labels| :: r.values[k] == children[k][i]
    {
      StructItem(labels, seq(|children|, k requires 0 <= k < |children| => children[k][i]))
    }
  }

  /** A column an expression evaluates to: a struct array, or an array of
      some other type, known by its type tag. */
  datatype Column = Flat(tag: string, values: seq<Value>) | Struct(a: StructArray)

  function DType(x: Column): DataType
  {
    match x
    case Flat(tag, _) => Primitive(tag)
    case Struct(a) => StructType(a.labels)
  }

  /** The dtype guard of `_assert_struct_dtype`: a `TypeError` naming the
      actual type unless the column is struct-typed. */
  function AssertStructDtype(x: Column): (r: Outcome)
    ensures r.Pass? <==> DType(x).StructType?
    ensures r.Fail? ==> r.error == TypeMismatch(DType(x)) && !r.error.actual.StructType?
  {
    if x.Struct? then Pass else Fail(TypeMismatch(DType(x)))
  }

  /** pyarrow's `StructArray.field(name)` for a label that occurs once: the
      child array at that label's position. */
  function Field(a: StructArray, name: string): (c: seq<Value>)
    requires a.Valid() && name in a.labels && Count(a.labels, name) <= 1
    ensures |c| == a.length
    ensures forall k | 0 <= k < |a.labels| && a.labels[k] == name :: c == a.children[k]
  {
    assert forall k | 0 <= k < |a.labels| && a.labels[k] == name :: IndexOf(a.labels, name) == k by {
      forall k | 0 <= k < |a.labels| && a.labels[k] == name
        ensures IndexOf(a.labels, name) == k
      {
        UniqueIndex(a.labels, name, k);
      }
    }
    a.children[IndexOf(a.labels, name)]
  }

  /** `pa.StructArray.from_arrays(arrays, names)`: the row count is taken
      from the child arrays, and is zero when there are none. */
  function FromArrays(arrays: seq<seq<Value>>, names: seq<string>): (r: StructArray)
    requires |arrays| == |names|
    requires forall k | 0 <= k < |arrays| :: |arrays[k]| == |arrays[0]|
    ensures r.Valid() && r.labels == names && r.children == arrays
    ensures arrays == [] ==> r.length == 0
    ensures arrays != [] ==> r.length == |arrays[0]|
  {
    StructArray(names, arrays, if arrays == [] then 0 else |arrays[0]|)
  }

  /** Only labels that occur at most once in the struct type are looked up
      by name; pyarrow refuses an ambiguous label. */
  predicate Unambiguous(a: StructArray, fields: seq<FieldId>)
  {
    forall k | 0 <= k < |fields| :: fields[k].ByName? ==> Count(a.labels, fields[k].name) <= 1
  }

  /** The labels named by a list of identifiers that are all labels. */
  function Names(fields: seq<FieldId>): (r: seq<string>)
    requires forall f | f in fields :: f.ByName?
    ensures |r| == |fields| && forall k | 0 <= k < |fields| :: r[k] == fields[k].name
  {
    seq(|fields|, k requires 0 <= k < |fields| => fields[k].name)
  }

  /** `struct_get` without its decorator: validates the identifier, then
      takes the child array of that label, whose element `i` is row `i`'s
      value of the field. */
  function GetField(a: StructArray, id: FieldId): (r: Result<seq<Value>>)
    requires a.Valid() && Unambiguous(a, [id])
    ensures r.Ok? <==> id.ByName? && id.name in a.labels
    ensures r.Err? ==> r.error == UnknownField({id}, LabelSet(a.labels))
    ensures r.Ok? ==> |r.value| == a.length
    ensures r.Ok? ==> forall k | 0 <= k < |a.labels| && a.labels[k] == id.name :: r.value == a.children[k]
  {
    match CheckValidStructFields(a.labels, [id])
    case Fail(e) =>
      assert e.missing == {id} && e.valid == LabelSet(a.labels);
      Err(e)
    case Pass =>
      assert Count(a.labels, id.name) <= 1;
      Ok(Field(a, id.name))
  }

  /** `struct_project` without its decorator: validates every identifier,
      then builds a struct array whose fields are the requested ones, in the
      requested order and with their repeats, each holding the child array
      of its label: field `k` of row `i` is row `i`'s value of the field
      labelled `fields[k]`. */
  function ProjectFields(a: StructArray, fields: seq<FieldId>): (r: Result<StructArray>)
    requires a.Valid() && Unambiguous(a, fields)
    ensures r.Ok? <==> forall f | f in fields :: f.ByName? && f.name in a.labels
    ensures r.Err? ==> r.error.UnknownField? && r.error.valid == LabelSet(a.labels)
    ensures r.Err? ==> r.error.missing == set f | f in fields && !(f.ByName? && f.name in a.labels)
    ensures r.Ok? ==> r.value.Valid() && r.value.labels == Names(fields)
    ensures r.Ok? ==> r.value.length == if fields == [] then 0 else a.length
    ensures r.Ok? ==> forall k, j | 0 <= k < |fields| && 0 <= j < |a.labels| && a.labels[j] == fields[k].name ::
                        r.value.children[k] == a.children[j]
  {
    match CheckValidStructFields(a.labels, fields)
    case Fail(e) =>
      assert e.valid == LabelSet(a.labels);
      Err(e)
    case Pass =>
      assert forall k | 0 <= k < |fields| :: fields[k] in fields;
      var arrays := seq(|fields|, k requires 0 <= k < |fields| => Field(a, fields[k].name));
      Ok(FromArrays(arrays, Names(fields)))
  }

  /** The precondition both decorated operations share. */
  predicate Usable(x: Column, fields: seq<FieldId>)
  {
    x.Struct? ==> x.a.Valid() && Unambiguous(x.a, fields)
  }

  /** `struct_get`: a `TypeError` on a column that is not struct-typed,
      otherwise exactly the undecorated operation. */
  function StructGet(x: Column, id: FieldId): (r: Result<seq<Value>>)
    requires Usable(x, [id])
    ensures !x.Struct? ==> r == Err(TypeMismatch(DType(x)))
    ensures x.Struct? ==> r == GetField(x.a, id)
  {
    match AssertStructDtype(x)
    case Fail(e) => Err(e)
    case Pass => GetField(x.a, id)
  }

  /** `struct_project`: a `TypeError` on a column that is not struct-typed,
      otherwise exactly the undecorated operation. */
  function StructProject(x: Column, fields: seq<FieldId>): (r: Result<StructArray>)
    requires Usable(x, fields)
    ensures !x.Struct? ==> r == Err(TypeMismatch(DType(x)))
    ensures x.Struct? ==> r == ProjectFields(x.a, fields)
  {
    match AssertStructDtype(x)
    case Fail(e) => Err(e)
    case Pass => ProjectFields(x.a, fields)
  }
}
