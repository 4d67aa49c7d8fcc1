/** Shared vocabulary of the struct helpers: the scalar values a struct field
    holds, the ways a caller names a field, data types, and the errors the
    struct operations raise. */
module Values {

  /** A scalar as pyarrow's `as_py()` hands it to Python. Floats, dates and
      nested values are not part of this model. */
  datatype Value = Int(i: int) | Bool(b: bool) | Null | Str(s: string)

  /** A field identifier: a label, or a position in the struct type. */
  datatype FieldId = ByName(name: string) | ByPosition(pos: nat)

  /** The data type of a column, as far as the struct helpers inspect it. */
  datatype DataType = Primitive(tag: string) | StructType(labels: seq<string>)

  /** The exceptions the struct operations raise. `TypeMismatch` is the
      `TypeError` of the struct dtype guard, `UnknownField` the `ValueError`
      naming the unknown and the valid field names. */
  datatype StructError =
    | TypeMismatch(actual: DataType)
    | UnknownField(missing: set<FieldId>, valid: set<string>)

  /** Success or failure of a check that produces nothing. */
  datatype Outcome = Pass | Fail(error: StructError)

  /** The value of an operation, or the exception it raises. */
  datatype Result<T> = Ok(value: T) | Err(error: StructError)

  datatype Option<T> = None | Some(value: T)
}
