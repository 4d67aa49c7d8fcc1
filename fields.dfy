/** Resolving and validating the field identifiers that callers pass to the
    struct operations: `_get_struct_field_label` and
    `_check_valid_struct_fields`. */
module StructFields {
  import opened Values
  import opened Schema

  /** `_get_struct_field_label`: a label is taken as given, a position is
      resolved to the label the struct type has there. Nothing in the struct
      operations calls it: they name fields with the raw identifiers. */
  function FieldLabel(labels: seq<string>, id: FieldId): (r: string)
    requires id.ByPosition? ==> id.pos < |labels|
    ensures id.ByName? ==> r == id.name
    ensures id.ByPosition? ==> r in labels && r == labels[id.pos]
  {
    match id
    case ByName(name) => name
    case ByPosition(pos) => labels[pos]
  }

  /** The membership test `field not in valid_fields`, negated: only a label
      can be a member of the set of label strings, never a position. */
  predicate IsValidField(valid: set<string>, f: FieldId)
  {
    f.ByName? && f.name in valid
  }

  /** `_check_valid_struct_fields`: fails, naming every requested identifier
      that is not a label of the struct type together with the full set of
      labels, exactly when there is such an identifier. */
  function CheckValidStructFields(labels: seq<string>, fields: seq<FieldId>): (r: Outcome)
    ensures r.Pass? <==> forall f | f in fields :: f.ByName? && f.name in labels
    ensures r.Fail? ==> r.error.UnknownField?
    ensures r.Fail? ==> forall f :: f in r.error.missing <==> f in fields && !(f.ByName? && f.name in labels)
    ensures r.Fail? ==> forall l :: l in r.error.valid <==> l in labels
  {
    var valid := LabelSet(labels);
    var missing := set f | f in fields && !IsValidField(valid, f);
    assert forall f | f in fields :: f in missing || IsValidField(valid, f);
    if missing != {} then Fail(UnknownField(missing, valid)) else Pass
  }

  /** The outcome depends only on which identifiers are requested, not on
      their order or how often each one is repeated. */
  lemma ValidationIgnoresOrderAndRepeats(labels: seq<string>, a: seq<FieldId>, b: seq<FieldId>)
    requires forall f :: f in a <==> f in b
    ensures CheckValidStructFields(labels, a) == CheckValidStructFields(labels, b)
  {
    var valid := LabelSet(labels);
    assert (set f | f in a && !IsValidField(valid, f)) == (set f | f in b && !IsValidField(valid, f));
  }

  /** Requesting no field always passes. */
  lemma NoFieldsPass(labels: seq<string>)
    ensures CheckValidStructFields(labels, []) == Pass
  {
  }

  /** A single unknown label is reported alone, beside every label of the type. */
  lemma UnknownNameReported(labels: seq<string>, name: string)
    requires name !in labels
    ensures CheckValidStructFields(labels, [ByName(name)]) == Fail(UnknownField({ByName(name)}, LabelSet(labels)))
  {
    var r := CheckValidStructFields(labels, [ByName(name)]);
    assert r.error.missing == {ByName(name)};
    assert r.error.valid == LabelSet(labels);
  }

  /** As written, a position is never accepted, even one inside the struct
      type, although the label it resolves to is. */
  lemma PositionsRejected(labels: seq<string>, fields: seq<FieldId>, k: nat)
    requires k < |fields| && fields[k].ByPosition?
    ensures CheckValidStructFields(labels, fields).Fail?
    ensures fields[k] in CheckValidStructFields(labels, fields).error.missing
  {
    assert fields[k] in fields;
  }

  /** The label a position resolves to always passes validation. */
  lemma ResolvedLabelPasses(labels: seq<string>, pos: nat)
    requires pos < |labels|
    ensures CheckValidStructFields(labels, [ByName(FieldLabel(labels, ByPosition(pos)))]) == Pass
  {
  }
}
