/** How `get`, `project` and the formatter fit together. */
module StructLaws {
  import opened Values
  import opened Schema
  import opened Json
  import opened StructFields
  import opened StructFormat
  import opened StructOps
  import Text

  /** Identifiers for a list of labels. */
  function ByNames(names: seq<string>): (r: seq<FieldId>)
    ensures |r| == |names| && forall k | 0 <= k < |names| :: r[k] == ByName(names[k])
    ensures forall f | f in r :: f.ByName?
    ensures Names(r) == names
  {
    seq(|names|, k requires 0 <= k < |names| => ByName(names[k]))
  }

  /** Labels of `a` that all exist and are each unambiguous. */
  predicate KnownUnique(a: StructArray, names: seq<string>)
  {
    forall k | 0 <= k < |names| :: names[k] in a.labels && Count(a.labels, names[k]) <= 1
  }

  /** On success, the labels of a projection are the requested identifiers
      resolved by `_get_struct_field_label`: the raw identifiers that line
      165 passes as names coincide with them, since only labels get past
      validation. */
  lemma ProjectLabelsAreResolvedLabels(a: StructArray, fields: seq<FieldId>)
    requires a.Valid() && Unambiguous(a, fields)
    requires ProjectFields(a, fields).Ok?
    ensures forall k | 0 <= k < |fields| :: fields[k].ByName?
    ensures ProjectFields(a, fields).value.labels
            == seq(|fields|, k requires 0 <= k < |fields| => FieldLabel(a.labels, fields[k]))
  {
    assert forall k | 0 <= k < |fields| :: fields[k] in fields;
  }

  /** A projection by labels that all exist and are unambiguous succeeds,
      and its field `k` is the source's child array of `names[k]`. */
  lemma ProjectByNames(a: StructArray, names: seq<string>)
    requires a.Valid() && KnownUnique(a, names)
    ensures ProjectFields(a, ByNames(names)).Ok?
    ensures var p := ProjectFields(a, ByNames(names)).value;
      && p.Valid() && p.labels == names && p.length == (if names == [] then 0 else a.length)
      && forall k | 0 <= k < |names| :: p.children[k] == a.children[IndexOf(a.labels, names[k])]
  {
    var fields := ByNames(names);
    assert forall f | f in fields :: f.ByName? && f.name in a.labels;
  }

  /** Getting a field of a projection that holds it once gives the same
      column as getting it from the source array. */
  lemma ProjectThenGet(a: StructArray, names: seq<string>, name: string)
    requires a.Valid() && KnownUnique(a, names)
    requires Count(names, name) == 1
    ensures ProjectFields(a, ByNames(names)).Ok?
    ensures GetField(ProjectFields(a, ByNames(names)).value, ByName(name)) == GetField(a, ByName(name))
  {
    ProjectByNames(a, names);
    var p := ProjectFields(a, ByNames(names)).value;
    var k := IndexOf(names, name);
    assert p.children[k] == a.children[IndexOf(a.labels, name)];
  }

  /** Without duplicated field labels every label can be looked up by name. */
  lemma DistinctLabelsAreUnambiguous(a: StructArray)
    requires !HasDuplicatedFieldLabels(a.labels)
    ensures KnownUnique(a, a.labels)
  {
    LabelSetSize(a.labels);
    forall k | 0 <= k < |a.labels|
      ensures Count(a.labels, a.labels[k]) <= 1
    {
      DistinctCount(a.labels, a.labels[k]);
    }
  }

  /** Projecting every field of an array without repeated labels, in
      position order, rebuilds the array. */
  lemma ProjectAllIsIdentity(a: StructArray)
    requires a.Valid() && KnownUnique(a, a.labels) && |a.labels| >= 1
    ensures ProjectFields(a, ByNames(a.labels)) == Ok(a)
  {
    ProjectByNames(a, a.labels);
    var p := ProjectFields(a, ByNames(a.labels)).value;
    forall k | 0 <= k < |a.children|
      ensures p.children[k] == a.children[k]
    {
      UniqueIndex(a.labels, a.labels[k], k);
    }
    assert p.children == a.children;
  }

  /** Projecting a projection is projecting the source directly. */
  lemma ProjectOfProject(a: StructArray, inner: seq<string>, outer: seq<string>)
    requires a.Valid() && KnownUnique(a, inner) && KnownUnique(a, outer)
    requires |outer| >= 1
    requires forall k | 0 <= k < |outer| :: outer[k] in inner && Count(inner, outer[k]) <= 1
    ensures ProjectFields(a, ByNames(inner)).Ok?
    ensures ProjectFields(ProjectFields(a, ByNames(inner)).value, ByNames(outer))
            == ProjectFields(a, ByNames(outer))
  {
    ProjectByNames(a, inner);
    var p := ProjectFields(a, ByNames(inner)).value;
    assert outer[0] in inner;
    ProjectByNames(p, outer);
    ProjectByNames(a, outer);
    var left := ProjectFields(p, ByNames(outer)).value;
    var right := ProjectFields(a, ByNames(outer)).value;
    forall k | 0 <= k < |outer|
      ensures left.children[k] == right.children[k]
    {
      var m := IndexOf(inner, outer[k]);
      assert left.children[k] == p.children[m];
    }
    assert left.children == right.children;
  }

  /** Requesting one label twice gives a struct array with duplicated field
      labels, whose rows the formatter therefore renders entry by entry,
      each entry carrying the label and its position. */
  lemma RepeatedProjectionIsDuplicated(a: StructArray, name: string, i: nat)
    requires a.Valid() && name in a.labels && Count(a.labels, name) <= 1
    requires i < a.length
    ensures ProjectFields(a, [ByName(name), ByName(name)]).Ok?
    ensures var p := ProjectFields(a, [ByName(name), ByName(name)]).value;
      && p.labels == [name, name]
      && HasDuplicatedFieldLabels(p.labels)
      && var v := a.Row(i).values[IndexOf(a.labels, name)];
         FormatStructItem(p.Row(i)) == Rendered("{" + Entry(name, 0, v) + ", " + Entry(name, 1, v) + "}")
  {
    assert ByNames([name, name]) == [ByName(name), ByName(name)];
    ProjectByNames(a, [name, name]);
    var p := ProjectFields(a, [ByName(name), ByName(name)]).value;
    var c := a.children[IndexOf(a.labels, name)];
    assert p.children == [c, c];
    TwinRow(p, name, c, i);
    RenderTwinFields(name, c[i], c[i]);
  }

  lemma TwinRow(p: StructArray, name: string, c: seq<Value>, i: nat)
    requires p.Valid() && p.labels == [name, name] && p.children == [c, c] && i < p.length && i < |c|
    ensures p.Row(i) == StructItem([name, name], [c[i], c[i]])
  {
  }

  /** A row with two fields under one label renders as two entries that
      differ only in their positions and values. */
  lemma RenderTwinFields(name: string, v: Value, w: Value)
    ensures HasDuplicatedFieldLabels([name, name])
    ensures FormatStructItem(StructItem([name, name], [v, w]))
            == Rendered("{" + Entry(name, 0, v) + ", " + Entry(name, 1, w) + "}")
  {
    TwinLabels(name);
    TwinText(name, v, w);
  }

  lemma TwinLabels(name: string)
    ensures HasDuplicatedFieldLabels([name, name])
  {
    assert [name, name][0] == [name, name][1];
  }

  lemma TwinText(name: string, v: Value, w: Value)
    ensures FormatDuplicatedStructItem(StructItem([name, name], [v, w]))
            == "{" + Entry(name, 0, v) + ", " + Entry(name, 1, w) + "}"
  {
    var entries := EntriesFrom([name, name], [v, w], 0);
    assert entries == [Entry(name, 0, v), Entry(name, 1, w)];
    assert entries[1..] == [Entry(name, 1, w)];
    assert Text.Join(", ", entries) == Entry(name, 0, v) + ", " + Entry(name, 1, w);
  }

  /** As written, a position is never a usable identifier: `get` by
      position always fails validation, even inside the struct type. */
  lemma GetByPositionFails(a: StructArray, pos: nat)
    requires a.Valid()
    ensures GetField(a, ByPosition(pos)) == Err(UnknownField({ByPosition(pos)}, LabelSet(a.labels)))
  {
  }
}
