/** How a single struct value (one row of a struct column) is shown:
    `format_struct_item_vaex_style` and its helpers. When the struct type
    repeats a field label, the row is rendered as `{'label(position)': json,
    ...}`; otherwise pyarrow's `as_py()` turns it into a Python dict. */
module StructFormat {
  import opened Values
  import opened Schema
  import opened Json
  import opened Text

  /** A struct scalar: the field labels of its type in position order, and
      the value at each position. */
  datatype StructItem = StructItem(labels: seq<string>, values: seq<Value>)
  {
    predicate Valid()
    {
      |labels| == |values|
    }
  }

  /** What the formatter hands back: the rendered text, or the dict `as_py()`
      builds, kept as its (key, value) pairs in insertion order. */
  datatype Formatted = Rendered(text: string) | PyDict(pairs: seq<(string, Value)>)

  /** `is_struct_dtype_with_duplicated_field_labels`: the label set is
      smaller than the number of fields — which is to say that some label
      sits at two different positions. */
  function HasDuplicatedFieldLabels(labels: seq<string>): (r: bool)
    ensures r <==> exists i, j | 0 <= i < j < |labels| :: labels[i] == labels[j]
  {
    LabelSetSize(labels);
    |LabelSet(labels)| < |labels|
  }

  /** The text for the field at position `idx`: `'label(idx)': json`. */
  function Entry(name: string, idx: nat, v: Value): (r: string)
    ensures ',' !in name && (v.Str? ==> ',' !in v.s) ==> ',' !in r
  {
    var digits := Decimal(idx);
    assert ',' !in digits by {
      forall k | 0 <= k < |digits| ensures digits[k] != ',' {
        assert IsDecimalDigit(digits[k]);
      }
    }
    "'" + name + "(" + digits + ")': " + Literal(v)
  }

  /** The entries of fields `labels`/`values`, numbered from `first` on. */
  function EntriesFrom(labels: seq<string>, values: seq<Value>, first: nat): (r: seq<string>)
    requires |labels| == |values|
    ensures |r| == |labels|
  {
    seq(|labels|, k requires 0 <= k < |labels| => Entry(labels[k], first + k, values[k]))
  }

  /** `format_duplicated_struct_item_vaex_style`: one entry per field, in
      position order, joined by `", "` and wrapped in braces. */
  function FormatDuplicatedStructItem(item: StructItem): (t: string)
    requires item.Valid()
    ensures |t| >= 2 && t[0] == '{' && t[|t| - 1] == '}'
  {
    "{" + Join(", ", EntriesFrom(item.labels, item.values, 0)) + "}"
  }

  /** pyarrow's `as_py()` on a struct scalar with distinct labels: the dict
      pairing each label with its field's value, in position order. */
  function AsPy(item: StructItem): (r: Formatted)
    requires item.Valid()
    ensures r.PyDict? && |r.pairs| == |item.labels|
    ensures forall k | 0 <= k < |item.labels| :: r.pairs[k] == (item.labels[k], item.values[k])
  {
    PyDict(seq(|item.labels|, k requires 0 <= k < |item.labels| => (item.labels[k], item.values[k])))
  }

  /** `format_struct_item_vaex_style`: the rendered text exactly when a
      label repeats, pyarrow's dict otherwise. */
  function FormatStructItem(item: StructItem): (r: Formatted)
    requires item.Valid()
    ensures r.Rendered? <==> exists i, j | 0 <= i < j < |item.labels| :: item.labels[i] == item.labels[j]
    ensures r.Rendered? ==> r.text == FormatDuplicatedStructItem(item)
    ensures r.PyDict? ==> r == AsPy(item)
  {
    if HasDuplicatedFieldLabels(item.labels) then Rendered(FormatDuplicatedStructItem(item))
    else AsPy(item)
  }

  // ---------------------------------------------------------------------------
  // The dict view: why repeated labels need their own renderer.

  /** The Python dict built from (key, value) pairs: a later pair overwrites
      an earlier one with the same key. */
  function DictOf(pairs: seq<(string, Value)>): map<string, Value>
  {
    if pairs == [] then map[]
    else DictOf(pairs[..|pairs| - 1])[pairs[|pairs| - 1].0 := pairs[|pairs| - 1].1]
  }

  lemma {:induction false} DictOfKeys(pairs: seq<(string, Value)>)
    ensures DictOf(pairs).Keys == set k | 0 <= k < |pairs| :: pairs[k].0
  {
    if pairs != [] {
      var front := pairs[..|pairs| - 1];
      DictOfKeys(front);
      assert forall k | 0 <= k < |front| :: front[k] == pairs[k];
    }
  }

  lemma {:induction false} DictOfValue(pairs: seq<(string, Value)>, k: nat)
    requires k < |pairs|
    requires forall j | 0 <= j < |pairs| && j != k :: pairs[j].0 != pairs[k].0
    ensures pairs[k].0 in DictOf(pairs) && DictOf(pairs)[pairs[k].0] == pairs[k].1
  {
    if k < |pairs| - 1 {
      var front := pairs[..|pairs| - 1];
      assert front[k] == pairs[k];
      DictOfValue(front, k);
    }
  }

  /** The dict of `as_py()` keeps every field exactly when no label repeats;
      then each label maps to its own field's value. With a repeated label
      the dict has fewer entries than the struct has fields. */
  lemma DictKeepsEveryField(item: StructItem)
    requires item.Valid()
    ensures var d := DictOf(AsPy(item).pairs);
      && d.Keys == LabelSet(item.labels)
      && (|d.Keys| == |item.labels| <==> !HasDuplicatedFieldLabels(item.labels))
      && (!HasDuplicatedFieldLabels(item.labels) ==>
            forall k | 0 <= k < |item.labels| :: d[item.labels[k]] == item.values[k])
  {
    DictKeysAreLabels(item);
    LabelSetSize(item.labels);
    if !HasDuplicatedFieldLabels(item.labels) {
      DictValuesOfDistinct(item);
    }
  }

  lemma DictKeysAreLabels(item: StructItem)
    requires item.Valid()
    ensures DictOf(AsPy(item).pairs).Keys == LabelSet(item.labels)
  {
    var pairs := AsPy(item).pairs;
    DictOfKeys(pairs);
    forall l | l in LabelSet(item.labels)
      ensures l in (set k | 0 <= k < |pairs| :: pairs[k].0)
    {
      var k :| 0 <= k < |item.labels| && item.labels[k] == l;
      assert pairs[k].0 == l;
    }
  }

  lemma DictValuesOfDistinct(item: StructItem)
    requires item.Valid() && !HasDuplicatedFieldLabels(item.labels)
    ensures forall k | 0 <= k < |item.labels| ::
              item.labels[k] in DictOf(AsPy(item).pairs) && DictOf(AsPy(item).pairs)[item.labels[k]] == item.values[k]
  {
    var pairs := AsPy(item).pairs;
    forall k | 0 <= k < |item.labels|
      ensures item.labels[k] in DictOf(pairs) && DictOf(pairs)[item.labels[k]] == item.values[k]
    {
      DictOfValue(pairs, k);
    }
  }

  // ---------------------------------------------------------------------------
  // Reading rendered text back: the renderer loses nothing.

  /** Reads one entry `'label(idx)': json` back. */
  function ParseEntry(e: string): Option<(string, nat, Value)>
  {
    var p := CharIndex(e, '(');
    if |e| == 0 || e[0] != '\'' || p == |e| then None
    else
      var after := e[p + 1..];
      var q := CharIndex(after, ')');
      if q == 0 || q + 4 > |after| || !AllDecimal(after[..q]) || after[q..q + 4] != ")': " then None
      else
        match DecodeLiteral(after[q + 4..])
        case None => None
        case Some(v) => Some((e[1..p], DecimalValue(after[..q]), v))
  }

  /** Reads entries numbered from `first` on back into a struct item. */
  function ParseEntries(parts: seq<string>, first: nat): Option<StructItem>
    decreases |parts|
  {
    if parts == [] then Some(StructItem([], []))
    else
      match ParseEntry(parts[0])
      case None => None
      case Some(entry) =>
        if entry.1 != first then None
        else
          match ParseEntries(parts[1..], first + 1)
          case None => None
          case Some(rest) => Some(StructItem([entry.0] + rest.labels, [entry.2] + rest.values))
  }

  /** Reads a rendered struct item back. */
  function ParseRendered(t: string): Option<StructItem>
  {
    if |t| < 2 || t[0] != '{' || t[|t| - 1] != '}' then None
    else ParseEntries(Split(t[1..|t| - 1]), 0)
  }

  /** Labels and string values that the entry syntax can carry unambiguously. */
  predicate Readable(item: StructItem)
  {
    && item.Valid()
    && (forall k | 0 <= k < |item.labels| :: ',' !in item.labels[k] && '(' !in item.labels[k])
    && (forall k | 0 <= k < |item.values| :: item.values[k].Str? ==> ',' !in item.values[k].s)
  }

  /** What `ParseEntry` does with text of the entry shape. */
  lemma ParseEntryShape(e: string, p: nat, tail: string, q: nat, v: Value)
    requires |e| >= 1 && e[0] == '\'' && p < |e| && CharIndex(e, '(') == p && e[p + 1..] == tail
    requires CharIndex(tail, ')') == q && 1 <= q && q + 4 <= |tail|
    requires AllDecimal(tail[..q]) && tail[q..q + 4] == ")': "
    requires DecodeLiteral(tail[q + 4..]) == Some(v)
    ensures ParseEntry(e) == Some((e[1..p], DecimalValue(tail[..q]), v))
  {
  }

  lemma ParseEntryOf(name: string, idx: nat, v: Value)
    requires '(' !in name
    ensures ParseEntry(Entry(name, idx, v)) == Some((name, idx, v))
  {
    var digits, lit := Decimal(idx), Literal(v);
    var tail := digits + [')'] + ("': " + lit);
    EntryLayout(name, digits, lit);
    TailLayout(digits, lit);
    CharIndexAfter("'" + name, '(', tail);
    DecimalHasNoParenthesis(digits);
    CharIndexAfter(digits, ')', "': " + lit);
    DecimalRoundTrip(idx);
    LiteralRoundTrip(v);
    ParseEntryShape(Entry(name, idx, v), |name| + 1, tail, |digits|, v);
  }

  /** Where the label and the text after its parenthesis sit in an entry. */
  lemma EntryLayout(name: string, digits: string, lit: string)
    ensures var e := "'" + name + "(" + digits + ")': " + lit;
      && e == ("'" + name) + ['('] + (digits + [')'] + ("': " + lit))
      && e[0] == '\'' && e[1..|name| + 1] == name
      && e[|name| + 2..] == digits + [')'] + ("': " + lit)
  {
    var e := "'" + name + "(" + digits + ")': " + lit;
    assert e == ("'" + name) + ['('] + (digits + [')'] + ("': " + lit));
  }

  /** Where the position and the literal sit after the parenthesis. */
  lemma TailLayout(digits: string, lit: string)
    ensures var tail := digits + [')'] + ("': " + lit);
      && tail[..|digits|] == digits && tail[|digits|..|digits| + 4] == ")': " && tail[|digits| + 4..] == lit
  {
  }

  lemma DecimalHasNoParenthesis(digits: string)
    requires AllDecimal(digits)
    ensures ')' !in digits
  {
    forall k | 0 <= k < |digits| ensures digits[k] != ')' {
      assert IsDecimalDigit(digits[k]);
    }
  }

  /** What `ParseEntries` does when the first entry reads back. */
  lemma ParseEntriesCons(parts: seq<string>, first: nat, item: StructItem)
    requires |parts| >= 1 && item.Valid() && item.labels != []
    requires ParseEntry(parts[0]) == Some((item.labels[0], first, item.values[0]))
    requires ParseEntries(parts[1..], first + 1) == Some(StructItem(item.labels[1..], item.values[1..]))
    ensures ParseEntries(parts, first) == Some(item)
  {
    assert [item.labels[0]] + item.labels[1..] == item.labels;
    assert [item.values[0]] + item.values[1..] == item.values;
  }

  lemma EntriesFromTail(labels: seq<string>, values: seq<Value>, first: nat)
    requires |labels| == |values| && labels != []
    ensures EntriesFrom(labels, values, first)[1..] == EntriesFrom(labels[1..], values[1..], first + 1)
  {
    var parts := EntriesFrom(labels, values, first);
    var tail := EntriesFrom(labels[1..], values[1..], first + 1);
    forall k | 0 <= k < |tail| ensures parts[1..][k] == tail[k] {
      assert parts[k + 1] == Entry(labels[k + 1], first + (k + 1), values[k + 1]);
      assert tail[k] == Entry(labels[1..][k], first + 1 + k, values[1..][k]);
    }
  }

  lemma ReadableTail(item: StructItem)
    requires Readable(item) && item.labels != []
    ensures Readable(StructItem(item.labels[1..], item.values[1..]))
  {
  }

  lemma {:induction false} ParseEntriesFrom(labels: seq<string>, values: seq<Value>, first: nat)
    requires Readable(StructItem(labels, values))
    ensures ParseEntries(EntriesFrom(labels, values, first), first) == Some(StructItem(labels, values))
  {
    if labels != [] {
      var item := StructItem(labels, values);
      var parts := EntriesFrom(labels, values, first);
      assert parts[0] == Entry(labels[0], first, values[0]) && '(' !in labels[0];
      ParseEntryOf(labels[0], first, values[0]);
      EntriesFromTail(labels, values, first);
      ReadableTail(item);
      ParseEntriesFrom(labels[1..], values[1..], first + 1);
      ParseEntriesCons(parts, first, item);
    }
  }

  /** Every struct item with at least one field whose labels hold no comma
      or opening parenthesis, and whose strings hold no comma, is read back
      from its rendering: one entry per field, in position order, each with
      its label, its position and its value. */
  lemma RenderedRoundTrip(item: StructItem)
    requires Readable(item) && |item.labels| >= 1
    ensures ParseRendered(FormatDuplicatedStructItem(item)) == Some(item)
  {
    var parts := EntriesFrom(item.labels, item.values, 0);
    forall k | 0 <= k < |parts| ensures ',' !in parts[k] {
      assert parts[k] == Entry(item.labels[k], k, item.values[k]);
    }
    SplitJoin(parts);
    var t := FormatDuplicatedStructItem(item);
    assert t[1..|t| - 1] == Join(", ", parts);
    ParseEntriesFrom(item.labels, item.values, 0);
  }
}
