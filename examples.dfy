/** The fixture and expectations of the struct tests, and the rendering
    example of a struct with a repeated label, stated on the model. */
module StructExamples {
  import opened Values
  import opened Schema
  import opened Json
  import opened StructFormat
  import opened StructOps
  import opened StructLaws

  /** The `array` column of the test fixture: three rows of three fields. */
  function Fixture(): (a: StructArray)
    ensures a.Valid()
  {
    StructArray(["col1", "col2", "col3"],
                [[Int(1), Int(2), Int(3)], [Str("a"), Str("b"), Str("c")], [Int(4), Int(5), Int(6)]],
                3)
  }

  /** The `integer` column of the test fixture. */
  function IntegerColumn(): Column
  {
    Flat("int64", [Int(8), Int(9), Int(10)])
  }

  /** `get` on a label returns that field of every row. */
  lemma GetFieldExample()
    ensures StructGet(Struct(Fixture()), ByName("col1")) == Ok([Int(1), Int(2), Int(3)])
    ensures StructGet(Struct(Fixture()), ByName("col2")) == Ok([Str("a"), Str("b"), Str("c")])
  {
    var a := Fixture();
    assert Count(a.labels, "col1") == 1 && Count(a.labels, "col2") == 1;
    assert a.labels[0] == "col1" && a.labels[1] == "col2";
  }

  /** `get` on an unknown label raises, naming it and the three labels. */
  lemma GetUnknownFieldExample()
    ensures StructGet(Struct(Fixture()), ByName("doesNotExist"))
            == Err(UnknownField({ByName("doesNotExist")}, {"col1", "col2", "col3"}))
  {
    var a := Fixture();
    assert "doesNotExist" !in a.labels;
    assert LabelSet(a.labels) == {"col1", "col2", "col3"};
  }

  /** `get` and `project` on the integer column raise a type error. */
  lemma WrongDtypeExample()
    ensures StructGet(IntegerColumn(), ByName("col1")) == Err(TypeMismatch(Primitive("int64")))
    ensures StructProject(IntegerColumn(), [ByName("col1")]) == Err(TypeMismatch(Primitive("int64")))
  {
  }

  /** Projecting `["col3", "col1"]` keeps the three rows, with the two
      fields in the requested order; since the two labels differ, the
      formatter shows each row as a dict. */
  lemma ProjectExample()
    ensures StructProject(Struct(Fixture()), [ByName("col3"), ByName("col1")]).Ok?
    ensures var p := StructProject(Struct(Fixture()), [ByName("col3"), ByName("col1")]).value;
      && p.labels == ["col3", "col1"] && p.length == 3
      && FormatStructItem(p.Row(0)) == PyDict([("col3", Int(4)), ("col1", Int(1))])
      && FormatStructItem(p.Row(1)) == PyDict([("col3", Int(5)), ("col1", Int(2))])
      && FormatStructItem(p.Row(2)) == PyDict([("col3", Int(6)), ("col1", Int(3))])
  {
    var p := ProjectFixture();
    FixtureRow(p, 0, 4, 1);
    FixtureRow(p, 1, 5, 2);
    FixtureRow(p, 2, 6, 3);
  }

  /** Row `i` of the projection, as the formatter shows it. */
  lemma FixtureRow(p: StructArray, i: nat, x: int, y: int)
    requires p == StructArray(["col3", "col1"], [[Int(4), Int(5), Int(6)], [Int(1), Int(2), Int(3)]], 3)
    requires i < 3 && p.children[0][i] == Int(x) && p.children[1][i] == Int(y)
    ensures FormatStructItem(p.Row(i)) == PyDict([("col3", Int(x)), ("col1", Int(y))])
  {
    assert p.Row(i) == StructItem(["col3", "col1"], [Int(x), Int(y)]);
    PlainPair("col3", "col1", Int(x), Int(y));
  }

  /** The projection of `["col3", "col1"]` out of the fixture, child by child. */
  lemma ProjectFixture() returns (p: StructArray)
    ensures StructProject(Struct(Fixture()), [ByName("col3"), ByName("col1")]) == Ok(p)
    ensures p == StructArray(["col3", "col1"], [[Int(4), Int(5), Int(6)], [Int(1), Int(2), Int(3)]], 3)
  {
    var a := Fixture();
    var names := ["col3", "col1"];
    FixtureLookups();
    assert ByNames(names) == [ByName("col3"), ByName("col1")];
    ProjectByNames(a, names);
    p := ProjectFields(a, ByNames(names)).value;
  }

  /** Where `col3` and `col1` sit in the fixture. */
  lemma FixtureLookups()
    ensures KnownUnique(Fixture(), ["col3", "col1"])
    ensures IndexOf(Fixture().labels, "col3") == 2 && IndexOf(Fixture().labels, "col1") == 0
  {
    var a := Fixture();
    assert Count(a.labels, "col3") == 1 && Count(a.labels, "col1") == 1;
    UniqueIndex(a.labels, "col3", 2);
    UniqueIndex(a.labels, "col1", 0);
  }

  /** Two distinct labels make a plain dict of two pairs. */
  lemma PlainPair(l1: string, l2: string, v1: Value, v2: Value)
    requires l1 != l2
    ensures FormatStructItem(StructItem([l1, l2], [v1, v2])) == PyDict([(l1, v1), (l2, v2)])
  {
    var item := StructItem([l1, l2], [v1, v2]);
    assert !HasDuplicatedFieldLabels(item.labels);
    assert AsPy(item).pairs == [(l1, v1), (l2, v2)];
  }

  /** `project` on an unknown label raises before anything is built. */
  lemma ProjectUnknownFieldExample()
    ensures StructProject(Struct(Fixture()), [ByName("doesNotExist")])
            == Err(UnknownField({ByName("doesNotExist")}, {"col1", "col2", "col3"}))
  {
    var a := Fixture();
    assert "doesNotExist" !in a.labels;
    assert LabelSet(a.labels) == {"col1", "col2", "col3"};
  }

  /** Two fields labelled `a` holding 1 and 2 render as
      `{'a(0)': 1, 'a(1)': 2}`. */
  lemma DuplicatedRenderingExample()
    ensures FormatStructItem(StructItem(["a", "a"], [Int(1), Int(2)])) == Rendered("{'a(0)': 1, 'a(1)': 2}")
  {
    RenderTwinFields("a", Int(1), Int(2));
    FirstEntry();
    SecondEntry();
    assert "{" + "'a(0)': 1" + ", " + "'a(1)': 2" + "}" == "{'a(0)': 1, 'a(1)': 2}";
  }

  lemma FirstEntry()
    ensures Entry("a", 0, Int(1)) == "'a(0)': 1"
  {
    assert Decimal(0) == "0" && Decimal(1) == "1";
  }

  lemma SecondEntry()
    ensures Entry("a", 1, Int(2)) == "'a(1)': 2"
  {
    assert Decimal(1) == "1" && Decimal(2) == "2";
  }
}
