/** Facts about the label sequence of a struct type: its label set, how
    often a label occurs, and where pyarrow finds a label. */
module Schema {

  /** The set of labels of a struct type, `{field.name for field in dtype}`. */
  function LabelSet(labels: seq<string>): set<string>
  {
    set l | l in labels
  }

  /** No label occurs at two different positions. */
  predicate Distinct(labels: seq<string>)
  {
    forall i, j | 0 <= i < j < |labels| :: labels[i] != labels[j]
  }

  /** The number of positions that carry the label `name`. */
  function Count(labels: seq<string>, name: string): (n: nat)
    ensures n <= |labels|
    ensures n == 0 <==> name !in labels
  {
    if labels == [] then 0
    else
      assert labels == [labels[0]] + labels[1..];
      (if labels[0] == name then 1 else 0) + Count(labels[1..], name)
  }

  /** The first position that carries `name`: where a lookup by name lands
      when the name is unique. */
  function IndexOf(labels: seq<string>, name: string): (k: nat)
    requires name in labels
    ensures k < |labels| && labels[k] == name
    ensures forall j | 0 <= j < k :: labels[j] != name
  {
    if labels[0] == name then 0
    else
      assert labels == [labels[0]] + labels[1..];
      1 + IndexOf(labels[1..], name)
  }

  /** A label that occurs at most once is found exactly where it occurs. */
  lemma {:induction false} UniqueIndex(labels: seq<string>, name: string, k: nat)
    requires Count(labels, name) <= 1
    requires k < |labels| && labels[k] == name
    ensures IndexOf(labels, name) == k
  {
    if k > 0 {
      assert labels[1..][k - 1] == name;
      assert Count(labels[1..], name) >= 1;
      UniqueIndex(labels[1..], name, k - 1);
    }
  }

  /** In a sequence of distinct labels every label occurs at most once. */
  lemma {:induction false} DistinctCount(labels: seq<string>, name: string)
    requires Distinct(labels)
    ensures Count(labels, name) <= 1
  {
    if labels != [] {
      assert Distinct(labels[1..]) by {
        forall i, j | 0 <= i < j < |labels[1..]|
          ensures labels[1..][i] != labels[1..][j]
        {
          assert labels[1..][i] == labels[i + 1] && labels[1..][j] == labels[j + 1];
        }
      }
      DistinctCount(labels[1..], name);
      assert labels[0] !in labels[1..] by {
        forall j | 0 <= j < |labels[1..]|
          ensures labels[1..][j] != labels[0]
        {
          assert labels[1..][j] == labels[j + 1];
        }
      }
    }
  }

  /** The label set has as many elements as there are fields exactly when
      no label repeats; it never has more. */
  lemma {:induction false} LabelSetSize(labels: seq<string>)
    ensures |LabelSet(labels)| <= |labels|
    ensures |LabelSet(labels)| == |labels| <==> Distinct(labels)
  {
    if labels == [] {
      assert LabelSet(labels) == {};
    } else {
      var rest := labels[1..];
      LabelSetCons(labels);
      DistinctCons(labels);
      LabelSetSize(rest);
      if labels[0] in rest {
        assert LabelSet(labels) == LabelSet(rest);
      } else {
        assert labels[0] !in LabelSet(rest);
      }
    }
  }

  lemma LabelSetCons(labels: seq<string>)
    requires labels != []
    ensures LabelSet(labels) == {labels[0]} + LabelSet(labels[1..])
  {
    assert labels == [labels[0]] + labels[1..];
  }

  /** A sequence is free of repeats exactly when its head does not recur and its tail is. */
  lemma DistinctCons(labels: seq<string>)
    requires labels != []
    ensures Distinct(labels) <==> labels[0] !in labels[1..] && Distinct(labels[1..])
  {
    var rest := labels[1..];
    if labels[0] in rest {
      var j :| 0 <= j < |rest| && rest[j] == labels[0];
      assert labels[j + 1] == labels[0];
    }
    if labels[0] !in rest && Distinct(rest) {
      forall i, j | 0 <= i < j < |labels|
        ensures labels[i] != labels[j]
      {
        if i == 0 {
          assert labels[j] == rest[j - 1];
        } else {
          assert labels[i] == rest[i - 1] && labels[j] == rest[j - 1];
        }
      }
    }
    if Distinct(labels) {
      forall i, j | 0 <= i < j < |rest|
        ensures rest[i] != rest[j]
      {
        assert rest[i] == labels[i + 1] && rest[j] == labels[j + 1];
      }
    }
  }

}
