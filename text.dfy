/** Python's `str.join` and `str.split` for one separator, and when the
    split undoes the join. */
module Text {

  /** `sep.join(parts)`. */
  function Join(sep: string, parts: seq<string>): string
  {
    if |parts| == 0 then ""
    else if |parts| == 1 then parts[0]
    else parts[0] + sep + Join(sep, parts[1..])
  }

  /** Where the first `", "` in `s` starts; `|s|` when there is none. */
  function SeparatorIndex(s: string): (k: nat)
    ensures k <= |s|
    ensures k < |s| ==> k + 1 < |s| && s[k] == ',' && s[k + 1] == ' '
    ensures forall j | 0 <= j < k && j + 1 < |s| :: !(s[j] == ',' && s[j + 1] == ' ')
  {
    if |s| < 2 then |s|
    else if s[0] == ',' && s[1] == ' ' then 0
    else 1 + SeparatorIndex(s[1..])
  }

  /** `s.split(", ")`. */
  function Split(s: string): seq<string>
    decreases |s|
  {
    var k := SeparatorIndex(s);
    if k == |s| then [s] else [s[..k]] + Split(s[k + 2..])
  }

  /** A separator placed after comma-free text is the first one. */
  lemma {:induction false} SeparatorAfter(p: string, rest: string)
    requires ',' !in p
    ensures SeparatorIndex(p + ", " + rest) == |p|
  {
    if p != [] {
      assert (p + ", " + rest)[1..] == p[1..] + ", " + rest;
      SeparatorAfter(p[1..], rest);
    }
  }

  /** Comma-free text contains no separator. */
  lemma {:induction false} NoSeparator(p: string)
    requires ',' !in p
    ensures SeparatorIndex(p) == |p|
  {
    if |p| >= 2 {
      NoSeparator(p[1..]);
    }
  }

  /** Splitting at `", "` recovers the parts of a join when no part holds a comma. */
  lemma {:induction false} SplitJoin(parts: seq<string>)
    requires |parts| >= 1
    requires forall k | 0 <= k < |parts| :: ',' !in parts[k]
    ensures Split(Join(", ", parts)) == parts
  {
    if |parts| == 1 {
      NoSeparator(parts[0]);
    } else {
      SplitCons(parts[0], Join(", ", parts[1..]));
      SplitJoin(parts[1..]);
      assert parts == [parts[0]] + parts[1..];
    }
  }

  /** Comma-free text followed by a separator is split off as the first part. */
  lemma SplitCons(p: string, rest: string)
    requires ',' !in p
    ensures Split(p + ", " + rest) == [p] + Split(rest)
  {
    var s := p + ", " + rest;
    SeparatorAfter(p, rest);
    assert s[..|p|] == p && s[|p| + 2..] == rest;
  }

  /** Where the first `c` in `s` is; `|s|` when there is none. */
  function CharIndex(s: string, c: char): (k: nat)
    ensures k <= |s|
    ensures k < |s| ==> s[k] == c
    ensures forall j | 0 <= j < k :: s[j] != c
  {
    if s == [] || s[0] == c then 0 else 1 + CharIndex(s[1..], c)
  }

  /** A character placed after text free of it is its first occurrence. */
  lemma {:induction false} CharIndexAfter(p: string, c: char, rest: string)
    requires c !in p
    ensures CharIndex(p + [c] + rest, c) == |p|
  {
    if p != [] {
      assert (p + [c] + rest)[1..] == p[1..] + [c] + rest;
      CharIndexAfter(p[1..], c, rest);
    }
  }
}
