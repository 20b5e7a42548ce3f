/** `[...new Set(labels)].sort()`: the distinct labels of a scene in the
    default sort order, built as a `Set` (first occurrences, in order) and
    then sorted. */
module LabelOrder {
  import opened JsText

  predicate Distinct(s: seq<string>) {
    forall i, j :: 0 <= i < j < |s| ==> s[i] != s[j]
  }

  /** Every element comes strictly before every later one. */
  predicate StrictlySorted(s: seq<string>) {
    forall i, j :: 0 <= i < j < |s| ==> CodeUnitLess(s[i], s[j])
  }

  /** The elements of `new Set(s)` in insertion order: each label at its
      first occurrence. */
  function Dedup(s: seq<string>): (r: seq<string>)
    ensures Distinct(r)
    ensures forall x :: x in r <==> x in s
    ensures |r| <= |s|
  {
    if s == [] then []
    else
      var front := Dedup(s[..|s| - 1]);
      if s[|s| - 1] in front then front else front + [s[|s| - 1]]
  }

  /** Puts `x` in front of the first element it sorts before. */
  function Insert(x: string, s: seq<string>): (r: seq<string>)
  {
    if s == [] then [x]
    else if CodeUnitLess(x, s[0]) then [x] + s
    else [s[0]] + Insert(x, s[1..])
  }

  /** Insertion sort under the default sort order. */
  function Sort(s: seq<string>): (r: seq<string>)
  {
    if s == [] then [] else Insert(s[0], Sort(s[1..]))
  }

  lemma {:induction false} InsertKeepsSorted(x: string, s: seq<string>)
    requires StrictlySorted(s) && x !in s
    ensures StrictlySorted(Insert(x, s))
    ensures multiset(Insert(x, s)) == multiset(s) + multiset{x}
  {
    if s == [] {
    } else if CodeUnitLess(x, s[0]) {
      forall j | 0 < j < |s|
        ensures CodeUnitLess(x, s[j])
      {
        CodeUnitLessTransitive(x, s[0], s[j]);
      }
    } else {
      CodeUnitLessTotal(x, s[0]);
      InsertKeepsSorted(x, s[1..]);
      var tail := Insert(x, s[1..]);
      assert s == [s[0]] + s[1..];
      forall j | 0 <= j < |tail|
        ensures CodeUnitLess(s[0], tail[j])
      {
        assert tail[j] in multiset(s[1..]) + multiset{x};
      }
    }
  }

  lemma {:induction false} SortSortsDistinct(s: seq<string>)
    requires Distinct(s)
    ensures StrictlySorted(Sort(s))
    ensures multiset(Sort(s)) == multiset(s)
  {
    if s != [] {
      assert s == [s[0]] + s[1..];
      SortSortsDistinct(s[1..]);
      assert s[0] !in multiset(s[1..]);
      assert s[0] !in Sort(s[1..]) by {
        assert multiset(Sort(s[1..])) == multiset(s[1..]);
      }
      InsertKeepsSorted(s[0], Sort(s[1..]));
    }
  }

  /** The head of a strictly sorted sequence comes before every other
      element of it. */
  lemma HeadIsLeast(s: seq<string>, x: string)
    requires StrictlySorted(s) && x in s && x != s[0]
    ensures CodeUnitLess(s[0], x)
  {
    var k :| 0 <= k < |s| && s[k] == x;
  }

  /** A strictly sorted sequence is determined by its elements: there is only
      one way to list a set of labels in sorted order. */
  lemma {:induction false} SortedIsUnique(a: seq<string>, b: seq<string>)
    requires StrictlySorted(a) && StrictlySorted(b)
    requires forall x :: x in a <==> x in b
    ensures a == b
    decreases |a|
  {
    assert a != [] ==> a[0] in b;
    assert b != [] ==> b[0] in a;
    if a != [] && b != [] {
      // the first element of each is the least element of the common set
      if a[0] != b[0] {
        HeadIsLeast(b, a[0]);
        HeadIsLeast(a, b[0]);
        CodeUnitLessAsymmetric(a[0], b[0]);
        assert false;
      }
      forall x
        ensures x in a[1..] <==> x in b[1..]
      {
        if x in a[1..] {
          var k :| 1 <= k < |a| && a[k] == x;
          assert x != a[0] by { CodeUnitLessIrreflexive(a[0]); }
          assert x in b;
        }
        if x in b[1..] {
          var k :| 1 <= k < |b| && b[k] == x;
          assert x != b[0] by { CodeUnitLessIrreflexive(b[0]); }
          assert x in a;
        }
      }
      SortedIsUnique(a[1..], b[1..]);
      assert a == [a[0]] + a[1..] && b == [b[0]] + b[1..];
    }
  }

  lemma SortedIsDistinct(s: seq<string>)
    requires StrictlySorted(s)
    ensures Distinct(s)
  {
    forall i, j | 0 <= i < j < |s|
      ensures s[i] != s[j]
    {
      CodeUnitLessIrreflexive(s[i]);
    }
  }

  /** The labels listed in the objects section: each label once, in the
      default sort order, and nothing that is not a label. */
  function UniqueSortedLabels(labels: seq<string>): (r: seq<string>)
    ensures StrictlySorted(r)
    ensures Distinct(r)
    ensures forall x :: x in r <==> x in labels
  {
    var d := Dedup(labels);
    SortSortsDistinct(d);
    var r := Sort(d);
    assert forall x :: x in r <==> x in multiset(d);
    SortedIsDistinct(r);
    r
  }

  /** The list does not depend on how often or in which order the labels
      occur: any two label sequences with the same labels give the same
      list. */
  lemma UniqueSortedLabelsCanonical(a: seq<string>, b: seq<string>)
    requires forall x :: x in a <==> x in b
    ensures UniqueSortedLabels(a) == UniqueSortedLabels(b)
  {
    SortedIsUnique(UniqueSortedLabels(a), UniqueSortedLabels(b));
  }
}
