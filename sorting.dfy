/** Sorting of path strings, as `Vec::<PathBuf>::sort` does for the entries of one
    directory: ascending in the order of `Text.StrLe`. Only the result of the
    library's sort is modelled: the unique sorted permutation of its input. */
module Sorting {
  import opened Text

  predicate Sorted(s: seq<string>) {
    forall i, j :: 0 <= i < j < |s| ==> StrLe(s[i], s[j])
  }

  /** Every element of a sorted sequence is at least its first one. */
  lemma HeadIsLeast(s: seq<string>, e: string)
    requires Sorted(s) && s != [] && e in multiset(s)
    ensures StrLe(s[0], e)
  {
    var k :| 0 <= k < |s| && s[k] == e;
    if k == 0 {
      StrLeTotal(e, e);
    }
  }

  /** An element at most every element of a sorted sequence can go in front of it. */
  lemma ConsSorted(x: string, s: seq<string>)
    requires Sorted(s) && forall j :: 0 <= j < |s| ==> StrLe(x, s[j])
    ensures Sorted([x] + s)
  {
    var t := [x] + s;
    forall i, j | 0 <= i < j < |t| ensures StrLe(t[i], t[j]) {
      if i > 0 {
        assert t[i] == s[i - 1] && t[j] == s[j - 1];
      } else {
        assert t[j] == s[j - 1];
      }
    }
  }

  /** What goes below the first element of a sorted sequence goes below all of it. */
  lemma BelowHead(x: string, s: seq<string>)
    requires Sorted(s) && s != [] && StrLe(x, s[0])
    ensures forall j :: 0 <= j < |s| ==> StrLe(x, s[j])
  {
    forall j | 0 <= j < |s| ensures StrLe(x, s[j]) {
      if j > 0 { StrLeTransitive(x, s[0], s[j]); }
    }
  }

  /** The head of a sorted sequence is at most the rest of it with `x` inserted,
      when `x` does not go below the head. */
  lemma HeadBelowInsert(x: string, s: seq<string>, rest: seq<string>)
    requires Sorted(s) && s != [] && !StrLe(x, s[0])
    requires multiset(rest) == multiset(s[1..]) + multiset{x}
    ensures forall j :: 0 <= j < |rest| ==> StrLe(s[0], rest[j])
  {
    assert s == [s[0]] + s[1..];
    forall j | 0 <= j < |rest| ensures StrLe(s[0], rest[j]) {
      assert rest[j] in multiset(rest);
      if rest[j] == x {
        StrLeTotal(x, s[0]);
      } else {
        assert rest[j] in multiset(s);
        HeadIsLeast(s, rest[j]);
      }
    }
  }

  /** Insert `x` into a sorted sequence at its place. */
  function Insert(x: string, s: seq<string>): (r: seq<string>)
    requires Sorted(s)
    ensures Sorted(r)
    ensures multiset(r) == multiset(s) + multiset{x}
  {
    if s == [] then [x]
    else if StrLe(x, s[0]) then
      BelowHead(x, s);
      ConsSorted(x, s);
      [x] + s
    else
      var rest := Insert(x, s[1..]);
      HeadBelowInsert(x, s, rest);
      ConsSorted(s[0], rest);
      assert s == [s[0]] + s[1..];
      [s[0]] + rest
  }

  /** Insertion sort: the ascending permutation of `s`. */
  function SortStrings(s: seq<string>): (r: seq<string>)
    ensures Sorted(r)
    ensures multiset(r) == multiset(s)
  {
    if s == [] then []
    else
      assert s == [s[0]] + s[1..];
      Insert(s[0], SortStrings(s[1..]))
  }

  lemma TailMultiset(x: seq<string>)
    requires x != []
    ensures multiset(x[1..]) == multiset(x) - multiset{x[0]}
  {
    assert x == [x[0]] + x[1..];
  }

  /** Two sorted arrangements of one multiset start with the same element, and
      what follows is again two sorted arrangements of one multiset. */
  lemma SameHead(x: seq<string>, y: seq<string>)
    requires Sorted(x) && Sorted(y) && multiset(x) == multiset(y) && x != []
    ensures y != [] && x[0] == y[0]
    ensures Sorted(x[1..]) && Sorted(y[1..]) && multiset(x[1..]) == multiset(y[1..])
  {
    assert |y| == |multiset(y)| == |x|;
    assert x[0] in multiset(y) && y[0] in multiset(x);
    HeadIsLeast(y, x[0]);
    HeadIsLeast(x, y[0]);
    StrLeAntisymmetric(x[0], y[0]);
    TailMultiset(x);
    TailMultiset(y);
  }

  /** A multiset has one sorted arrangement only: the order of the result does not
      depend on the order of the input. */
  lemma {:induction false} SortedUnique(x: seq<string>, y: seq<string>)
    requires Sorted(x) && Sorted(y) && multiset(x) == multiset(y)
    ensures x == y
    decreases |x|
  {
    if x == [] {
      assert |y| == |multiset(y)| == 0;
    } else {
      SameHead(x, y);
      SortedUnique(x[1..], y[1..]);
      assert x == [x[0]] + x[1..] && y == [y[0]] + y[1..];
    }
  }

  /** Sorting a permutation of the input gives the same sequence. */
  lemma SortIgnoresInputOrder(s: seq<string>, t: seq<string>)
    requires multiset(s) == multiset(t)
    ensures SortStrings(s) == SortStrings(t)
  {
    SortedUnique(SortStrings(s), SortStrings(t));
  }
}
