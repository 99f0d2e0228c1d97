/** Sequence helpers shared by the model: flattening nested sequences,
    duplicate-freedom, first-occurrence deduplication and first index. */
module Seqs {

  /** `[item for sublist in x for item in sublist]`: the elements of every inner
      sequence, in order. */
  function Flatten<T>(x: seq<seq<T>>): (r: seq<T>)
    ensures |x| == 1 ==> r == x[0]
  {
    if x == [] then [] else x[0] + Flatten(x[1..])
  }

  lemma {:induction false} FlattenAppend<T>(a: seq<seq<T>>, b: seq<seq<T>>)
    ensures Flatten(a + b) == Flatten(a) + Flatten(b)
  {
    if a == [] {
      assert a + b == b;
    } else {
      assert (a + b)[1..] == a[1..] + b;
      FlattenAppend(a[1..], b);
    }
  }

  /** Every element of the flattened sequence comes from one of the inner
      sequences, and every element of an inner sequence is in the result. */
  lemma {:induction false} FlattenMembers<T>(x: seq<seq<T>>, e: T)
    ensures e in Flatten(x) <==> exists i :: 0 <= i < |x| && e in x[i]
  {
    if x != [] {
      FlattenMembers(x[1..], e);
      if e in Flatten(x[1..]) {
        var i :| 0 <= i < |x[1..]| && e in x[1..][i];
        assert e in x[i + 1];
      }
      forall i | 0 <= i < |x| && e in x[i] && i > 0
        ensures exists j :: 0 <= j < |x[1..]| && e in x[1..][j]
      {
        assert e in x[1..][i - 1];
      }
    }
  }

  /** The flattened sequence is empty exactly when every inner sequence is. */
  lemma {:induction false} FlattenEmpty<T>(x: seq<seq<T>>)
    ensures Flatten(x) == [] <==> forall i :: 0 <= i < |x| ==> x[i] == []
  {
    if x != [] {
      FlattenEmpty(x[1..]);
      assert forall i :: 1 <= i < |x| ==> x[i] == x[1..][i - 1];
    }
  }

  /** The number of elements of the flattened sequence is the sum of the inner lengths. */
  lemma {:induction false} FlattenLength<T>(x: seq<seq<T>>)
    ensures |Flatten(x)| == TotalLength(x)
  {
    if x != [] {
      FlattenLength(x[1..]);
    }
  }

  function TotalLength<T>(x: seq<seq<T>>): nat
  {
    if x == [] then 0 else |x[0]| + TotalLength(x[1..])
  }

  predicate NoDuplicates<T(==)>(s: seq<T>)
  {
    forall i, j :: 0 <= i < j < |s| ==> s[i] != s[j]
  }

  /** Index of the first occurrence of `x` in `s`. */
  function IndexOf<T(==)>(s: seq<T>, x: T): (i: nat)
    requires x in s
    ensures i < |s| && s[i] == x
    ensures forall j :: 0 <= j < i ==> s[j] != x
  {
    if s[0] == x then 0 else 1 + IndexOf(s[1..], x)
  }

  /** The distinct elements of `s`, each at the position of its first occurrence:
      the key order of a Python dict (and so of a `Counter`) built from `s`. */
  function Distinct<T(==,!new)>(s: seq<T>): (d: seq<T>)
    ensures forall x :: x in d <==> x in s
    ensures NoDuplicates(d)
  {
    if s == [] then []
    else
      var d := Distinct(s[..|s| - 1]);
      if s[|s| - 1] in d then d else d + [s[|s| - 1]]
  }

  /** `Distinct` lists the distinct elements in order of first occurrence. */
  lemma {:induction false} DistinctFirstOccurrence<T(!new)>(s: seq<T>, i: nat, j: nat)
    requires i < j < |Distinct(s)|
    ensures IndexOf(s, Distinct(s)[i]) < IndexOf(s, Distinct(s)[j])
  {
    var init := s[..|s| - 1];
    var last := s[|s| - 1];
    var d := Distinct(init);
    assert s == init + [last];
    forall x | x in init
      ensures IndexOf(s, x) == IndexOf(init, x)
    {
      IndexOfPrefix(init, [last], x);
    }
    if j < |d| {
      DistinctFirstOccurrence(init, i, j);
    } else {
      // the newly appended element `last` first occurs at the very end
      assert last !in d && last !in init;
      assert Distinct(s)[j] == last;
      assert IndexOf(s, last) == |s| - 1;
      assert Distinct(s)[i] in init;
    }
  }

  lemma {:induction false} IndexOfPrefix<T>(a: seq<T>, b: seq<T>, x: T)
    requires x in a
    ensures IndexOf(a + b, x) == IndexOf(a, x)
  {
    if a[0] != x {
      assert (a + b)[1..] == a[1..] + b;
      IndexOfPrefix(a[1..], b, x);
    }
  }

  /** `[f(e) for e in s]` */
  function MapSeq<T, U>(f: T -> U, s: seq<T>): (r: seq<U>)
    ensures |r| == |s| && forall i :: 0 <= i < |s| ==> r[i] == f(s[i])
  {
    seq(|s|, i requires 0 <= i < |s| => f(s[i]))
  }

  function Min(a: int, b: int): int
  {
    if a <= b then a else b
  }
}
