/** Sequence helpers: duplicate-free sequences, `Set`-style deduplication and filtering. */
module Seqs {

  /** No element occurs twice in `s`. */
  predicate Distinct<T(==)>(s: seq<T>)
  {
    forall i, j :: 0 <= i < j < |s| ==> s[i] != s[j]
  }

  /** Index of the first occurrence of `x` in `s`. */
  function FirstIndex<T(==)>(s: seq<T>, x: T): (i: nat)
    requires x in s
    ensures i < |s| && s[i] == x && x !in s[..i]
  {
    if s[0] == x then 0
    else
      var j := FirstIndex(s[1..], x);
      assert s[..j + 1] == [s[0]] + s[1..][..j];
      j + 1
  }

  /**
   * The elements of `s` in the order a JavaScript `Set` filled by `add`
   * iterates them: every element once, at the place it was first seen.
   */
  function Dedup<T(==, !new)>(s: seq<T>): (r: seq<T>)
    ensures Distinct(r)
    ensures forall x :: x in r <==> x in s
    ensures |r| <= |s|
  {
    if s == [] then []
    else
      var d := Dedup(s[..|s| - 1]);
      assert s == s[..|s| - 1] + [s[|s| - 1]];
      if s[|s| - 1] in d then d else d + [s[|s| - 1]]
  }

  /** Adding one element to the input of `Dedup` adds it to the output exactly when it is new. */
  lemma DedupSnoc<T(!new)>(s: seq<T>, x: T)
    ensures Dedup(s + [x]) == if x in Dedup(s) then Dedup(s) else Dedup(s) + [x]
  {
    assert (s + [x])[..|s|] == s;
  }

  /** `Dedup` keeps first-seen order: earlier in the output means first seen earlier in the input. */
  lemma {:induction false} DedupFirstSeen<T(!new)>(s: seq<T>, i: nat, j: nat)
    requires i < j < |Dedup(s)|
    ensures FirstIndex(s, Dedup(s)[i]) < FirstIndex(s, Dedup(s)[j])
    decreases |s|
  {
    var p := s[..|s| - 1];
    var x := s[|s| - 1];
    assert s == p + [x];
    DedupSnoc(p, x);
    var d := Dedup(p);
    FirstIndexPrefix(p, x, Dedup(s)[i]);
    if j < |d| {
      FirstIndexPrefix(p, x, Dedup(s)[j]);
      DedupFirstSeen(p, i, j);
    } else {
      // the last element of the output is the new element x, first seen at |p|
      assert x !in p && Dedup(s)[j] == x;
      assert FirstIndex(s, x) == |p|;
    }
  }

  /** Appending an element does not move the first occurrence of an element already present. */
  lemma FirstIndexPrefix<T>(p: seq<T>, x: T, y: T)
    requires y in p
    ensures FirstIndex(p + [x], y) == FirstIndex(p, y)
    decreases |p|
  {
    if p[0] != y {
      assert (p + [x])[1..] == p[1..] + [x];
      FirstIndexPrefix(p[1..], x, y);
    }
  }

  /** The elements of `s` that satisfy `keep`, in their original order (`Array.prototype.filter`). */
  function Filter<T>(s: seq<T>, keep: T -> bool): (r: seq<T>)
    ensures |r| <= |s|
    ensures forall i :: 0 <= i < |r| ==> r[i] in s && keep(r[i])
    ensures forall i :: 0 <= i < |s| && keep(s[i]) ==> s[i] in r
  {
    if s == [] then [] else (if keep(s[0]) then [s[0]] else []) + Filter(s[1..], keep)
  }

  /** Filtering a concatenation filters each part in place: the order of the input is kept. */
  lemma {:induction false} FilterAppend<T>(a: seq<T>, b: seq<T>, keep: T -> bool)
    ensures Filter(a + b, keep) == Filter(a, keep) + Filter(b, keep)
    decreases |a|
  {
    if a == [] {
      assert a + b == b;
    } else {
      assert (a + b)[1..] == a[1..] + b;
      FilterAppend(a[1..], b, keep);
    }
  }

  /** Number of elements of `s` that satisfy `keep`. */
  function Count<T>(s: seq<T>, keep: T -> bool): nat
  {
    if s == [] then 0 else (if keep(s[0]) then 1 else 0) + Count(s[1..], keep)
  }

  /** Filtering keeps exactly the counted elements. */
  lemma {:induction false} FilterLength<T>(s: seq<T>, keep: T -> bool)
    ensures |Filter(s, keep)| == Count(s, keep)
  {
    if s != [] {
      FilterLength(s[1..], keep);
    }
  }
}
