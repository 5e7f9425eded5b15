/** Vocabulary shared by every module: optional columns and set counting. */
module Basics {

  /** A nullable column or a lookup that may find nothing. */
  datatype Option<+T> = None | Some(value: T)

  function Max(a: int, b: int): int { if a < b then b else a }

  function Min(a: int, b: int): int { if a < b then a else b }

  ghost predicate Distinct<T>(s: seq<T>) {
    forall i, j :: 0 <= i < j < |s| ==> s[i] != s[j]
  }

  /** A sequence without its element at index k. */
  function Without<T>(s: seq<T>, k: nat): seq<T>
    requires k < |s|
  {
    s[..k] + s[k + 1..]
  }

  lemma WithoutFront<T>(s: seq<T>, k: nat)
    requires k < |s| - 1
    ensures Without(s, k) == Without(s[..|s| - 1], k) + [s[|s| - 1]]
    ensures Without(s, k)[..|s| - 2] == Without(s[..|s| - 1], k)
  {
  }

  ghost function Members<T>(s: seq<T>): set<T> { set x | x in s }

  /** A repetition-free sequence has as many elements as its set of members. */
  lemma DistinctSize<T>(s: seq<T>)
    requires Distinct(s)
    ensures |Members(s)| == |s|
  {
    if s != [] {
      var t, last := s[..|s| - 1], s[|s| - 1];
      DistinctSize(t);
      assert s == t + [last];
      assert last !in Members(t);
      assert Members(s) == Members(t) + {last};
    }
  }

  lemma MembersAppend<T>(s: seq<T>, x: T)
    ensures Members(s + [x]) == Members(s) + {x}
  {
  }

  /** Moving an element from one part of a whole to the other. */
  lemma MoveOver<T>(a: set<T>, b: set<T>, x: T)
    requires x in b
    ensures (a + {x}) + (b - {x}) == a + b
  {
  }

  lemma SubsetSize<T>(a: set<T>, b: set<T>)
    requires a <= b
    ensures |a| <= |b|
  {
    assert b == a + (b - a);
  }
}
