/**
 * Sequence facts shared by the region filter (a boolean mask over table rows)
 * and the station filter (a list comprehension over archive links).
 */
module Seqs {

  /** `a` can be obtained from `b` by deleting elements, keeping the order. */
  ghost predicate IsSubsequence<T>(a: seq<T>, b: seq<T>)
    decreases |b|
  {
    a == [] ||
    (b != [] &&
      ((a[0] == b[0] && IsSubsequence(a[1..], b[1..])) || IsSubsequence(a, b[1..])))
  }

  /** The order-preserving selection of the elements of `s` that satisfy `keep`. */
  function Filter<T(==)>(s: seq<T>, keep: T -> bool): (r: seq<T>)
    ensures |r| <= |s|
    ensures forall x :: x in r ==> x in s && keep(x)
    ensures forall x :: x in s && keep(x) ==> x in r
    ensures IsSubsequence(r, s)
    ensures (forall x :: x in s ==> !keep(x)) ==> r == []
    ensures forall x :: x in s ==> multiset(r)[x] == (if keep(x) then multiset(s)[x] else 0)
  {
    if s == [] then []
    else
      assert s == [s[0]] + s[1..];
      if keep(s[0]) then
        var rest := Filter(s[1..], keep);
        assert IsSubsequence([s[0]] + rest, s) by {
          assert ([s[0]] + rest)[1..] == rest;
        }
        [s[0]] + rest
      else
        Filter(s[1..], keep)
  }

  lemma {:induction false} FilterConcat<T>(a: seq<T>, b: seq<T>, keep: T -> bool)
    ensures Filter(a + b, keep) == Filter(a, keep) + Filter(b, keep)
    decreases |a|
  {
    if a == [] {
      assert a + b == b;
    } else {
      assert (a + b)[0] == a[0];
      assert (a + b)[1..] == a[1..] + b;
      FilterConcat(a[1..], b, keep);
    }
  }

  /** `t` occurs in `s` as a contiguous block (Python's `t in s` on strings). */
  predicate Contains<T(==)>(s: seq<T>, t: seq<T>)
  {
    exists i :: 0 <= i <= |s| - |t| && OccursAt(s, t, i)
  }

  /** `t` occurs in `s` starting at index `i`. */
  predicate OccursAt<T(==)>(s: seq<T>, t: seq<T>, i: int)
  {
    0 <= i <= |s| - |t| && s[i..i + |t|] == t
  }

  /** Regrouping a three-part concatenation. */
  lemma AppendAssoc3<T>(a: seq<T>, b: seq<T>, c: seq<T>)
    ensures a + b + c == a + (b + c)
  {
  }

  /** Regrouping a four-part concatenation. */
  lemma AppendAssoc<T>(a: seq<T>, b: seq<T>, c: seq<T>, d: seq<T>)
    ensures a + b + c + d == a + (b + c + d)
  {
  }

  /** An occurrence stays an occurrence, shifted, behind a prefix. */
  lemma OccursAfterPrefix<T>(p: seq<T>, s: seq<T>, t: seq<T>, j: int)
    requires OccursAt(s, t, j)
    ensures OccursAt(p + s, t, |p| + j)
  {
    assert (p + s)[|p| + j..|p| + j + |t|] == s[j..j + |t|];
  }
}
