/** Sequence facts used by the routes and the page: `Array.prototype.filter`
    and duplicate-free lists. */
module Seqs {

  /** `s.filter(p)` */
  function Filter<T(!new)>(p: T -> bool, s: seq<T>): (r: seq<T>)
    ensures |r| <= |s|
    ensures forall i :: 0 <= i < |r| ==> p(r[i])
    ensures forall x :: x in r <==> x in s && p(x)
  {
    if s == [] then []
    else if p(s[0]) then [s[0]] + Filter(p, s[1..])
    else Filter(p, s[1..])
  }

  /** Filtering keeps relative order: it distributes over concatenation. */
  lemma {:induction false} FilterAppend<T(!new)>(p: T -> bool, a: seq<T>, b: seq<T>)
    ensures Filter(p, a + b) == Filter(p, a) + Filter(p, b)
  {
    if a == [] {
      assert a + b == b;
    } else {
      FilterAppend(p, a[1..], b);
      assert (a + b)[0] == a[0];
      assert (a + b)[1..] == a[1..] + b;
    }
  }

  /** Two exclusive filters together pick no more elements than there are. */
  lemma {:induction false} FilterExclusiveSizes<T(!new)>(p: T -> bool, q: T -> bool, s: seq<T>)
    requires forall x :: !(p(x) && q(x))
    ensures |Filter(p, s)| + |Filter(q, s)| <= |s|
  {
    if s != [] {
      FilterExclusiveSizes(p, q, s[1..]);
    }
  }

  /** Where the `k`-th element picked by `p` sits in `s`. */
  function IndexOfNth<T(!new)>(p: T -> bool, s: seq<T>, k: nat): (j: nat)
    requires k < |Filter(p, s)|
    ensures j < |s| && p(s[j])
    ensures s[j] == Filter(p, s)[k]
    ensures |Filter(p, s[..j])| == k
  {
    assert s != [];
    if p(s[0]) && k == 0 then
      assert Filter(p, s[..0]) == [];
      0
    else
      var k' := if p(s[0]) then k - 1 else k;
      var j' := IndexOfNth(p, s[1..], k');
      assert s[..j' + 1][1..] == s[1..][..j'];
      1 + j'
  }

  predicate NoDuplicates<T(==)>(s: seq<T>) {
    forall i, j :: 0 <= i < j < |s| ==> s[i] != s[j]
  }

  /** In a duplicate-free list every member occurs exactly once. */
  lemma {:induction false} NoDuplicatesOccursOnce<T>(s: seq<T>, x: T)
    requires NoDuplicates(s) && x in s
    ensures multiset(s)[x] == 1
  {
    assert s == [s[0]] + s[1..];
    if s[0] == x {
      forall j | 0 <= j < |s| - 1
        ensures s[1..][j] != x
      {
        assert s[1..][j] == s[j + 1];
      }
      assert x !in s[1..];
    } else {
      NoDuplicatesOccursOnce(s[1..], x);
    }
  }

  lemma AppendFreshKeepsNoDuplicates<T>(s: seq<T>, x: T)
    requires NoDuplicates(s) && x !in s
    ensures NoDuplicates(s + [x])
  {
  }
}
