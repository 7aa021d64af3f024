/** Generic facts about sequences: counting, first-occurrence de-duplication
    and invariance of counts under permutation. */
module Seqs {

  /** No element occurs twice. */
  predicate Distinct<T(==)>(s: seq<T>) {
    forall i, j :: 0 <= i < j < |s| ==> s[i] != s[j]
  }

  /** Number of elements of `s` that satisfy `p`. */
  function Count<T>(s: seq<T>, p: T -> bool): (n: nat)
    ensures n <= |s|
  {
    if |s| == 0 then 0 else (if p(s[0]) then 1 else 0) + Count(s[1..], p)
  }

  lemma {:induction false} CountConcat<T>(a: seq<T>, b: seq<T>, p: T -> bool)
    ensures Count(a + b, p) == Count(a, p) + Count(b, p)
  {
    if |a| == 0 {
      assert a + b == b;
    } else {
      assert (a + b)[1..] == a[1..] + b;
      CountConcat(a[1..], b, p);
    }
  }

  /** A count is zero exactly when no element satisfies the predicate. */
  lemma {:induction false} CountZeroIffNone<T>(s: seq<T>, p: T -> bool)
    ensures Count(s, p) == 0 <==> forall i :: 0 <= i < |s| ==> !p(s[i])
  {
    if |s| > 0 {
      CountZeroIffNone(s[1..], p);
      assert forall i :: 1 <= i < |s| ==> s[i] == s[1..][i - 1];
    }
  }

  /** A count is the full length exactly when every element satisfies the predicate. */
  lemma {:induction false} CountFullIffAll<T>(s: seq<T>, p: T -> bool)
    ensures Count(s, p) == |s| <==> forall i :: 0 <= i < |s| ==> p(s[i])
  {
    if |s| > 0 {
      CountFullIffAll(s[1..], p);
      assert forall i :: 1 <= i < |s| ==> s[i] == s[1..][i - 1];
    }
  }

  /** Predicates that agree on every element give the same count. */
  lemma {:induction false} CountExt<T>(s: seq<T>, p: T -> bool, q: T -> bool)
    requires forall i :: 0 <= i < |s| ==> (p(s[i]) <==> q(s[i]))
    ensures Count(s, p) == Count(s, q)
  {
    if |s| > 0 {
      assert forall i :: 1 <= i < |s| ==> s[i] == s[1..][i - 1];
      CountExt(s[1..], p, q);
    }
  }

  /** When `p` implies `q`, the two counts agree exactly when `q` also implies `p`. */
  lemma {:induction false} CountEqIffConverse<T>(s: seq<T>, p: T -> bool, q: T -> bool)
    requires forall i :: 0 <= i < |s| && p(s[i]) ==> q(s[i])
    ensures Count(s, p) == Count(s, q) <==> forall i :: 0 <= i < |s| && q(s[i]) ==> p(s[i])
  {
    if |s| > 0 {
      assert forall i :: 1 <= i < |s| ==> s[i] == s[1..][i - 1];
      CountEqIffConverse(s[1..], p, q);
      CountMono(s[1..], p, q);
    }
  }

  /** A count never exceeds the count of a weaker predicate. */
  lemma {:induction false} CountMono<T>(s: seq<T>, p: T -> bool, q: T -> bool)
    requires forall i :: 0 <= i < |s| && p(s[i]) ==> q(s[i])
    ensures Count(s, p) <= Count(s, q)
  {
    if |s| > 0 {
      assert forall i :: 1 <= i < |s| ==> s[i] == s[1..][i - 1];
      CountMono(s[1..], p, q);
    }
  }

  /** `s` with the element at index `k` taken out. */
  function RemoveAt<T>(s: seq<T>, k: nat): (r: seq<T>)
    requires k < |s|
    ensures |r| == |s| - 1
  {
    s[..k] + s[k + 1..]
  }

  lemma RemoveAtMultiset<T>(s: seq<T>, k: nat)
    requires k < |s|
    ensures multiset(RemoveAt(s, k)) + multiset{s[k]} == multiset(s)
  {
    assert s == s[..k] + [s[k]] + s[k + 1..];
  }

  /** Splits `s` around its element at `k`. */
  lemma SplitAt<T>(s: seq<T>, k: nat)
    requires k < |s|
    ensures s == s[..k] + ([s[k]] + s[k + 1..])
    ensures RemoveAt(s, k) == s[..k] + s[k + 1..]
  {
  }

  /** Any element of a permutation of `a` sits at some index of it. */
  lemma PermHead<T>(a: seq<T>, b: seq<T>) returns (k: nat)
    requires multiset(a) == multiset(b)
    requires |a| > 0
    ensures k < |b| && b[k] == a[0]
    ensures multiset(a[1..]) == multiset(RemoveAt(b, k))
  {
    assert a[0] in multiset(a);
    assert a[0] in b;
    k :| 0 <= k < |b| && b[k] == a[0];
    assert a == [a[0]] + a[1..];
    assert multiset(a) == multiset{a[0]} + multiset(a[1..]);
    assert multiset(a[1..]) == multiset(a) - multiset{a[0]};
    RemoveAtMultiset(b, k);
    assert multiset(RemoveAt(b, k)) == multiset(b) - multiset{b[k]};
  }

  lemma CountRemoveAt<T>(s: seq<T>, k: nat, p: T -> bool)
    requires k < |s|
    ensures Count(s, p) == Count(RemoveAt(s, k), p) + (if p(s[k]) then 1 else 0)
  {
    SplitAt(s, k);
    CountConcat(s[..k], [s[k]] + s[k + 1..], p);
    CountConcat([s[k]], s[k + 1..], p);
    CountConcat(s[..k], s[k + 1..], p);
  }

  /** A count depends only on the multiset of elements, not on their order. */
  lemma {:induction false} CountPerm<T>(a: seq<T>, b: seq<T>, p: T -> bool)
    requires multiset(a) == multiset(b)
    ensures Count(a, p) == Count(b, p)
    decreases |a|
  {
    if |a| == 0 {
      assert |b| == |multiset(b)| == 0;
    } else {
      var k := PermHead(a, b);
      CountPerm(a[1..], RemoveAt(b, k), p);
      CountRemoveAt(b, k, p);
    }
  }

  /** `f` applied to every element, in order. */
  function Map<A, B>(s: seq<A>, f: A -> B): (r: seq<B>)
    ensures |r| == |s|
    ensures forall i :: 0 <= i < |s| ==> r[i] == f(s[i])
  {
    if |s| == 0 then [] else [f(s[0])] + Map(s[1..], f)
  }

  lemma MapConcat<A, B>(a: seq<A>, b: seq<A>, f: A -> B)
    ensures Map(a + b, f) == Map(a, f) + Map(b, f)
  {
  }

  /** Mapping a function over two permutations of each other yields permutations. */
  lemma {:induction false} MapPerm<A, B>(a: seq<A>, b: seq<A>, f: A -> B)
    requires multiset(a) == multiset(b)
    ensures multiset(Map(a, f)) == multiset(Map(b, f))
    decreases |a|
  {
    if |a| == 0 {
      assert |b| == |multiset(b)| == 0;
    } else {
      var k := PermHead(a, b);
      MapPerm(a[1..], RemoveAt(b, k), f);
      SplitAt(b, k);
      assert Map(a, f) == [f(a[0])] + Map(a[1..], f);
      MapConcat(b[..k], [b[k]] + b[k + 1..], f);
      MapConcat([b[k]], b[k + 1..], f);
      MapConcat(b[..k], b[k + 1..], f);
    }
  }

  /** Position `i` holds the first occurrence of `x` in `s`. */
  predicate IsFirstIndex<T(==)>(s: seq<T>, x: T, i: int) {
    0 <= i < |s| && s[i] == x && forall j :: 0 <= j < i ==> s[j] != x
  }

  /** The distinct elements of `s`, in order of first occurrence. */
  function Dedup<T(==)>(s: seq<T>): (d: seq<T>)
    ensures Distinct(d)
    ensures forall i :: 0 <= i < |d| ==> d[i] in s
    ensures forall i :: 0 <= i < |s| ==> s[i] in d
    ensures |d| <= |s|
  {
    if |s| == 0 then []
    else
      var d := Dedup(s[..|s| - 1]);
      assert forall i :: 0 <= i < |s| - 1 ==> s[i] == s[..|s| - 1][i];
      if s[|s| - 1] in d then d else d + [s[|s| - 1]]
  }

  /** `Dedup` lists elements in the order of their first occurrence in `s`. */
  lemma {:induction false} DedupFirstSeenOrder<T>(s: seq<T>, i: int, j: int, a: int, b: int)
    requires 0 <= i < j < |Dedup(s)|
    requires IsFirstIndex(s, Dedup(s)[i], a) && IsFirstIndex(s, Dedup(s)[j], b)
    ensures a < b
  {
    var n := |s| - 1;
    var p := s[..n];
    var d := Dedup(p);
    assert Dedup(s) == d || Dedup(s) == d + [s[n]];
    var x := d[i];
    assert x in p;
    assert a < n by {
      var w :| 0 <= w < n && p[w] == x;
      assert s[w] == x;
    }
    if j < |d| {
      var y := d[j];
      assert y in p;
      assert b < n by {
        var w :| 0 <= w < n && p[w] == y;
        assert s[w] == y;
      }
      assert IsFirstIndex(p, x, a) && IsFirstIndex(p, y, b);
      DedupFirstSeenOrder(p, i, j, a, b);
    } else {
      assert Dedup(s)[j] == s[n] && s[n] !in d;
      assert s[n] !in p;
    }
  }

  /** In a sequence without repeats, every element occurs exactly once. */
  lemma {:induction false} DistinctMultiplicity<T>(s: seq<T>, x: T)
    requires Distinct(s)
    ensures multiset(s)[x] == if x in s then 1 else 0
  {
    if |s| > 0 {
      assert s == [s[0]] + s[1..];
      DistinctMultiplicity(s[1..], x);
    }
  }

  /** Two repeat-free sequences with the same elements are permutations of each other. */
  lemma DistinctSameElementsArePerm<T>(a: seq<T>, b: seq<T>)
    requires Distinct(a) && Distinct(b)
    requires forall x :: x in a <==> x in b
    ensures multiset(a) == multiset(b)
  {
    forall x
      ensures multiset(a)[x] == multiset(b)[x]
    {
      DistinctMultiplicity(a, x);
      DistinctMultiplicity(b, x);
    }
  }

  // ---------------------------------------------------------------------------
  // Repeated elements, first occurrence kept
  // ---------------------------------------------------------------------------

  /** Number of positions whose element already occurred at an earlier position:
      every occurrence but the first of each value is counted. */
  function Dups<T(==)>(s: seq<T>): (n: nat)
    ensures n <= |s|
  {
    if |s| == 0 then 0
    else Dups(s[..|s| - 1]) + (if s[|s| - 1] in s[..|s| - 1] then 1 else 0)
  }

  /** Every element is either the first of its value or a repeat. */
  lemma {:induction false} DupsPlusDedup<T>(s: seq<T>)
    ensures Dups(s) + |Dedup(s)| == |s|
  {
    if |s| > 0 {
      var p := s[..|s| - 1];
      DupsPlusDedup(p);
      var x := s[|s| - 1];
      if x in p {
        var w :| 0 <= w < |p| && p[w] == x;
        assert p[w] in Dedup(p);
      }
    }
  }

  /** No position repeats an earlier one exactly when all elements are distinct. */
  lemma {:induction false} DupsZeroIffDistinct<T>(s: seq<T>)
    ensures Dups(s) == 0 <==> Distinct(s)
  {
    if |s| > 0 {
      var p := s[..|s| - 1];
      DupsZeroIffDistinct(p);
      assert forall i :: 0 <= i < |p| ==> p[i] == s[i];
      if Distinct(s) {
        assert s[|s| - 1] !in p;
      }
    }
  }

  /** The repeat count depends only on which positions hold equal elements. */
  lemma {:induction false} DupsFollowEquality<A, B>(a: seq<A>, b: seq<B>)
    requires |a| == |b|
    requires forall i, j :: 0 <= i < |a| && 0 <= j < |a| ==> (a[i] == a[j] <==> b[i] == b[j])
    ensures Dups(a) == Dups(b)
  {
    if |a| > 0 {
      var n := |a| - 1;
      var pa, pb := a[..n], b[..n];
      assert forall i :: 0 <= i < n ==> pa[i] == a[i] && pb[i] == b[i];
      DupsFollowEquality(pa, pb);
      if a[n] in pa {
        var w :| 0 <= w < n && pa[w] == a[n];
        assert b[w] == b[n];
        assert b[n] in pb;
      }
    }
  }

  /** The repeat count of a sequence does not depend on the order of its elements. */
  lemma DupsPerm<T>(a: seq<T>, b: seq<T>)
    requires multiset(a) == multiset(b)
    ensures Dups(a) == Dups(b)
  {
    assert |a| == |multiset(a)| == |b|;
    DupsPlusDedup(a);
    DupsPlusDedup(b);
    forall x
      ensures x in Dedup(a) <==> x in Dedup(b)
    {
      if x in Dedup(a) {
        var w :| 0 <= w < |Dedup(a)| && Dedup(a)[w] == x;
        assert x in a;
        assert x in multiset(b);
        var v :| 0 <= v < |b| && b[v] == x;
        assert b[v] in Dedup(b);
      }
      if x in Dedup(b) {
        var w :| 0 <= w < |Dedup(b)| && Dedup(b)[w] == x;
        assert x in b;
        assert x in multiset(a);
        var v :| 0 <= v < |a| && a[v] == x;
        assert a[v] in Dedup(a);
      }
    }
    DistinctSameElementsArePerm(Dedup(a), Dedup(b));
    assert |Dedup(a)| == |multiset(Dedup(a))| == |Dedup(b)|;
  }

  // ---------------------------------------------------------------------------
  // Sums of natural numbers
  // ---------------------------------------------------------------------------

  function SumNat(s: seq<nat>): nat {
    if |s| == 0 then 0 else s[0] + SumNat(s[1..])
  }

  lemma {:induction false} SumNatConcat(a: seq<nat>, b: seq<nat>)
    ensures SumNat(a + b) == SumNat(a) + SumNat(b)
  {
    if |a| == 0 {
      assert a + b == b;
    } else {
      assert (a + b)[1..] == a[1..] + b;
      SumNatConcat(a[1..], b);
    }
  }

  lemma SumNatRemoveAt(s: seq<nat>, k: nat)
    requires k < |s|
    ensures SumNat(s) == SumNat(RemoveAt(s, k)) + s[k]
  {
    SplitAt(s, k);
    SumNatConcat(s[..k], [s[k]] + s[k + 1..]);
    SumNatConcat([s[k]], s[k + 1..]);
    SumNatConcat(s[..k], s[k + 1..]);
  }

  /** A sum does not depend on the order of its terms. */
  lemma {:induction false} SumNatPerm(a: seq<nat>, b: seq<nat>)
    requires multiset(a) == multiset(b)
    ensures SumNat(a) == SumNat(b)
    decreases |a|
  {
    if |a| == 0 {
      assert |b| == |multiset(b)| == 0;
    } else {
      var k := PermHead(a, b);
      SumNatPerm(a[1..], RemoveAt(b, k));
      SumNatRemoveAt(b, k);
    }
  }

  /** Termwise smaller terms give a smaller sum. */
  lemma {:induction false} SumNatMono(a: seq<nat>, b: seq<nat>)
    requires |a| == |b|
    requires forall i :: 0 <= i < |a| ==> a[i] <= b[i]
    ensures SumNat(a) <= SumNat(b)
  {
    if |a| > 0 {
      assert forall i :: 1 <= i < |a| ==> a[i] == a[1..][i - 1] && b[i] == b[1..][i - 1];
      SumNatMono(a[1..], b[1..]);
    }
  }

  /** A sum of zeros is zero, and only then. */
  lemma {:induction false} SumNatZeroIffAllZero(s: seq<nat>)
    ensures SumNat(s) == 0 <==> forall i :: 0 <= i < |s| ==> s[i] == 0
  {
    if |s| > 0 {
      assert forall i :: 1 <= i < |s| ==> s[i] == s[1..][i - 1];
      SumNatZeroIffAllZero(s[1..]);
    }
  }

  /** `m` terms each at most `c` sum to at most `m * c`. */
  lemma {:induction false} SumNatBound(s: seq<nat>, c: nat)
    requires forall i :: 0 <= i < |s| ==> s[i] <= c
    ensures SumNat(s) <= |s| * c
  {
    if |s| > 0 {
      assert forall i :: 1 <= i < |s| ==> s[i] == s[1..][i - 1];
      SumNatBound(s[1..], c);
      assert |s| * c == c + (|s| - 1) * c;
    }
  }

  /** Termwise sums add up. */
  lemma {:induction false} SumNatAdd(a: seq<nat>, b: seq<nat>, c: seq<nat>)
    requires |a| == |b| == |c|
    requires forall i :: 0 <= i < |c| ==> c[i] == a[i] + b[i]
    ensures SumNat(c) == SumNat(a) + SumNat(b)
  {
    if |c| > 0 {
      assert forall i :: 1 <= i < |c| ==> c[i] == c[1..][i - 1] && a[i] == a[1..][i - 1] && b[i] == b[1..][i - 1];
      SumNatAdd(a[1..], b[1..], c[1..]);
    }
  }

  /** Adding up a 0/1 indicator of `p` counts the elements satisfying `p`. */
  lemma {:induction false} SumNatIndicator<T>(s: seq<T>, p: T -> bool, a: seq<nat>)
    requires |a| == |s|
    requires forall i :: 0 <= i < |s| ==> a[i] == (if p(s[i]) then 1 else 0)
    ensures SumNat(a) == Count(s, p)
  {
    if |s| > 0 {
      assert forall i :: 1 <= i < |s| ==> s[i] == s[1..][i - 1] && a[i] == a[1..][i - 1];
      SumNatIndicator(s[1..], p, a[1..]);
    }
  }
}
