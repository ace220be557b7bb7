/** Permutations of an index range, and the pigeonhole facts the sorters and
    the inverse transform rest on. */
module Permutations {

  ghost predicate Injective<T(!new)>(s: seq<T>) {
    forall i, j :: 0 <= i < j < |s| ==> s[i] != s[j]
  }

  ghost predicate IsPerm(p: seq<int>) {
    && (forall i :: 0 <= i < |p| ==> 0 <= p[i] < |p|)
    && Injective(p)
  }

  ghost function Elems<T>(s: seq<T>): set<T> {
    set x | x in s
  }

  ghost function Below(n: nat): (r: set<int>)
    ensures forall x :: x in r <==> 0 <= x < n
    ensures |r| == n
  {
    if n == 0 then {} else Below(n - 1) + {n - 1}
  }

  lemma {:induction false} CardElems<T(!new)>(s: seq<T>)
    requires Injective(s)
    ensures |Elems(s)| == |s|
  {
    if s == [] {
      assert Elems(s) == {};
    } else {
      var t := s[..|s| - 1];
      CardElems(t);
      var x := s[|s| - 1];
      assert Elems(s) == Elems(t) + {x} by {
        assert s == t + [x];
      }
      assert x !in t;
    }
  }

  lemma CardSubset<T>(a: set<T>, b: set<T>)
    requires a <= b
    ensures |a| <= |b|
    ensures |a| == |b| ==> a == b
  {
    assert b == a + (b - a);
    assert |b| == |a| + |b - a|;
  }

  /** An injective sequence of members of a set no larger than the sequence
      reaches every member of the set. */
  lemma Covers<T(!new)>(s: seq<T>, a: set<T>)
    requires Injective(s)
    requires forall x :: x in s ==> x in a
    ensures |s| <= |a|
    ensures |s| == |a| ==> forall x :: x in a ==> x in s
  {
    CardElems(s);
    CardSubset(Elems(s), a);
  }

  lemma PermOnto(p: seq<int>, k: int)
    requires IsPerm(p) && 0 <= k < |p|
    ensures k in p
  {
    Covers(p, Below(|p|));
  }

  /** Position of the first occurrence of k, or |p|. */
  function IndexOf(p: seq<int>, k: int): (i: nat)
    ensures i <= |p|
    ensures i < |p| ==> p[i] == k
    ensures k in p ==> i < |p|
  {
    if p == [] then 0 else if p[0] == k then 0 else 1 + IndexOf(p[1..], k)
  }

  /** The inverse permutation. */
  function Inverse(p: seq<int>): (q: seq<int>)
    ensures |q| == |p|
  {
    seq(|p|, k requires 0 <= k < |p| => IndexOf(p, k))
  }

  lemma InverseIsPerm(p: seq<int>)
    requires IsPerm(p)
    ensures IsPerm(Inverse(p))
    ensures forall i :: 0 <= i < |p| ==> Inverse(p)[p[i]] == i
    ensures forall k :: 0 <= k < |p| ==> p[Inverse(p)[k]] == k
  {
    var q := Inverse(p);
    forall k | 0 <= k < |p|
      ensures 0 <= q[k] < |p| && p[q[k]] == k
    {
      PermOnto(p, k);
    }
  }

  /** s and t agree outside [lo, hi) and hold the same values. */
  ghost predicate PermutesRange(s: seq<int>, t: seq<int>, lo: int, hi: int) {
    && 0 <= lo <= hi <= |s| == |t|
    && (forall i :: 0 <= i < lo || hi <= i < |s| ==> s[i] == t[i])
    && multiset(s) == multiset(t)
  }

  lemma SwapPermutes(s: seq<int>, i: int, j: int, lo: int, hi: int)
    requires 0 <= lo <= i < hi <= |s| && lo <= j < hi
    ensures PermutesRange(s, s[i := s[j]][j := s[i]], lo, hi)
  {
  }

  lemma Exchange(s: seq<int>, i: int, j: int, lo: int, hi: int) returns (t: seq<int>)
    requires 0 <= lo <= i < hi <= |s| && lo <= j < hi
    ensures PermutesRange(s, t, lo, hi) && t[i] == s[j] && t[j] == s[i]
    ensures forall x :: 0 <= x < |s| && x != i && x != j ==> t[x] == s[x]
  {
    t := s[i := s[j]][j := s[i]];
  }

  lemma PermutesSlice(s: seq<int>, t: seq<int>, lo: int, hi: int)
    requires PermutesRange(s, t, lo, hi)
    ensures multiset(s[lo..hi]) == multiset(t[lo..hi])
  {
    assert s == s[..lo] + s[lo..hi] + s[hi..];
    assert t == t[..lo] + t[lo..hi] + t[hi..];
    var a, b, c, d := multiset(s[..lo]), multiset(s[lo..hi]), multiset(t[lo..hi]), multiset(s[hi..]);
    assert s[..lo] == t[..lo] && s[hi..] == t[hi..];
    assert multiset(s) == a + b + d && multiset(t) == a + c + d;
    assert b == multiset(s) - a - d && c == multiset(t) - a - d;
  }

  /** A permuted range holds only values it held before. */
  lemma PermutesFrom(s: seq<int>, t: seq<int>, lo: int, hi: int, i: int) returns (j: int)
    requires PermutesRange(s, t, lo, hi) && lo <= i < hi
    ensures lo <= j < hi && s[j] == t[i]
  {
    PermutesSlice(s, t, lo, hi);
    assert t[i] == t[lo..hi][i - lo];
    assert t[i] in multiset(t[lo..hi]);
    assert t[i] in s[lo..hi];
    var k :| 0 <= k < hi - lo && s[lo..hi][k] == t[i];
    j := lo + k;
  }

  lemma PermutesIsPerm(s: seq<int>, t: seq<int>, lo: int, hi: int)
    requires PermutesRange(s, t, lo, hi) && IsPerm(s)
    ensures IsPerm(t)
  {
    forall i | 0 <= i < |t|
      ensures 0 <= t[i] < |t|
    {
      assert t[i] in multiset(s);
    }
    forall i, j | 0 <= i < j < |t|
      ensures t[i] != t[j]
    {
      if t[i] == t[j] {
        MultiplicityTwo(t, i, j);
        MultiplicityOne(s, t[i]);
      }
    }
  }

  lemma MultiplicityTwo<T(!new)>(t: seq<T>, i: int, j: int)
    requires 0 <= i < j < |t| && t[i] == t[j]
    ensures multiset(t)[t[i]] >= 2
  {
    assert t == t[..i] + [t[i]] + t[i + 1..j] + [t[j]] + t[j + 1..];
  }

  lemma {:induction false} MultiplicityOne<T(!new)>(s: seq<T>, x: T)
    requires Injective(s)
    ensures multiset(s)[x] <= 1
  {
    if s != [] {
      var r, y := s[..|s| - 1], s[|s| - 1];
      assert s == r + [y];
      MultiplicityOne(r, x);
      assert y !in r;
      assert y !in multiset(r);
    }
  }
}
