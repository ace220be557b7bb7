/** The three-way partition and the explicit stack of pending ranges that the
    two quicksorts of the block sorter share. */
module QuickSort {
  import opened Permutations

  /** The largest block: nine hundred thousand bytes. */
  const MAX_BLOCK := 900000

  /** The key an entry v is compared by, d places into the key string. */
  function KeyOf(key: seq<int>, d: nat, v: int): int {
    if 0 <= v + d < |key| then key[v + d] else 0
  }

  predicate KeyLe(key: seq<int>, u: int, v: int) {
    KeyOf(key, 0, u) <= KeyOf(key, 0, v)
  }

  ghost predicate KeySorted(s: seq<int>, key: seq<int>, lo: int, hi: int) {
    && 0 <= lo && hi < |s|
    && forall x, y :: lo <= x < y <= hi ==> KeyLe(key, s[x], s[y])
  }

  ghost predicate Keyed(s: seq<int>, key: seq<int>, d: nat, lo: int, hi: int) {
    && 0 <= lo && hi < |s|
    && forall x :: lo <= x <= hi ==> 0 <= s[x] && s[x] + d < |key|
  }

  lemma KeyedPermutes(s: seq<int>, t: seq<int>, key: seq<int>, d: nat, lo: int, hi: int)
    requires Keyed(s, key, d, lo, hi) && lo <= hi + 1 && PermutesRange(s, t, lo, hi + 1)
    ensures Keyed(t, key, d, lo, hi)
  {
    forall x | lo <= x <= hi
      ensures 0 <= t[x] && t[x] + d < |key|
    {
      var y := PermutesFrom(s, t, lo, hi + 1, x);
    }
  }

  /** Progress of the partition: equal keys gather at both ends. */
  ghost predicate Parting(a: array<int>, key: seq<int>, d: nat, med: int,
                          lo: int, ltLo: int, unLo: int, unHi: int, gtHi: int, hi: int)
    reads a
  {
    && 0 <= lo <= ltLo <= unLo <= unHi + 1 && unHi <= gtHi <= hi < a.Length
    && (forall x :: lo <= x <= hi ==> 0 <= a[x] && a[x] + d < |key|)
    && (forall x :: lo <= x < ltLo ==> key[a[x] + d] == med)
    && (forall x :: ltLo <= x < unLo ==> key[a[x] + d] < med)
    && (forall x :: unHi < x <= gtHi ==> key[a[x] + d] > med)
    && (forall x :: gtHi < x <= hi ==> key[a[x] + d] == med)
  }

  method Swap(a: array<int>, i: int, j: int, ghost lo: int, ghost hi: int)
    requires 0 <= lo <= i <= hi < a.Length && lo <= j <= hi
    modifies a
    ensures a[i] == old(a[j]) && a[j] == old(a[i])
    ensures forall x :: 0 <= x < a.Length && x != i && x != j ==> a[x] == old(a[x])
    ensures PermutesRange(old(a[..]), a[..], lo, hi + 1)
  {
    SwapPermutes(a[..], i, j, lo, hi + 1);
    a[i], a[j] := a[j], a[i];
    assert a[..] == old(a[..])[i := old(a[j])][j := old(a[i])];
  }

  /** One step up over a key that is not large; an equal one goes to the left end. */
  method StepUp(a: array<int>, key: seq<int>, d: nat, med: int,
                lo: int, ltLo0: int, unLo: int, unHi: int, gtHi: int, hi: int)
    returns (ltLo: int)
    requires Parting(a, key, d, med, lo, ltLo0, unLo, unHi, gtHi, hi)
    requires unLo <= unHi && key[a[unLo] + d] <= med
    modifies a
    ensures Parting(a, key, d, med, lo, ltLo, unLo + 1, unHi, gtHi, hi)
    ensures PermutesRange(old(a[..]), a[..], lo, hi + 1)
  {
    ltLo := ltLo0;
    if key[a[unLo] + d] == med {
      Swap(a, unLo, ltLo, lo, hi);
      ltLo := ltLo + 1;
    }
  }

  method ScanUp(a: array<int>, key: seq<int>, d: nat, med: int,
                lo: int, ltLo0: int, unLo0: int, unHi: int, gtHi: int, hi: int)
    returns (ltLo: int, unLo: int)
    requires Parting(a, key, d, med, lo, ltLo0, unLo0, unHi, gtHi, hi)
    modifies a
    ensures Parting(a, key, d, med, lo, ltLo, unLo, unHi, gtHi, hi)
    ensures unLo <= unHi ==> key[a[unLo] + d] > med
    ensures unLo0 <= unLo
    ensures PermutesRange(old(a[..]), a[..], lo, hi + 1)
  {
    ltLo, unLo := ltLo0, unLo0;
    while unLo <= unHi && key[a[unLo] + d] <= med
      invariant unLo0 <= unLo
      invariant Parting(a, key, d, med, lo, ltLo, unLo, unHi, gtHi, hi)
      invariant PermutesRange(old(a[..]), a[..], lo, hi + 1)
    {
      ltLo := StepUp(a, key, d, med, lo, ltLo, unLo, unHi, gtHi, hi);
      unLo := unLo + 1;
    }
  }

  /** One step down over a key that is not small; an equal one goes to the right end. */
  method StepDown(a: array<int>, key: seq<int>, d: nat, med: int,
                  lo: int, ltLo: int, unLo: int, unHi: int, gtHi0: int, hi: int)
    returns (gtHi: int)
    requires Parting(a, key, d, med, lo, ltLo, unLo, unHi, gtHi0, hi)
    requires unLo <= unHi && key[a[unLo] + d] > med && key[a[unHi] + d] >= med
    modifies a
    ensures Parting(a, key, d, med, lo, ltLo, unLo, unHi - 1, gtHi, hi)
    ensures unLo <= unHi - 1 ==> key[a[unLo] + d] > med
    ensures PermutesRange(old(a[..]), a[..], lo, hi + 1)
  {
    gtHi := gtHi0;
    if key[a[unHi] + d] == med {
      Swap(a, unHi, gtHi, lo, hi);
      gtHi := gtHi - 1;
    }
  }

  method ScanDown(a: array<int>, key: seq<int>, d: nat, med: int,
                  lo: int, ltLo: int, unLo: int, unHi0: int, gtHi0: int, hi: int)
    returns (unHi: int, gtHi: int)
    requires Parting(a, key, d, med, lo, ltLo, unLo, unHi0, gtHi0, hi)
    requires unLo <= unHi0 ==> key[a[unLo] + d] > med
    modifies a
    ensures Parting(a, key, d, med, lo, ltLo, unLo, unHi, gtHi, hi)
    ensures unLo <= unHi ==> key[a[unLo] + d] > med && key[a[unHi] + d] < med
    ensures unHi <= unHi0
    ensures PermutesRange(old(a[..]), a[..], lo, hi + 1)
  {
    unHi, gtHi := unHi0, gtHi0;
    while unLo <= unHi && key[a[unHi] + d] >= med
      invariant unHi <= unHi0
      invariant Parting(a, key, d, med, lo, ltLo, unLo, unHi, gtHi, hi)
      invariant unLo <= unHi ==> key[a[unLo] + d] > med
      invariant PermutesRange(old(a[..]), a[..], lo, hi + 1)
    {
      gtHi := StepDown(a, key, d, med, lo, ltLo, unLo, unHi, gtHi, hi);
      unHi := unHi - 1;
    }
  }

  /** A large key on the left changes places with a small one on the right. */
  method Cross(a: array<int>, key: seq<int>, d: nat, med: int,
               lo: int, ltLo: int, unLo: int, unHi: int, gtHi: int, hi: int)
    requires Parting(a, key, d, med, lo, ltLo, unLo, unHi, gtHi, hi)
    requires unLo <= unHi && key[a[unLo] + d] > med && key[a[unHi] + d] < med
    modifies a
    ensures Parting(a, key, d, med, lo, ltLo, unLo + 1, unHi - 1, gtHi, hi)
    ensures PermutesRange(old(a[..]), a[..], lo, hi + 1)
  {
    Swap(a, unLo, unHi, lo, hi);
  }

  /** Exchange two stretches of n entries. */
  method SwapStretches(a: array<int>, p: int, q: int, n: int, ghost lo: int, ghost hi: int)
    requires 0 <= lo <= p && 0 <= n && p + n <= q && q + n <= hi + 1 <= a.Length
    modifies a
    ensures forall x :: p <= x < p + n ==> a[x] == old(a[x + q - p])
    ensures forall x :: q <= x < q + n ==> a[x] == old(a[x - q + p])
    ensures forall x :: 0 <= x < a.Length && !(p <= x < p + n) && !(q <= x < q + n) ==> a[x] == old(a[x])
    ensures PermutesRange(old(a[..]), a[..], lo, hi + 1)
  {
    var i := 0;
    while i < n
      invariant 0 <= i <= n
      invariant forall x :: p <= x < p + i ==> a[x] == old(a[x + q - p])
      invariant forall x :: q <= x < q + i ==> a[x] == old(a[x - q + p])
      invariant forall x :: 0 <= x < a.Length && !(p <= x < p + i) && !(q <= x < q + i) ==> a[x] == old(a[x])
      invariant PermutesRange(old(a[..]), a[..], lo, hi + 1)
    {
      Swap(a, p + i, q + i, lo, hi);
      i := i + 1;
    }
  }

  /** Bring the equal keys from the left end to the middle. */
  method GatherLeft(a: array<int>, key: seq<int>, d: nat, med: int, lo: int, ltLo: int, unLo: int, ghost hi: int)
    returns (n: int)
    requires 0 <= lo <= ltLo <= unLo <= hi + 1 <= a.Length
    requires forall x :: lo <= x < ltLo ==> KeyOf(key, d, a[x]) == med
    requires forall x :: ltLo <= x < unLo ==> KeyOf(key, d, a[x]) < med
    modifies a
    ensures n == lo + unLo - ltLo - 1
    ensures forall x :: lo <= x <= n ==> KeyOf(key, d, a[x]) < med
    ensures forall x :: n < x < unLo ==> KeyOf(key, d, a[x]) == med
    ensures forall x :: unLo <= x < a.Length ==> a[x] == old(a[x])
    ensures PermutesRange(old(a[..]), a[..], lo, hi + 1)
  {
    var k := if ltLo - lo < unLo - ltLo then ltLo - lo else unLo - ltLo;
    SwapStretches(a, lo, unLo - k, k, lo, hi);
    n := lo + unLo - ltLo - 1;
  }

  /** Bring the equal keys from the right end to the middle. */
  method GatherRight(a: array<int>, key: seq<int>, d: nat, med: int, ghost lo: int, unLo: int, gtHi: int, hi: int)
    returns (m: int)
    requires 0 <= lo <= unLo <= gtHi + 1 <= hi + 1 <= a.Length
    requires forall x :: unLo <= x <= gtHi ==> KeyOf(key, d, a[x]) > med
    requires forall x :: gtHi < x <= hi ==> KeyOf(key, d, a[x]) == med
    modifies a
    ensures m == hi - (gtHi - unLo + 1) + 1
    ensures forall x :: unLo <= x < m ==> KeyOf(key, d, a[x]) == med
    ensures forall x :: m <= x <= hi ==> KeyOf(key, d, a[x]) > med
    ensures forall x :: 0 <= x < unLo ==> a[x] == old(a[x])
    ensures PermutesRange(old(a[..]), a[..], lo, hi + 1)
  {
    var k := if hi - gtHi < gtHi - unLo + 1 then hi - gtHi else gtHi - unLo + 1;
    SwapStretches(a, unLo, hi - k + 1, k, lo, hi);
    m := hi - (gtHi - unLo + 1) + 1;
  }

  /** Split [lo, hi] by key into less, equal and greater parts; `uniform` says
      that every key equals the pivot, in which case nothing else is done. */
  method Partition(a: array<int>, key: seq<int>, d: nat, med: int, lo: int, hi: int)
    returns (n: int, m: int, uniform: bool)
    requires 0 <= lo <= hi < a.Length && Keyed(a[..], key, d, lo, hi)
    requires exists x :: lo <= x <= hi && KeyOf(key, d, a[x]) == med
    modifies a
    ensures PermutesRange(old(a[..]), a[..], lo, hi + 1)
    ensures lo - 1 <= n && n + 2 <= m <= hi + 1
    ensures Split(a[..], key, d, med, lo, n, m, hi)
    ensures uniform <==> n == lo - 1 && m == hi + 1
  {
    assert forall x :: lo <= x <= hi ==> a[x] == a[..][x];
    var ltLo, unLo, unHi, gtHi := Part(a, key, d, med, lo, hi);
    if gtHi < ltLo {
      return lo - 1, hi + 1, true;
    }
    n := GatherLeft(a, key, d, med, lo, ltLo, unLo, hi);
    m := GatherRight(a, key, d, med, lo, unLo, gtHi, hi);
    uniform := false;
    PivotSurvives(old(a[..]), a[..], key, d, med, lo, n, m, hi);
  }

  ghost predicate Split(s: seq<int>, key: seq<int>, d: nat, med: int, lo: int, n: int, m: int, hi: int)
  {
    && 0 <= lo <= n + 1 <= m <= hi + 1 <= |s|
    && (forall x :: lo <= x <= n ==> KeyOf(key, d, s[x]) < med)
    && (forall x :: n < x < m ==> KeyOf(key, d, s[x]) == med)
    && (forall x :: m <= x <= hi ==> KeyOf(key, d, s[x]) > med)
  }

  /** The inward scans, until they meet. */
  method Part(a: array<int>, key: seq<int>, d: nat, med: int, lo: int, hi: int)
    returns (ltLo: int, unLo: int, unHi: int, gtHi: int)
    requires 0 <= lo <= hi < a.Length
    requires forall x :: lo <= x <= hi ==> 0 <= a[x] && a[x] + d < |key|
    modifies a
    ensures Parting(a, key, d, med, lo, ltLo, unLo, unHi, gtHi, hi) && unHi == unLo - 1
    ensures PermutesRange(old(a[..]), a[..], lo, hi + 1)
  {
    unLo, ltLo, unHi, gtHi := lo, lo, hi, hi;
    while true
      invariant Parting(a, key, d, med, lo, ltLo, unLo, unHi, gtHi, hi)
      invariant PermutesRange(old(a[..]), a[..], lo, hi + 1)
      decreases unHi - unLo + 1
    {
      ltLo, unLo := ScanUp(a, key, d, med, lo, ltLo, unLo, unHi, gtHi, hi);
      unHi, gtHi := ScanDown(a, key, d, med, lo, ltLo, unLo, unHi, gtHi, hi);
      if unLo > unHi { break; }
      Cross(a, key, d, med, lo, ltLo, unLo, unHi, gtHi, hi);
      unLo, unHi := unLo + 1, unHi - 1;
    }
  }

  lemma PivotSurvives(s: seq<int>, t: seq<int>, key: seq<int>, d: nat, med: int, lo: int, n: int, m: int, hi: int)
    requires 0 <= lo <= hi < |s| && PermutesRange(s, t, lo, hi + 1)
    requires Split(t, key, d, med, lo, n, m, hi)
    requires exists x :: lo <= x <= hi && KeyOf(key, d, s[x]) == med
    ensures n + 2 <= m
  {
    var x :| lo <= x <= hi && KeyOf(key, d, s[x]) == med;
    var y := PermutesFrom(t, s, lo, hi + 1, x);
  }

  /** A range still to be sorted, both ends included; d leading keys are known equal. */
  datatype Range = Range(lo: int, hi: int, d: nat) {
    function Size(): int { hi - lo + 1 }
  }

  ghost predicate In(r: Range, x: int) {
    r.lo <= x <= r.hi
  }

  ghost predicate Share(st: seq<Range>, x: int, y: int) {
    exists t :: 0 <= t < |st| && In(st[t], x) && In(st[t], y)
  }

  ghost predicate Disjoint(st: seq<Range>) {
    forall t, u, x :: 0 <= t < u < |st| ==> !(In(st[t], x) && In(st[u], x))
  }

  ghost predicate Within(st: seq<Range>, lo: int, hi: int) {
    forall t :: 0 <= t < |st| ==> lo <= st[t].lo <= st[t].hi + 1 && st[t].hi <= hi
  }

  /** In order except for pairs that lie in one pending range. */
  ghost predicate SortedExcept(key: seq<int>, s: seq<int>, lo: int, hi: int, st: seq<Range>) {
    && 0 <= lo && hi < |s|
    && forall x, y :: lo <= x < y <= hi ==> KeyLe(key, s[x], s[y]) || Share(st, x, y)
  }

  /** Permuting the topmost range so that its pairs are in order, or lie in one
      of the ranges that replace it, keeps the whole in order except for pending pairs. */
  lemma Refine(key: seq<int>, s: seq<int>, s': seq<int>, lo: int, hi: int,
               st: seq<Range>, r: Range, news: seq<Range>)
    requires SortedExcept(key, s, lo, hi, st + [r])
    requires Disjoint(st + [r]) && Within(st + [r], lo, hi)
    requires PermutesRange(s, s', r.lo, r.hi + 1)
    requires forall x, y :: r.lo <= x < y <= r.hi ==> KeyLe(key, s'[x], s'[y]) || Share(news, x, y)
    ensures SortedExcept(key, s', lo, hi, st + news)
  {
    assert (st + [r])[|st|] == r;
    forall x, y | lo <= x < y <= hi
      ensures KeyLe(key, s'[x], s'[y]) || Share(st + news, x, y)
    {
      if In(r, x) && In(r, y) {
        ShareLater(st, news, x, y);
      } else {
        RefineOutside(key, s, s', lo, hi, st, r, x, y);
        ShareEarlier(st, news, x, y);
      }
    }
  }

  lemma ShareLater(st: seq<Range>, news: seq<Range>, x: int, y: int)
    ensures Share(news, x, y) ==> Share(st + news, x, y)
  {
    if Share(news, x, y) {
      var t :| 0 <= t < |news| && In(news[t], x) && In(news[t], y);
      assert (st + news)[|st| + t] == news[t];
    }
  }

  lemma ShareEarlier(st: seq<Range>, news: seq<Range>, x: int, y: int)
    ensures Share(st, x, y) ==> Share(st + news, x, y)
  {
    if Share(st, x, y) {
      var t :| 0 <= t < |st| && In(st[t], x) && In(st[t], y);
      assert (st + news)[t] == st[t];
    }
  }

  /** A pair not wholly inside r is unaffected by permuting r. */
  lemma RefineOutside(key: seq<int>, s: seq<int>, s': seq<int>, lo: int, hi: int,
                      st: seq<Range>, r: Range, x: int, y: int)
    requires SortedExcept(key, s, lo, hi, st + [r])
    requires Disjoint(st + [r]) && Within(st + [r], lo, hi)
    requires PermutesRange(s, s', r.lo, r.hi + 1)
    requires lo <= x < y <= hi && !(In(r, x) && In(r, y))
    ensures KeyLe(key, s'[x], s'[y]) || Share(st, x, y)
  {
    assert (st + [r])[|st|] == r;
    var x', y' := x, y;
    if In(r, x) { x' := PermutesFrom(s, s', r.lo, r.hi + 1, x); }
    if In(r, y) { y' := PermutesFrom(s, s', r.lo, r.hi + 1, y); }
    assert s[x'] == s'[x] && s[y'] == s'[y] && x' < y';
    assert KeyLe(key, s[x'], s[y']) || Share(st + [r], x', y');
    if Share(st + [r], x', y') {
      var t :| 0 <= t < |st + [r]| && In((st + [r])[t], x') && In((st + [r])[t], y');
      assert t < |st| && st[t] == (st + [r])[t];
      assert !(In((st + [r])[t], x') && In((st + [r])[|st|], x'));
      assert !(In((st + [r])[t], y') && In((st + [r])[|st|], y'));
    }
  }

  /** Ranges that split r may take its place. */
  lemma Replace(st: seq<Range>, r: Range, news: seq<Range>, lo: int, hi: int)
    requires Disjoint(st + [r]) && Within(st + [r], lo, hi)
    requires Disjoint(news) && Within(news, r.lo, r.hi)
    ensures Disjoint(st + news) && Within(st + news, lo, hi)
  {
    assert (st + [r])[|st|] == r;
    forall t, u, x | 0 <= t < u < |st + news|
      ensures !(In((st + news)[t], x) && In((st + news)[u], x))
    {
      if u < |st| {
        assert (st + [r])[t] == st[t] && (st + [r])[u] == st[u];
      } else if t < |st| {
        assert (st + [r])[t] == st[t];
        assert (st + news)[u] == news[u - |st|];
        assert !(In((st + [r])[t], x) && In((st + [r])[|st|], x));
      } else {
        assert (st + news)[t] == news[t - |st|] && (st + news)[u] == news[u - |st|];
      }
    }
    forall t | 0 <= t < |st + news|
      ensures lo <= (st + news)[t].lo <= (st + news)[t].hi + 1 && (st + news)[t].hi <= hi
    {
      if t < |st| {
        assert (st + [r])[t] == st[t];
      }
    }
  }
}
