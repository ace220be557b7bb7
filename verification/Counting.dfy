/** Counting sort: where entries with small integer keys belong. */
module Counting {

  /** Occurrences of c among the first k entries. */
  function Occ(s: seq<int>, c: int, k: nat): nat
    requires k <= |s|
  {
    if k == 0 then 0 else Occ(s, c, k - 1) + (if s[k - 1] == c then 1 else 0)
  }

  /** Entries smaller than c. */
  function Smaller(s: seq<int>, c: nat): nat {
    if c == 0 then 0 else Smaller(s, c - 1) + Occ(s, c - 1, |s|)
  }

  ghost predicate InRange(s: seq<int>, keys: nat) {
    forall i :: 0 <= i < |s| ==> 0 <= s[i] < keys
  }

  /** Place of entry i when equal keys keep their order. */
  function Slot(s: seq<int>, i: int): nat
    requires 0 <= i < |s| && 0 <= s[i]
  {
    Smaller(s, s[i]) + Occ(s, s[i], i)
  }

  /** Place of entry i when equal keys come in reverse order. */
  function SlotBack(s: seq<int>, i: int): int
    requires 0 <= i < |s| && 0 <= s[i]
  {
    Smaller(s, s[i] + 1) - Occ(s, s[i], i + 1)
  }

  lemma {:induction false} OccMono(s: seq<int>, c: int, j: nat, k: nat)
    requires j <= k <= |s|
    ensures Occ(s, c, j) <= Occ(s, c, k)
    decreases k
  {
    if j < k {
      OccMono(s, c, j, k - 1);
    }
  }

  lemma {:induction false} SmallerMono(s: seq<int>, c: nat, d: nat)
    requires c <= d
    ensures Smaller(s, c) <= Smaller(s, d)
    decreases d
  {
    if c < d {
      SmallerMono(s, c, d - 1);
    }
  }

  lemma {:induction false} SmallerSnoc(s: seq<int>, x: nat, c: nat)
    ensures Smaller(s + [x], c) == Smaller(s, c) + (if x < c then 1 else 0)
    decreases c
  {
    if c > 0 {
      SmallerSnoc(s, x, c - 1);
      OccSlice(s + [x], c - 1, |s|);
      assert (s + [x])[..|s|] == s;
    }
  }

  lemma {:induction false} OccSlice(s: seq<int>, c: int, k: nat)
    requires k <= |s|
    ensures Occ(s, c, k) == Occ(s[..k], c, k)
    decreases k
  {
    if k > 0 {
      OccSlice(s, c, k - 1);
      OccSlice(s[..k], c, k - 1);
      assert s[..k][..k - 1] == s[..k - 1];
    }
  }

  lemma {:induction false} SmallerTotal(s: seq<int>, keys: nat)
    requires InRange(s, keys)
    ensures Smaller(s, keys) == |s|
    decreases |s|
  {
    if s == [] {
      SmallerEmpty(keys);
    } else {
      var t, x := s[..|s| - 1], s[|s| - 1];
      SmallerTotal(t, keys);
      SmallerSnoc(t, x, keys);
      assert s == t + [x];
    }
  }

  lemma {:induction false} SmallerEmpty(c: nat)
    ensures Smaller([], c) == 0
    decreases c
  {
    if c > 0 {
      SmallerEmpty(c - 1);
    }
  }

  lemma SlotRange(s: seq<int>, i: int, keys: nat)
    requires 0 <= i < |s| && InRange(s, keys)
    ensures Smaller(s, s[i]) <= Slot(s, i) < Smaller(s, s[i] + 1) <= |s|
    ensures Smaller(s, s[i]) <= SlotBack(s, i) < Smaller(s, s[i] + 1)
  {
    OccMono(s, s[i], i + 1, |s|);
    SmallerMono(s, s[i] + 1, keys);
    SmallerTotal(s, keys);
  }

  /** Slots are strictly monotone in (key, position). */
  lemma SlotOrder(s: seq<int>, i: int, j: int)
    requires 0 <= i < |s| && 0 <= j < |s| && 0 <= s[i]
    requires s[i] < s[j] || (s[i] == s[j] && i < j)
    ensures Slot(s, i) < Slot(s, j)
  {
    OccMono(s, s[i], i + 1, if s[i] == s[j] then j else |s|);
    if s[i] < s[j] {
      SmallerMono(s, s[i] + 1, s[j]);
    }
  }

  /** Reverse slots are strictly monotone in (key, reversed position). */
  lemma SlotBackOrder(s: seq<int>, i: int, j: int)
    requires 0 <= i < |s| && 0 <= j < |s| && 0 <= s[i]
    requires s[i] < s[j] || (s[i] == s[j] && i > j)
    ensures SlotBack(s, i) < SlotBack(s, j)
  {
    if s[i] < s[j] {
      OccMono(s, s[j], j + 1, |s|);
      SmallerMono(s, s[i] + 1, s[j]);
      OccMono(s, s[i], 0, i);
    } else {
      OccMono(s, s[i], j + 1, i);
    }
  }
}
