/**
 * Canonical prefix codes: BZ2_hbAssignCodes, BZ2_hbCreateDecodeTables and the
 * limit/base/perm decoding loop of GET_MTF_VAL.
 */
module Canonical {
  import opened Bits
  import opened Counting
  import opened Permutations

  /** The longest code the decoder accepts. */
  const LONGEST: nat := 20
  const MAX_ALPHA_SIZE: nat := 258
  /** BZ_MAX_CODE_LEN: entries of limit and base that are initialised. */
  const TABLE_LEN: nat := 23

  ghost predicate Lengths(lens: seq<int>, longest: nat) {
    lens != [] && forall i :: 0 <= i < |lens| ==> 1 <= lens[i] <= longest
  }

  /** How many symbols have codes of length n. */
  function Count(lens: seq<int>, n: int): nat {
    Occ(lens, n, |lens|)
  }

  /** The smallest code of length n. */
  function First(lens: seq<int>, n: nat): nat {
    if n == 0 then 0 else 2 * (First(lens, n - 1) + Count(lens, n - 1))
  }

  /** Codes of one length are handed out in symbol order. */
  function Code(lens: seq<int>, i: int): nat
    requires 0 <= i < |lens| && lens[i] >= 0
  {
    First(lens, lens[i]) + Occ(lens, lens[i], i)
  }

  function CodeBits(lens: seq<int>, i: int): bits
    requires 0 <= i < |lens| && lens[i] >= 0
  {
    Field(lens[i], Code(lens, i))
  }

  function MinLen(lens: seq<int>): (m: int)
    requires lens != []
    ensures m in lens && forall i :: 0 <= i < |lens| ==> m <= lens[i]
  {
    var l := lens[|lens| - 1];
    if |lens| == 1 then l else
      var m := MinLen(lens[..|lens| - 1]);
      if l < m then l else m
  }

  function MaxLen(lens: seq<int>): (m: int)
    requires lens != []
    ensures m in lens && forall i :: 0 <= i < |lens| ==> lens[i] <= m
  {
    var l := lens[|lens| - 1];
    if |lens| == 1 then l else
      var m := MaxLen(lens[..|lens| - 1]);
      if l > m then l else m
  }

  lemma ExtremesNext(lens: seq<int>, i: nat)
    requires i < |lens|
    ensures i == 0 ==> MinLen(lens[..i + 1]) == lens[i] && MaxLen(lens[..i + 1]) == lens[i]
    ensures i > 0 ==> MinLen(lens[..i + 1]) == if lens[i] < MinLen(lens[..i]) then lens[i] else MinLen(lens[..i])
    ensures i > 0 ==> MaxLen(lens[..i + 1]) == if lens[i] > MaxLen(lens[..i]) then lens[i] else MaxLen(lens[..i])
  {
    assert lens[..i + 1][..i] == lens[..i];
  }

  method MinMax(lens: seq<int>) returns (minLen: int, maxLen: int)
    requires Lengths(lens, LONGEST)
    ensures minLen == MinLen(lens) && maxLen == MaxLen(lens)
  {
    minLen, maxLen := 32, 0;
    for i := 0 to |lens|
      invariant if i == 0 then minLen == 32 && maxLen == 0 else minLen == MinLen(lens[..i]) && maxLen == MaxLen(lens[..i])
    {
      ExtremesNext(lens, i);
      if lens[i] > maxLen { maxLen := lens[i]; }
      if lens[i] < minLen { minLen := lens[i]; }
    }
    assert lens[..|lens|] == lens;
  }

  /** The symbols by increasing code length, then symbol. */
  function Slots(lens: seq<int>): seq<int>
    requires forall i :: 0 <= i < |lens| ==> 0 <= lens[i]
  {
    seq(|lens|, i requires 0 <= i < |lens| => Slot(lens, i))
  }

  function Perm(lens: seq<int>): (p: seq<int>)
    requires forall i :: 0 <= i < |lens| ==> 0 <= lens[i]
    ensures |p| == |lens|
  {
    Inverse(Slots(lens))
  }

  /** The largest code of length n, as the tables hold it: 0 outside the lengths in use. */
  function Limit(lens: seq<int>, n: nat): int
    requires lens != []
  {
    if MinLen(lens) <= n <= MaxLen(lens) then First(lens, n) + Count(lens, n) - 1 else 0
  }

  /** What turns a code of length n into an index of the permutation. */
  function Base(lens: seq<int>, n: nat): int {
    First(lens, n) - Smaller(lens, n)
  }

  lemma SlotsPerm(lens: seq<int>, longest: nat)
    requires Lengths(lens, longest)
    ensures IsPerm(Slots(lens)) && IsPerm(Perm(lens))
    ensures forall s :: 0 <= s < |lens| ==> Slot(lens, s) < |lens| && Perm(lens)[Slot(lens, s)] == s
    ensures forall k :: 0 <= k < |lens| ==> Slot(lens, Perm(lens)[k]) == k
  {
    var q := Slots(lens);
    forall i | 0 <= i < |lens|
      ensures 0 <= q[i] < |q|
    {
      SlotRange(lens, i, longest + 1);
    }
    forall i, j | 0 <= i < j < |lens|
      ensures q[i] != q[j]
    {
      if lens[i] <= lens[j] {
        SlotOrder(lens, i, j);
      } else {
        SlotOrder(lens, j, i);
      }
    }
    InverseIsPerm(q);
    forall s | 0 <= s < |lens|
      ensures Slot(lens, s) < |lens| && Perm(lens)[Slot(lens, s)] == s
    {
      assert q[s] == Slot(lens, s);
    }
    forall k | 0 <= k < |lens|
      ensures Slot(lens, Perm(lens)[k]) == k
    {
      assert q[Perm(lens)[k]] == k;
    }
  }

  lemma {:induction false} NoneBelow(lens: seq<int>, n: nat)
    requires forall i :: 0 <= i < |lens| ==> n <= lens[i]
    ensures First(lens, n) == 0 && Smaller(lens, n) == 0
    decreases n
  {
    if n > 0 {
      NoneBelow(lens, n - 1);
      NoneOf(lens, n - 1, |lens|);
    }
  }

  lemma {:induction false} NoneOf(lens: seq<int>, n: int, k: nat)
    requires k <= |lens| && forall i :: 0 <= i < k ==> lens[i] != n
    ensures Occ(lens, n, k) == 0
    decreases k
  {
    if k > 0 {
      NoneOf(lens, n, k - 1);
    }
  }

  lemma {:induction false} SomeOf(lens: seq<int>, n: int, k: nat)
    requires k <= |lens| && exists i :: 0 <= i < k && lens[i] == n
    ensures Occ(lens, n, k) > 0
    decreases k
  {
    if lens[k - 1] != n {
      SomeOf(lens, n, k - 1);
    }
  }

  /** Smaller never reaches past the table. */
  lemma CountBound(lens: seq<int>, n: nat, longest: nat)
    requires Lengths(lens, longest) && n <= longest
    ensures Smaller(lens, n) + Count(lens, n) <= |lens|
  {
    SmallerMono(lens, n + 1, longest + 1);
    SmallerTotal(lens, longest + 1);
  }

  /**
   * The decoding loop with zn bits in hand. Whatever the lengths are, as long as the
   * bits so far are not below the first code of their length, a value within the limit
   * is the code of the symbol the permutation gives, the range check on the index cannot
   * fail, and otherwise the next bit keeps the condition.
   */
  lemma DecodeStep(lens: seq<int>, zn: nat, zvec: nat)
    requires Lengths(lens, LONGEST) && MinLen(lens) <= zn && First(lens, zn) <= zvec
    ensures zvec <= Limit(lens, zn) ==>
              var k := zvec - Base(lens, zn);
              0 <= k < |lens| && zn <= LONGEST && Perm(lens)[k] < |lens|
              && lens[Perm(lens)[k]] == zn && Code(lens, Perm(lens)[k]) == zvec
    ensures zvec > Limit(lens, zn) ==> First(lens, zn + 1) <= 2 * zvec
  {
    if zn > MaxLen(lens) {
      BeyondLongest(lens, zn);
      NoneOf(lens, zn, |lens|);
    } else if zvec <= Limit(lens, zn) {
      CountBound(lens, zn, LONGEST);
      SlotsPerm(lens, LONGEST);
      SlotIsCode(lens, zn, zvec - First(lens, zn));
    }
  }

  /** The decision GET_MTF_VAL makes on the zn bits in zvec. */
  datatype Outcome = Decoded(sym: nat) | Longer | Invalid

  function Classify(lens: seq<int>, zn: nat, zvec: nat): Outcome
    requires lens != [] && forall i :: 0 <= i < |lens| ==> 0 <= lens[i]
  {
    if zn > LONGEST then Invalid
    else if zvec > Limit(lens, zn) then Longer
    else
      var k := zvec - Base(lens, zn);
      if k < 0 || k >= MAX_ALPHA_SIZE then Invalid
      // Entries past the alphabet are never selected: see Classified.
      else if k >= |lens| then Invalid
      else Decoded(Perm(lens)[k])
  }

  /** For any table, bits are invalid only when longer than every code, and a decoded symbol has just these bits as its code. */
  lemma Classified(lens: seq<int>, zn: nat, zvec: nat)
    requires Lengths(lens, LONGEST) && |lens| <= MAX_ALPHA_SIZE && MinLen(lens) <= zn && First(lens, zn) <= zvec
    ensures var r := Classify(lens, zn, zvec);
            && (r.Invalid? <==> zn > LONGEST)
            && (r.Longer? ==> First(lens, zn + 1) <= 2 * zvec)
            && (r.Decoded? ==> r.sym < |lens| && lens[r.sym] == zn && Code(lens, r.sym) == zvec)
  {
    DecodeStep(lens, zn, zvec);
  }

  lemma {:induction false} BeyondLongest(lens: seq<int>, n: nat)
    requires Lengths(lens, LONGEST) && MaxLen(lens) < n
    ensures First(lens, n) >= 2
    decreases n
  {
    if n - 1 == MaxLen(lens) {
      SomeOf(lens, n - 1, |lens|);
    } else {
      BeyondLongest(lens, n - 1);
    }
  }

  lemma SlotIsCode(lens: seq<int>, n: nat, r: nat)
    requires Lengths(lens, LONGEST) && n <= LONGEST && r < Count(lens, n)
    ensures Smaller(lens, n) + r < |lens|
    ensures var s := Perm(lens)[Smaller(lens, n) + r];
            0 <= s < |lens| && lens[s] == n && Code(lens, s) == First(lens, n) + r
  {
    CountBound(lens, n, LONGEST);
    SlotsPerm(lens, LONGEST);
    var s := NthOf(lens, n, r, |lens|);
    assert Slot(lens, s) == Smaller(lens, n) + r;
  }

  /** The symbol of length n with exactly r predecessors of that length. */
  lemma {:induction false} NthOf(lens: seq<int>, n: int, r: nat, k: nat) returns (s: nat)
    requires k <= |lens| && r < Occ(lens, n, k)
    ensures s < k && lens[s] == n && Occ(lens, n, s) == r
    decreases k
  {
    if r < Occ(lens, n, k - 1) {
      s := NthOf(lens, n, r, k - 1);
    } else {
      s := k - 1;
    }
  }

  lemma {:induction false} HighStep(v: nat, n: nat)
    ensures High(v, n + 1) == High(v, n) / 2
    decreases n
  {
    if n > 0 {
      HighStep(v / 2, n - 1);
    }
  }

  /** Every proper prefix of a code is above all codes of the prefix's length. */
  lemma {:induction false} PrefixAbove(lens: seq<int>, c: nat, len: nat, n: nat)
    requires First(lens, len) <= c && n < len
    ensures First(lens, n) + Count(lens, n) <= High(c, len - n)
    decreases len - n
  {
    if n + 1 < len {
      PrefixAbove(lens, c, len, n + 1);
    }
    HighStep(c, len - n - 1);
  }

  /** sum of 2^(longest - length): 2^longest times the Kraft sum. */
  function Kraft(lens: seq<int>, longest: nat): nat
    requires forall i :: 0 <= i < |lens| ==> 0 <= lens[i] <= longest
  {
    if lens == [] then 0 else
      var l := lens[|lens| - 1];
      Kraft(lens[..|lens| - 1], longest) + ShiftLeft(1, longest - l)
  }

  /** The same sum taken length by length, over lengths below n. */
  function KraftByLength(lens: seq<int>, longest: nat, n: nat): nat
    requires n <= longest + 1
  {
    if n == 0 then 0 else KraftByLength(lens, longest, n - 1) + ShiftLeft(Count(lens, n - 1), longest - (n - 1))
  }

  lemma {:induction false} ShiftLeftSum(a: nat, b: nat, n: nat)
    ensures ShiftLeft(a + b, n) == ShiftLeft(a, n) + ShiftLeft(b, n)
    decreases n
  {
    if n > 0 {
      ShiftLeftSum(2 * a, 2 * b, n - 1);
    }
  }

  lemma {:induction false} ShiftLeftZero(n: nat)
    ensures ShiftLeft(0, n) == 0
  {
    if n > 0 {
      ShiftLeftZero(n - 1);
    }
  }

  lemma {:induction false} KraftSnoc(lens: seq<int>, l: nat, longest: nat, n: nat)
    requires n <= longest + 1 && l <= longest
    ensures KraftByLength(lens + [l], longest, n)
         == KraftByLength(lens, longest, n) + (if l < n then ShiftLeft(1, longest - l) else 0)
    decreases n
  {
    if n > 0 {
      KraftSnoc(lens, l, longest, n - 1);
      OccSlice(lens + [l], n - 1, |lens|);
      assert (lens + [l])[..|lens|] == lens;
      ShiftLeftSum(Count(lens, n - 1), 1, longest - (n - 1));
    }
  }

  lemma {:induction false} KraftAgree(lens: seq<int>, longest: nat)
    requires forall i :: 0 <= i < |lens| ==> 0 <= lens[i] <= longest
    ensures Kraft(lens, longest) == KraftByLength(lens, longest, longest + 1)
    decreases |lens|
  {
    if lens == [] {
      KraftNone(longest, longest + 1);
    } else {
      var t, l := lens[..|lens| - 1], lens[|lens| - 1];
      assert lens == t + [l];
      KraftAgree(t, longest);
      KraftSnoc(t, l, longest, longest + 1);
    }
  }

  lemma {:induction false} KraftNone(longest: nat, n: nat)
    requires n <= longest + 1
    ensures KraftByLength([], longest, n) == 0
    decreases n
  {
    if n > 0 {
      KraftNone(longest, n - 1);
      ShiftLeftZero(longest - (n - 1));
    }
  }

  /** First(n), scaled, is the Kraft sum of the shorter lengths. */
  lemma {:induction false} FirstIsKraft(lens: seq<int>, longest: nat, n: nat)
    requires n <= longest + 1
    ensures n <= longest ==> ShiftLeft(First(lens, n), longest - n) == KraftByLength(lens, longest, n)
    ensures n > 0 ==> ShiftLeft(First(lens, n - 1) + Count(lens, n - 1), longest - (n - 1)) == KraftByLength(lens, longest, n)
    decreases n
  {
    if n == 0 {
      ShiftLeftZero(longest);
    } else {
      FirstIsKraft(lens, longest, n - 1);
      ShiftLeftSum(First(lens, n - 1), Count(lens, n - 1), longest - (n - 1));
    }
  }

  lemma {:induction false} KraftMono(lens: seq<int>, longest: nat, m: nat, n: nat)
    requires m <= n <= longest + 1
    ensures KraftByLength(lens, longest, m) <= KraftByLength(lens, longest, n)
    decreases n
  {
    if m < n {
      KraftMono(lens, longest, m, n - 1);
    }
  }

  lemma {:induction false} ShiftLeftLess(a: nat, b: nat, n: nat)
    requires ShiftLeft(a, n) <= ShiftLeft(b, n)
    ensures a <= b
    decreases n
  {
    if n > 0 {
      ShiftLeftLess(2 * a, 2 * b, n - 1);
    }
  }

  lemma {:induction false} ShiftPow2(n: nat, m: nat)
    ensures ShiftLeft(Pow2(n), m) == Pow2(n + m)
    decreases m
  {
    if m > 0 {
      ShiftPow2(n + 1, m - 1);
    }
  }

  lemma CodesAreKraft(lens: seq<int>, longest: nat, n: nat, next: nat)
    requires next == n + 1 <= longest + 1
    ensures ShiftLeft(First(lens, n) + Count(lens, n), longest - n) == KraftByLength(lens, longest, next)
  {
    FirstIsKraft(lens, longest, next);
  }

  lemma LengthShare(lens: seq<int>, longest: nat, n: nat)
    requires Lengths(lens, longest) && Kraft(lens, longest) <= Pow2(longest) && n <= longest
    ensures ShiftLeft(First(lens, n) + Count(lens, n), longest - n) <= Pow2(longest)
  {
    KraftAgree(lens, longest);
    CodesAreKraft(lens, longest, n, n + 1);
    KraftMono(lens, longest, n + 1, longest + 1);
  }

  lemma LengthFits(lens: seq<int>, longest: nat, n: nat)
    requires Lengths(lens, longest) && Kraft(lens, longest) <= Pow2(longest) && n <= longest
    ensures First(lens, n) + Count(lens, n) <= Pow2(n)
  {
    LengthShare(lens, longest, n);
    ShiftPow2(n, longest - n);
    ShiftLeftLess(First(lens, n) + Count(lens, n), Pow2(n), longest - n);
  }

  /** With a Kraft sum of at most 1, all codes fit their lengths. */
  lemma CodesFit(lens: seq<int>, longest: nat, i: int)
    requires Lengths(lens, longest) && Kraft(lens, longest) <= Pow2(longest)
    requires 0 <= i < |lens|
    ensures Code(lens, i) < Pow2(lens[i])
  {
    LengthFits(lens, longest, lens[i]);
    OccMono(lens, lens[i], i + 1, |lens|);
  }

  /** No code is a prefix of another symbol's code. */
  lemma PrefixFree(lens: seq<int>, longest: nat, i: int, j: int)
    requires Lengths(lens, longest) && Kraft(lens, longest) <= Pow2(longest)
    requires 0 <= i < |lens| && 0 <= j < |lens| && i != j
    ensures !(CodeBits(lens, i) <= CodeBits(lens, j))
  {
    CodesFit(lens, longest, i);
    CodesFit(lens, longest, j);
    if lens[i] <= lens[j] {
      NoPrefix(lens, i, j);
      NotPrefix(lens[i], lens[j], Code(lens, i), Code(lens, j));
    }
  }

  lemma NotPrefix(m: nat, n: nat, a: nat, b: nat)
    requires m <= n && a < Pow2(m) && b < Pow2(n) && High(b, n - m) != a
    ensures !(Field(m, a) <= Field(n, b))
  {
    FieldPrefix(m, n, b);
    ValueField(m, a);
    ValueField(m, High(b, n - m));
  }

  lemma NoPrefix(lens: seq<int>, i: int, j: int)
    requires 0 <= i < |lens| && 0 <= j < |lens| && i != j && 0 <= lens[i] <= lens[j]
    ensures High(Code(lens, j), lens[j] - lens[i]) != Code(lens, i)
  {
    if lens[i] < lens[j] {
      PrefixAbove(lens, Code(lens, j), lens[j], lens[i]);
      OccMono(lens, lens[i], i + 1, |lens|);
    } else if i < j {
      OccMono(lens, lens[i], i + 1, j);
    } else {
      OccMono(lens, lens[i], j + 1, i);
    }
  }

  lemma FieldPrefix(m: nat, n: nat, b: nat)
    requires m <= n && b < Pow2(n)
    ensures Field(n, b)[..m] == Field(m, High(b, n - m)) && High(b, n - m) < Pow2(m)
  {
    FieldSplit(m, n - m, b);
    HighFits(b, m, n - m);
  }

  lemma {:induction false} HighFits(v: nat, m: nat, n: nat)
    requires v < Pow2(m + n)
    ensures High(v, n) < Pow2(m)
    decreases n
  {
    if n > 0 {
      HighFits(v / 2, m, n - 1);
    }
  }

  /** Symbols that the doubly nested loops have passed when they reach length n and symbol k. */
  ghost predicate Passed(lens: seq<int>, s: int, n: int, k: int) {
    0 <= s < |lens| && (lens[s] < n || (lens[s] == n && s < k))
  }

  /** BZ2_hbAssignCodes. */
  method AssignCodes(code: array<int>, lens: seq<int>, minLen: nat, maxLen: nat)
    requires Lengths(lens, LONGEST) && minLen == MinLen(lens) && maxLen == MaxLen(lens)
    requires |lens| <= code.Length
    modifies code
    ensures forall s :: 0 <= s < |lens| ==> code[s] == Code(lens, s)
  {
    var vec := 0;
    NoneBelow(lens, minLen);
    for n := minLen to maxLen + 1
      invariant vec == First(lens, n)
      invariant forall s :: Passed(lens, s, n, 0) ==> code[s] == Code(lens, s)
    {
      for i := 0 to |lens|
        invariant vec == First(lens, n) + Occ(lens, n, i)
        invariant forall s :: Passed(lens, s, n, i) ==> code[s] == Code(lens, s)
      {
        if lens[i] == n {
          code[i] := vec;
          vec := vec + 1;
        }
      }
      vec := 2 * vec;
    }
  }

  ghost predicate Filled(perm: array<int>, lens: seq<int>, n: int, k: int)
    requires forall i :: 0 <= i < |lens| ==> 0 <= lens[i]
    reads perm
  {
    forall s :: Passed(lens, s, n, k) ==> 0 <= Slot(lens, s) < perm.Length && perm[Slot(lens, s)] == s
  }

  /** The first loop of BZ2_hbCreateDecodeTables. */
  method FillPerm(perm: array<int>, lens: seq<int>, minLen: nat, maxLen: nat)
    requires Lengths(lens, LONGEST) && minLen == MinLen(lens) && maxLen == MaxLen(lens)
    requires |lens| <= perm.Length
    modifies perm
    ensures perm[..|lens|] == Perm(lens)
  {
    var pp := 0;
    NoneBelow(lens, minLen);
    for n := minLen to maxLen + 1
      invariant pp == Smaller(lens, n)
      invariant Filled(perm, lens, n, 0)
    {
      for j := 0 to |lens|
        invariant pp == Smaller(lens, n) + Occ(lens, n, j)
        invariant Filled(perm, lens, n, j)
      {
        if lens[j] == n {
          PlaceNext(perm, lens, n, j, pp);
          pp := pp + 1;
        }
      }
    }
    SlotsPerm(lens, LONGEST);
    forall k | 0 <= k < |lens|
      ensures perm[k] == Perm(lens)[k]
    {
      assert Passed(lens, Perm(lens)[k], maxLen + 1, 0);
    }
  }

  method PlaceNext(perm: array<int>, lens: seq<int>, n: nat, j: nat, pp: nat)
    requires Lengths(lens, LONGEST) && |lens| <= perm.Length && j < |lens| && lens[j] == n
    requires pp == Smaller(lens, n) + Occ(lens, n, j) && Filled(perm, lens, n, j)
    modifies perm
    ensures Filled(perm, lens, n, j + 1)
  {
    SlotRange(lens, j, LONGEST + 1);
    forall s | Passed(lens, s, n, j)
      ensures Slot(lens, s) < pp
    {
      SlotOrder(lens, s, j);
    }
    perm[pp] := j;
  }

  /** base[k] after the two counting loops: the number of codes shorter than k. */
  method CountLengths(base: array<int>, lens: seq<int>)
    requires Lengths(lens, LONGEST) && TABLE_LEN <= base.Length
    modifies base
    ensures forall k :: 0 <= k < TABLE_LEN ==> base[k] == Smaller(lens, k)
  {
    for i := 0 to TABLE_LEN
      invariant forall k :: 0 <= k < i ==> base[k] == 0
    {
      base[i] := 0;
    }
    for i := 0 to |lens|
      invariant base[0] == 0
      invariant forall k :: 1 <= k < TABLE_LEN ==> base[k] == Occ(lens, k - 1, i)
    {
      base[lens[i] + 1] := base[lens[i] + 1] + 1;
    }
    for i := 1 to TABLE_LEN
      invariant forall k :: 0 <= k < i ==> base[k] == Smaller(lens, k)
      invariant forall k :: i <= k < TABLE_LEN ==> base[k] == Occ(lens, k - 1, |lens|)
    {
      base[i] := base[i] + base[i - 1];
    }
  }

  method SetLimits(limit: array<int>, base: array<int>, lens: seq<int>, minLen: nat, maxLen: nat)
    requires Lengths(lens, LONGEST) && minLen == MinLen(lens) && maxLen == MaxLen(lens)
    requires TABLE_LEN <= limit.Length && TABLE_LEN <= base.Length && limit != base
    requires forall k :: 0 <= k < TABLE_LEN ==> base[k] == Smaller(lens, k)
    modifies limit
    ensures forall n :: 0 <= n < TABLE_LEN ==> limit[n] == Limit(lens, n)
  {
    for i := 0 to TABLE_LEN
      invariant forall k :: 0 <= k < i ==> limit[k] == 0
    {
      limit[i] := 0;
    }
    var vec := 0;
    NoneBelow(lens, minLen);
    for i := minLen to maxLen + 1
      invariant vec == First(lens, i)
      invariant forall k :: minLen <= k < i ==> limit[k] == First(lens, k) + Count(lens, k) - 1
      invariant forall k :: 0 <= k < TABLE_LEN && !(minLen <= k < i) ==> limit[k] == 0
    {
      assert base[i + 1] == Smaller(lens, i + 1);
      vec := vec + (base[i + 1] - base[i]);
      limit[i] := vec - 1;
      vec := 2 * vec;
    }
  }

  lemma BaseFirst(lens: seq<int>)
    requires Lengths(lens, LONGEST)
    ensures Smaller(lens, MinLen(lens)) == Base(lens, MinLen(lens))
  {
    NoneBelow(lens, MinLen(lens));
  }

  lemma BaseNext(lens: seq<int>, n: nat)
    requires Lengths(lens, LONGEST) && MinLen(lens) < n <= MaxLen(lens)
    ensures 2 * (Limit(lens, n - 1) + 1) - Smaller(lens, n) == Base(lens, n)
  {
  }

  method SetBases(limit: array<int>, base: array<int>, lens: seq<int>, minLen: nat, maxLen: nat)
    requires Lengths(lens, LONGEST) && minLen == MinLen(lens) && maxLen == MaxLen(lens)
    requires TABLE_LEN <= limit.Length && TABLE_LEN <= base.Length && limit != base
    requires forall k :: 0 <= k < TABLE_LEN ==> base[k] == Smaller(lens, k)
    requires forall n :: 0 <= n < TABLE_LEN ==> limit[n] == Limit(lens, n)
    modifies base
    ensures forall n :: minLen <= n <= maxLen ==> base[n] == Base(lens, n)
  {
    BaseFirst(lens);
    for i := minLen + 1 to maxLen + 1
      invariant forall k :: minLen <= k < i ==> base[k] == Base(lens, k)
      invariant forall k :: i <= k <= maxLen ==> base[k] == Smaller(lens, k)
    {
      BaseNext(lens, i);
      base[i] := 2 * (limit[i - 1] + 1) - base[i];
    }
  }

  /** BZ2_hbCreateDecodeTables. */
  method CreateDecodeTables(limit: array<int>, base: array<int>, perm: array<int>, lens: seq<int>, minLen: nat, maxLen: nat)
    requires Lengths(lens, LONGEST) && minLen == MinLen(lens) && maxLen == MaxLen(lens)
    requires |lens| <= MAX_ALPHA_SIZE
    requires limit.Length == base.Length == perm.Length == MAX_ALPHA_SIZE
    requires limit != base && base != perm && limit != perm
    modifies limit, base, perm
    ensures perm[..|lens|] == Perm(lens)
    ensures forall n :: 0 <= n < TABLE_LEN ==> limit[n] == Limit(lens, n)
    ensures forall n :: minLen <= n <= maxLen ==> base[n] == Base(lens, n)
  {
    FillPerm(perm, lens, minLen, maxLen);
    CountLengths(base, lens);
    SetLimits(limit, base, lens, minLen, maxLen);
    SetBases(limit, base, lens, minLen, maxLen);
  }
}
