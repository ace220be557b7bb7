/** The mask that old streams apply to the bytes of a randomised block. */
module Randomise {
  import opened Rotations

  /** BZ2_rNums: 512 positive gaps, a parameter here. */
  type gaps = s: seq<int> | |s| == 512 && forall i :: 0 <= i < 512 ==> s[i] >= 1 witness seq(512, _ => 1)

  datatype Mask = Mask(toGo: nat, pos: nat)

  /** BZ_RAND_UPD_MASK. */
  function Updated(g: gaps, m: Mask): (r: Mask)
    requires m.pos < 512
    ensures r.pos < 512
  {
    if m.toGo == 0 then Mask(g[m.pos] - 1, if m.pos + 1 == 512 then 0 else m.pos + 1) else Mask(m.toGo - 1, m.pos)
  }

  /** The mask's state after k updates. */
  function After(g: gaps, k: nat): (m: Mask)
    ensures m.pos < 512
  {
    if k == 0 then Mask(0, 0) else Updated(g, After(g, k - 1))
  }

  /** Exclusive or with BZ_RAND_MASK. */
  function Masked(m: Mask, c: byte): byte {
    if m.toGo != 1 then c else if c % 2 == 0 then c as int + 1 else c as int - 1
  }

  function Unmask(g: gaps, randomised: bool, w: seq<byte>): (v: seq<byte>)
    ensures |v| == |w|
  {
    if randomised then seq(|w|, i requires 0 <= i < |w| => Masked(After(g, i + 1), w[i])) else w
  }

  // Which bytes are changed

  function Gap(g: gaps, n: nat): (d: nat)
    ensures d >= 1
  {
    g[n % 512]
  }

  /** The sum of the first n gaps, the table read round and round. */
  function Reach(g: gaps, n: nat): (r: nat)
    ensures r >= n
  {
    if n == 0 then 0 else Reach(g, n - 1) + Gap(g, n - 1)
  }

  lemma NextPlace(n: nat)
    ensures (n + 1) % 512 == if n % 512 == 511 then 0 else n % 512 + 1
  {
  }

  lemma {:induction false} AfterIs(g: gaps, n: nat, j: nat)
    requires j < Gap(g, n)
    ensures After(g, Reach(g, n) + j + 1) == Mask(Gap(g, n) - 1 - j, (n + 1) % 512)
    decreases n, j
  {
    NextPlace(n);
    if j > 0 {
      AfterIs(g, n, j - 1);
    } else if n > 0 {
      AfterIs(g, n - 1, Gap(g, n - 1) - 1);
    }
  }

  /** The gap that place i lies in. */
  lemma {:induction false} GapOf(g: gaps, i: nat) returns (n: nat)
    ensures Reach(g, n) <= i < Reach(g, n) + Gap(g, n)
  {
    n := 0;
    while i >= Reach(g, n + 1)
      invariant Reach(g, n) <= i
      decreases i - n
    {
      n := n + 1;
    }
  }

  /** Byte i is changed exactly when a gap of at least two ends two places further on. */
  lemma ChangedIff(g: gaps, i: nat)
    ensures After(g, i + 1).toGo == 1 <==> exists n: nat :: Gap(g, n) >= 2 && i + 2 == Reach(g, n + 1)
  {
    var n := GapOf(g, i);
    var j := i - Reach(g, n);
    AfterIs(g, n, j);
    if After(g, i + 1).toGo == 1 {
      assert i + 2 == Reach(g, n + 1);
    }
    forall k: nat | Gap(g, k) >= 2 && i + 2 == Reach(g, k + 1)
      ensures After(g, i + 1).toGo == 1
    {
      AfterIs(g, k, Gap(g, k) - 2);
    }
  }

  /** The mask is its own inverse. */
  lemma UnmaskTwice(g: gaps, randomised: bool, w: seq<byte>)
    ensures Unmask(g, randomised, Unmask(g, randomised, w)) == w
  {
    var v := Unmask(g, randomised, w);
    if randomised {
      forall i | 0 <= i < |w|
        ensures Unmask(g, randomised, v)[i] == w[i]
      {
        MaskedTwice(After(g, i + 1), w[i]);
      }
    }
  }

  lemma MaskedTwice(m: Mask, c: byte)
    ensures Masked(m, Masked(m, c)) == c
  {
  }
}
