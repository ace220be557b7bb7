/** The bytes that occur in a block, and the maps between them and their ranks. */
module Alphabet {
  import opened Rotations

  type usage = s: seq<bool> | |s| == 256 witness seq(256, _ => false)

  /** The bytes below k that are in use, in order. */
  function Used(inUse: usage, k: nat): (u: seq<byte>)
    requires k <= 256
    ensures |u| <= k
  {
    if k == 0 then [] else Used(inUse, k - 1) + if inUse[k - 1] then [k - 1] else []
  }

  lemma {:induction false} UsedRank(inUse: usage, b: byte, k: nat)
    requires b < k <= 256 && inUse[b]
    ensures |Used(inUse, b)| < |Used(inUse, k)| && Used(inUse, k)[|Used(inUse, b)|] == b
    decreases k
  {
    if b < k - 1 {
      UsedRank(inUse, b, k - 1);
    }
  }

  lemma {:induction false} UsedExactly(inUse: usage, k: nat, i: int)
    requires k <= 256 && 0 <= i < |Used(inUse, k)|
    ensures Used(inUse, k)[i] < k && inUse[Used(inUse, k)[i]] && |Used(inUse, Used(inUse, k)[i])| == i
    decreases k
  {
    if i < |Used(inUse, k - 1)| {
      UsedExactly(inUse, k - 1, i);
    }
  }

  /** makeMaps_e: each used byte is mapped to its rank. */
  method MakeMapsE(inUse: usage) returns (unseqToSeq: array<int>, nInUse: nat)
    ensures fresh(unseqToSeq) && unseqToSeq.Length == 256 && nInUse == |Used(inUse, 256)|
    ensures forall b: byte :: inUse[b] ==> unseqToSeq[b] == |Used(inUse, b)| < nInUse && Used(inUse, 256)[unseqToSeq[b]] == b
  {
    unseqToSeq := new int[256](_ => 0);
    nInUse := 0;
    for i := 0 to 256
      invariant nInUse == |Used(inUse, i)|
      invariant forall b: byte :: b < i && inUse[b] ==> unseqToSeq[b] == |Used(inUse, b)|
    {
      if inUse[i] {
        unseqToSeq[i] := nInUse;
        nInUse := nInUse + 1;
      }
    }
    forall b: byte | inUse[b]
      ensures unseqToSeq[b] == |Used(inUse, b)| < nInUse && Used(inUse, 256)[unseqToSeq[b]] == b
    {
      UsedRank(inUse, b, 256);
    }
  }

  /** makeMaps_d: the used bytes by rank. */
  method MakeMapsD(inUse: usage) returns (seqToUnseq: array<byte>, nInUse: nat)
    ensures fresh(seqToUnseq) && seqToUnseq.Length == 256 && nInUse <= 256
    ensures seqToUnseq[..nInUse] == Used(inUse, 256)
  {
    seqToUnseq := new byte[256](_ => 0);
    nInUse := 0;
    for i := 0 to 256
      invariant nInUse <= i && seqToUnseq[..nInUse] == Used(inUse, i)
    {
      if inUse[i] {
        seqToUnseq[nInUse] := i;
        nInUse := nInUse + 1;
      }
    }
  }
}
