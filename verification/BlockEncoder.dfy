/** What BZ2_compressBlock makes of one block: sorting, move-to-front coding and code tables. */
module BlockEncoder {
  import opened Alphabet
  import opened BurrowsWheeler
  import opened Crc
  import opened Decoding
  import opened Format
  import opened Mtf
  import opened MtfEncoder
  import opened Parser
  import opened Rotations
  import opened RunLength
  import BlockSort
  import CodeTables

  /** The same memory seen as 16-bit halves. */
  method Halves(ptr: array<int>) returns (arr1: array<int>)
    requires forall i :: 0 <= i < ptr.Length ==> 0 <= ptr[i]
    ensures fresh(arr1) && arr1.Length == 2 * ptr.Length && Ptrs(arr1[..], ptr.Length) == ptr[..]
  {
    arr1 := new int[2 * ptr.Length];
    for i := 0 to ptr.Length
      invariant forall k :: 0 <= k < i ==> Ptr(arr1[..], k) == ptr[k]
    {
      arr1[2 * i] := ptr[i] % HALF;
      arr1[2 * i + 1] := ptr[i] / HALF;
    }
  }

  /** Sorted rotations and the symbols of their last column. */
  method Transform(stored: seq<byte>, inUse: usage, workFactor: int) returns (origPtr: nat, syms: seq<int>, mtfFreq: seq<nat>, ghost p: seq<int>)
    requires 0 < |stored| <= 900000 && 1 <= workFactor <= 250 && forall x :: x in stored ==> inUse[x]
    ensures RotationSorted(stored, p) && origPtr < |stored| && p[origPtr] == 0
    ensures Used(inUse, 256) != [] && |mtfFreq| == |Used(inUse, 256)| + 2 && 1 <= |syms| <= |stored| + 1
    ensures forall x :: x in LastColumn(stored, p) ==> x in Used(inUse, 256)
    ensures syms == Symbols(Used(inUse, 256), LastColumn(stored, p), 0)
  {
    var n := |stored|;
    var block := new byte[n + 34](i requires 0 <= i < n + 34 => if i < n then stored[i] else 0);
    assert block[..n] == stored;
    var ptr;
    ptr, origPtr := BlockSort.Sort(block, n, workFactor);
    p := ptr[..];
    var arr1 := Halves(ptr);
    assert block[..n] == stored;
    var nMTF, freq := Generate(arr1, block, n, inUse);
    syms := arr1[..nMTF];
    mtfFreq := seq(freq.Length, v requires 0 <= v < freq.Length reads freq => if freq[v] >= 0 then freq[v] else 0);
  }

  method Encode(stored: seq<byte>, inUse: usage, crc: word, workFactor: int, ghost t: Checksum, ghost size: level, ghost rs: seq<Run>)
    returns (b: Block, ghost p: seq<int>)
    requires Runs(rs) && stored == StoredAll(rs) && 0 < |stored| <= 100000 * size && 1 <= workFactor <= 250
    requires (forall x :: x in stored ==> inUse[x]) && crc == OfBlock(t, ExpandedAll(rs))
    ensures Encodes(t, size, b, rs, p) && b.crc == crc && |b.syms| <= |stored| + 1
    ensures CodeTables.Refined(b.book, |Used(inUse, 256)| + 2, b.syms)
  {
    var origPtr, syms, mtfFreq;
    origPtr, syms, mtfFreq, p := Transform(stored, inUse, workFactor);
    b := WithTables(crc, origPtr, inUse, syms, mtfFreq, LastColumn(stored, p));
  }

  method WithTables(crc: word, origPtr: nat, inUse: usage, syms: seq<int>, mtfFreq: seq<nat>, ghost col: seq<byte>) returns (b: Block)
    requires origPtr < 900000 && Used(inUse, 256) != [] && |mtfFreq| == |Used(inUse, 256)| + 2 && 1 <= |syms| <= 900001
    requires (forall x :: x in col ==> x in Used(inUse, 256)) && syms == Symbols(Used(inUse, 256), col, 0)
    ensures WellFormed(b) && b.crc == crc && b.origPtr == origPtr && b.inUse == inUse && b.syms == syms
    ensures CodeTables.Refined(b.book, |Used(inUse, 256)| + 2, syms)
  {
    SymbolsShape(Used(inUse, 256), col, 0);
    var book := CodeTables.Choose(syms, mtfFreq);
    b := Block(crc, origPtr, inUse, book, syms);
    ChosenFits(b);
  }

  lemma ChosenFits(b: Block)
    requires b.crc < 0x1_0000_0000 && b.origPtr < 900000 && Used(b.inUse, 256) != []
    requires |b.book.tables| == CodeTables.GroupCount(|b.syms|) && InvBook(b.book, |Used(b.inUse, 256)| + 2)
    requires forall t :: 0 <= t < |b.book.tables| ==> CodeTables.Complete(b.book.tables[t])
    requires |b.syms| <= GROUP_SIZE * |b.book.selectors| < |b.syms| + GROUP_SIZE
    requires forall k :: 0 <= k < |b.syms| ==> 0 <= b.syms[k] < |Used(b.inUse, 256)| + 2
    ensures WellFormed(b)
  {
  }
}
