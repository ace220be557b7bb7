/** BZ2_blockSort: choose a sorter, fall back when the budget runs out, and
    find the place of the unrotated block. */
module BlockSort {
  import opened Permutations
  import opened Rotations
  import MainQSort
  import QuickSort
  import MainSort
  import FallbackSort
  import Buckets

  method Sort(block: array<byte>, n: int, workFactor: int) returns (ptr: array<int>, origPtr: int)
    requires 0 < n <= QuickSort.MAX_BLOCK && block.Length == n + MainQSort.OVERSHOOT
    modifies block
    ensures fresh(ptr) && ptr.Length == n && RotationSorted(old(block[..n]), ptr[..])
    ensures block[..n] == old(block[..n])
    ensures 0 <= origPtr < n && ptr[origPtr] == 0
  {
    ptr := new int[n];
    if n < 10000 {
      Fallback(block, ptr, n);
    } else {
      var quadrant := new int[n + MainQSort.OVERSHOOT];
      var ftab := new int[Buckets.KEYS + 1];
      var wfact := if workFactor < 1 then 1 else if workFactor > 100 then 100 else workFactor;
      var budget := MainSort.Sort(ptr, block, quadrant, ftab, n, n * ((wfact - 1) / 3));
      if budget < 0 {
        Fallback(block, ptr, n);
      }
    }
    origPtr := FindOrigin(ptr, n);
  }

  method Fallback(block: array<byte>, ptr: array<int>, n: int)
    requires 0 < n == ptr.Length <= QuickSort.MAX_BLOCK && n <= block.Length
    modifies block, ptr
    ensures RotationSorted(old(block[..n]), ptr[..])
    ensures block[..n] == old(block[..n])
  {
    var bhtab := new bool[n + 128];
    FallbackSort.Sort(block, ptr, bhtab, n);
  }

  method FindOrigin(ptr: array<int>, n: int) returns (origPtr: int)
    requires 0 < n == ptr.Length && IsPerm(ptr[..])
    ensures 0 <= origPtr < n && ptr[origPtr] == 0
  {
    origPtr := -1;
    PermOnto(ptr[..], 0);
    for i := 0 to n
      invariant origPtr == -1 && forall t :: 0 <= t < i ==> ptr[t] != 0
    {
      if ptr[i] == 0 {
        origPtr := i;
        break;
      }
    }
    assert origPtr != -1;  // internal error 1003
  }
}
