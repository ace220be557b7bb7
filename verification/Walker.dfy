/** Fetching the bytes of a block one after the other: BZ_GET_FAST and BZ_GET_SMALL. */
module Walker {
  import opened BurrowsWheeler
  import opened Counting
  import opened InverseBwt
  import opened Randomise
  import opened Rotations
  import opened SmallLinks

  /** Byte i of the walk from orig along q. */
  ghost function ByteAt(col: seq<byte>, q: seq<int>, orig: int, i: nat): byte
    requires Undoes(q, col) && 0 <= orig < |col|
  {
    col[Iter(q, q[orig], i)]
  }

  lemma UndoesTInverse(q: seq<int>, col: seq<byte>)
    requires Undoes(q, col)
    ensures q == TInverse(col)
  {
    var r := TInverse(col);
    forall k | 0 <= k < |col|
      ensures q[k] == r[k]
    {
      assert Slot(col, r[k]) == k;
    }
  }

  lemma SlotBackAgain(q: seq<int>, col: seq<byte>, x: int)
    requires Undoes(q, col) && 0 <= x < |col|
    ensures Slot(col, q[x]) == x
  {
    var y := Slot(col, q[x]);
    assert q[y] == q[x];
  }

  /** The links of the cycle through orig are q's. */
  ghost predicate CycleLinks(link: seq<int>, q: seq<int>, orig: int, path: set<int>) {
    |link| == |q| && orig in path && forall y {:trigger link[y]} :: y in path ==> 0 <= y < |q| && link[y] == q[y] && q[y] in path
  }

  /** What one of the walker's tables says about the rest of the walk. */
  ghost predicate FastTable(tt: seq<int>, col: seq<byte>, q: seq<int>) {
    |q| == |col| <= |tt| && forall j :: 0 <= j < |col| ==> tt[j] == col[j] as int + 256 * q[j]
  }

  ghost predicate SmallTable(ll16: seq<int>, ll4: seq<int>, cftab: seq<int>, col: seq<byte>, q: seq<int>, orig: int, path: set<int>) {
    && Sized(ll16, ll4) && |q| == |col| <= |ll16| && Cumulative(cftab, col)
    && CycleLinks(SmallLinks.View(ll16, ll4, |col|), q, orig, path)
  }

  class Walker {
    const small: bool
    const randomised: bool
    const g: gaps
    const tt: array<int>
    const ll16: array<int>
    const ll4: array<int>
    const cftab: array<int>
    var tPos: int
    var mask: Mask
    ghost const col: seq<byte>
    ghost const q: seq<int>
    ghost const orig: int
    ghost const path: set<int>
    ghost var got: nat

    ghost predicate Valid()
      reads this, tt, ll16, ll4, cftab
    {
      && Undoes(q, col) && 0 <= orig < |col| && 0 <= tPos < |col| && mask.pos < 512 && (randomised ==> mask == After(g, got))
      && (small ==> SmallTable(ll16[..], ll4[..], cftab[..], col, q, orig, path) && tPos in path && q[tPos] == Iter(q, q[orig], got))
      && (!small ==> FastTable(tt[..], col, q) && tPos == Iter(q, q[orig], got))
    }

    /** The byte that comes after i others. */
    ghost function TextAt(i: nat): byte
      requires Undoes(q, col) && 0 <= orig < |col|
    {
      var c := ByteAt(col, q, orig, i);
      if randomised then Masked(After(g, i + 1), c) else c
    }

    constructor (small: bool, randomised: bool, g: gaps, tt: array<int>, ll16: array<int>, ll4: array<int>, cftab: array<int>, tPos: int,
                 ghost col: seq<byte>, ghost q: seq<int>, ghost orig: int, ghost path: set<int>)
      requires Undoes(q, col) && 0 <= orig < |col| && 0 <= tPos < |col|
      requires small ==> SmallTable(ll16[..], ll4[..], cftab[..], col, q, orig, path) && tPos == orig
      requires !small ==> FastTable(tt[..], col, q) && tPos == q[orig]
      ensures Valid() && this.got == 0 && this.randomised == randomised && this.g == g && this.small == small
      ensures this.col == col && this.q == q && this.orig == orig
      ensures this.tt == tt && this.ll16 == ll16 && this.ll4 == ll4 && this.cftab == cftab
    {
      this.small, this.randomised, this.g := small, randomised, g;
      this.tt, this.ll16, this.ll4, this.cftab := tt, ll16, ll4, cftab;
      this.tPos, this.mask := tPos, Mask(0, 0);
      this.col, this.q, this.orig, this.path, this.got := col, q, orig, path, 0;
    }

    /** BZ_GET_FAST; its test of tPos against the block size cannot fail. */
    method GetFast(ghost limit: int) returns (c: byte)
      requires Valid() && !small && |col| <= limit
      modifies this`tPos
      ensures c == ByteAt(col, q, orig, got) && 0 <= tPos < |col| && tPos == Iter(q, q[orig], got + 1)
    {
      assert tPos < limit;
      var entry := tt[tPos];
      c := entry % 256;
      tPos := entry / 256;
    }

    /** BZ_GET_SMALL. */
    method GetSmall(ghost limit: int) returns (c: byte)
      requires Valid() && small && |col| <= limit
      modifies this`tPos
      ensures c == ByteAt(col, q, orig, got) && 0 <= tPos < |col| && tPos in path && q[tPos] == Iter(q, q[orig], got + 1)
    {
      assert tPos < limit;
      c := IndexIntoF(tPos, cftab, col);
      SlotBackAgain(q, col, tPos);
      PlaceByte(col, tPos, q[tPos], c);
      assert SmallLinks.View(ll16[..], ll4[..], |col|)[tPos] == q[tPos];
      tPos := GetLink(ll16, ll4, tPos);
    }

    method Get(ghost limit: int) returns (c: byte)
      requires Valid() && |col| <= limit
      modifies this`tPos, this`got
      ensures got == old(got) + 1 && c == ByteAt(col, q, orig, old(got)) && 0 <= tPos < |col|
      ensures small ==> SmallTable(ll16[..], ll4[..], cftab[..], col, q, orig, path) && tPos in path && q[tPos] == Iter(q, q[orig], got)
      ensures !small ==> FastTable(tt[..], col, q) && tPos == Iter(q, q[orig], got)
    {
      if small {
        c := GetSmall(limit);
      } else {
        c := GetFast(limit);
      }
      got := got + 1;
    }

    method Fetch(ghost limit: int) returns (c: byte)
      requires Valid() && |col| <= limit
      modifies this
      ensures Valid() && got == old(got) + 1 && c == TextAt(old(got))
    {
      c := Get(limit);
      if randomised {
        mask := Updated(g, mask);
        c := Masked(mask, c);
      }
    }
  }

  method CountBytes(col: seq<byte>) returns (unzftab: array<int>)
    ensures fresh(unzftab) && unzftab.Length == 256 && forall c :: 0 <= c < 256 ==> unzftab[c] == Occ(col, c, |col|)
  {
    unzftab := new int[256](_ => 0);
    for i := 0 to |col|
      invariant forall c :: 0 <= c < 256 ==> unzftab[c] == Occ(col, c, i)
    {
      unzftab[col[i]] := unzftab[col[i]] + 1;
    }
  }

  lemma InverseUndoes(col: seq<byte>) returns (q: seq<int>)
    ensures Undoes(q, col)
  {
    q := TInverse(col);
  }

  lemma CycleIsInverse(col: seq<byte>, q: seq<int>, link: seq<int>, t: seq<int>, orig: int, trail: seq<int>) returns (path: set<int>)
    requires Undoes(q, col) && t == TVector(col) && Reversed(link, t, orig, trail) && trail != [] && Last(orig, trail) == orig
    ensures CycleLinks(link, q, orig, path)
  {
    path := set y | y in trail;
    forall y | y in trail
      ensures 0 <= y < |q| && link[y] == q[y] && q[y] in trail
    {
      OnCycle(link, t, orig, trail, y);
      assert Slot(col, link[y]) == y;
    }
    assert trail[|trail| - 1] == orig;
  }

  /** The tables of the SMALL decompressor. */
  method BuildSmall(col: seq<byte>, orig: int, cftab: array<int>, ghost q: seq<int>)
    returns (ll16: array<int>, ll4: array<int>, ghost path: set<int>)
    requires 0 <= orig < |col| < LINK_LIMIT && Cumulative(cftab[..], col) && Undoes(q, col)
    ensures fresh(ll16) && fresh(ll4) && cftab[..] == old(cftab[..])
    ensures SmallTable(ll16[..], ll4[..], cftab[..], col, q, orig, path)
  {
    var n := |col|;
    ll16 := new int[n](i requires 0 <= i < n => col[i]);
    ll4 := new int[(1 + n) / 2](_ => 0);
    var cftabCopy := new int[257](i requires 0 <= i < 257 reads cftab => if i < cftab.Length then cftab[i] else 0);
    assert Placing(cftabCopy[..], col, 0);
    FillLinks(ll16, ll4, cftabCopy, col, n);
    TVectorIsPerm(col);
    ghost var t := TVector(col);
    assert SmallLinks.View(ll16[..], ll4[..], n) == t;
    ghost var trail := Reverse(ll16, ll4, orig, t);
    path := CycleIsInverse(col, q, SmallLinks.View(ll16[..], ll4[..], n), t, orig, trail);
  }

  /** Sets up the walk over a decoded column. */
  method Start(col: seq<byte>, orig: int, small: bool, randomised: bool, g: gaps) returns (w: Walker)
    requires 0 <= orig < |col| < LINK_LIMIT
    ensures fresh(w) && fresh(w.tt) && fresh(w.ll16) && fresh(w.ll4) && fresh(w.cftab)
    ensures w.Valid() && w.got == 0 && w.randomised == randomised && w.g == g && w.small == small && w.col == col && w.orig == orig
  {
    var unzftab := CountBytes(col);
    var cftab := Accumulate(unzftab, col);
    ghost var q := InverseUndoes(col);
    if small {
      w := StartSmall(col, orig, randomised, g, cftab, q);
    } else {
      w := StartFast(col, orig, randomised, g, cftab, q);
    }
  }

  method StartSmall(col: seq<byte>, orig: int, randomised: bool, g: gaps, cftab: array<int>, ghost q: seq<int>) returns (w: Walker)
    requires 0 <= orig < |col| < LINK_LIMIT && Undoes(q, col) && Cumulative(cftab[..], col)
    ensures fresh(w) && fresh(w.tt) && fresh(w.ll16) && fresh(w.ll4) && w.cftab == cftab
    ensures w.Valid() && w.got == 0 && w.randomised == randomised && w.g == g && w.small && w.col == col && w.orig == orig
  {
    var ll16, ll4; ghost var path;
    ll16, ll4, path := BuildSmall(col, orig, cftab, q);
    var tt := new int[0];
    w := new Walker(true, randomised, g, tt, ll16, ll4, cftab, orig, col, q, orig, path);
  }

  method StartFast(col: seq<byte>, orig: int, randomised: bool, g: gaps, cftab: array<int>, ghost q: seq<int>) returns (w: Walker)
    requires 0 <= orig < |col| && Undoes(q, col) && Cumulative(cftab[..], col)
    modifies cftab
    ensures fresh(w) && fresh(w.tt) && fresh(w.ll16) && fresh(w.ll4) && w.cftab == cftab
    ensures w.Valid() && w.got == 0 && w.randomised == randomised && w.g == g && !w.small && w.col == col && w.orig == orig
  {
    var n := |col|;
    var tt := new int[n](i requires 0 <= i < n => col[i]);
    BuildFast(tt, cftab, col, q, n);
    var none, empty := new int[0], new int[0];
    w := new Walker(false, randomised, g, tt, none, empty, cftab, tt[orig] / 256, col, q, orig, {});
  }
}
