/**
 * The SMALL decompressor's links: twenty bits each, sixteen in ll16 and four packed two to a
 * byte in ll4, turned from T to T^(-1) in place along the cycle that the walk follows.
 */
module SmallLinks {
  import opened Counting
  import opened InverseBwt
  import opened Permutations
  import opened Rotations

  const LINK_LIMIT: int := 0x10_0000

  ghost predicate Sized(ll16: seq<int>, ll4: seq<int>) {
    && |ll16| <= 2 * |ll4|
    && (forall i :: 0 <= i < |ll16| ==> 0 <= ll16[i] < 65536)
    && (forall i :: 0 <= i < |ll4| ==> 0 <= ll4[i] < 256)
  }

  /** GET_LL4. */
  function Nibble(ll4: seq<int>, i: int): int
    requires 0 <= i < 2 * |ll4|
  {
    if i % 2 == 0 then ll4[i / 2] % 16 else ll4[i / 2] / 16 % 16
  }

  /** GET_LL. */
  function Link(ll16: seq<int>, ll4: seq<int>, i: int): int
    requires 0 <= i < |ll16| <= 2 * |ll4|
  {
    ll16[i] + 65536 * Nibble(ll4, i)
  }

  /** SET_LL: stores a link and disturbs no other, although two share a byte. */
  method SetLink(ll16: array<int>, ll4: array<int>, i: int, n: int)
    requires ll16 != ll4 && Sized(ll16[..], ll4[..]) && 0 <= i < ll16.Length && 0 <= n < LINK_LIMIT
    modifies ll16, ll4
    ensures Sized(ll16[..], ll4[..]) && Link(ll16[..], ll4[..], i) == n
    ensures forall j :: 0 <= j < ll16.Length && j != i ==> Link(ll16[..], ll4[..], j) == old(Link(ll16[..], ll4[..], j))
    ensures forall j :: 0 <= j < ll16.Length && j != i ==> ll16[j] == old(ll16[j])
  {
    ll16[i] := n % 65536;
    var v := ll4[i / 2];
    if i % 2 == 0 {
      ll4[i / 2] := v / 16 * 16 + n / 65536;
    } else {
      ll4[i / 2] := v % 16 + n / 65536 * 16;
    }
  }

  method GetLink(ll16: array<int>, ll4: array<int>, i: int) returns (n: int)
    requires Sized(ll16[..], ll4[..]) && 0 <= i < ll16.Length
    ensures n == Link(ll16[..], ll4[..], i)
  {
    n := ll16[i] + 65536 * (if i % 2 == 0 then ll4[i / 2] % 16 else ll4[i / 2] / 16 % 16);
  }

  /** Entries below i hold T, the others still hold the column. */
  ghost predicate Filling(ll16: seq<int>, ll4: seq<int>, col: seq<byte>, i: int) {
    && Sized(ll16, ll4) && 0 <= i <= |col| <= |ll16| && |col| < LINK_LIMIT
    && (forall j :: 0 <= j < i ==> Link(ll16, ll4, j) == Slot(col, j))
    && (forall j :: i <= j < |col| ==> ll16[j] == col[j])
  }

  method FillOne(ll16: array<int>, ll4: array<int>, cftabCopy: array<int>, ghost col: seq<byte>, i: nat)
    requires ll16 != ll4 && ll16 != cftabCopy && ll4 != cftabCopy && i < |col|
    requires Filling(ll16[..], ll4[..], col, i) && Placing(cftabCopy[..], col, i)
    modifies ll16, ll4, cftabCopy
    ensures Filling(ll16[..], ll4[..], col, i + 1) && Placing(cftabCopy[..], col, i + 1)
  {
    PlaceOne(cftabCopy[..], col, i);
    ghost var c := cftabCopy[..];
    var uc := ll16[i];
    SetLink(ll16, ll4, i, cftabCopy[uc]);
    cftabCopy[uc] := cftabCopy[uc] + 1;
    assert cftabCopy[..] == c[uc := c[uc] + 1];
  }

  /** The T vector, over the column. */
  method FillLinks(ll16: array<int>, ll4: array<int>, cftabCopy: array<int>, ghost col: seq<byte>, n: nat)
    requires ll16 != ll4 && ll16 != cftabCopy && ll4 != cftabCopy && n == |col|
    requires Filling(ll16[..], ll4[..], col, 0) && Placing(cftabCopy[..], col, 0)
    modifies ll16, ll4, cftabCopy
    ensures Filling(ll16[..], ll4[..], col, n)
  {
    for i := 0 to n
      invariant Filling(ll16[..], ll4[..], col, i) && Placing(cftabCopy[..], col, i)
    {
      FillOne(ll16, ll4, cftabCopy, col, i);
    }
  }

  /** The nodes after orig along t, in order, without repetition and not yet back at orig unless complete. */
  ghost predicate Trail(t: seq<int>, orig: int, path: seq<int>) {
    && IsPerm(t) && 0 <= orig < |t| && Injective(path)
    && (forall m :: 0 <= m < |path| ==> 0 <= path[m] < |t|)
    && (|path| > 0 ==> path[0] == t[orig])
    && (forall m, l :: 0 <= m && l == m + 1 && l < |path| ==> path[l] == t[path[m]])
    && (forall m :: 0 <= m < |path| - 1 ==> path[m] != orig)
  }

  function Last(orig: int, path: seq<int>): int {
    if path == [] then orig else path[|path| - 1]
  }

  lemma TrailExtends(t: seq<int>, orig: int, path: seq<int>)
    requires Trail(t, orig, path) && (path != [] ==> Last(orig, path) != orig)
    ensures t[Last(orig, path)] !in path
    ensures Trail(t, orig, path + [t[Last(orig, path)]])
  {
    var i := Last(orig, path);
    var j := t[i];
    forall m | 0 <= m < |path|
      ensures path[m] != j
    {
      var pred := if m == 0 then orig else path[m - 1];
      assert t[pred] == path[m] && pred != i;
    }
  }

  /** Links along the trail point back; all others still hold t. */
  ghost predicate Reversed(link: seq<int>, t: seq<int>, orig: int, path: seq<int>) {
    && |link| == |t| && Trail(t, orig, path)
    && (path != [] ==> link[path[0]] == orig)
    && (forall m, l :: 0 <= m && l == m + 1 && l < |path| ==> link[path[l]] == path[m])
    && (forall y :: 0 <= y < |t| && y !in path ==> link[y] == t[y])
  }

  lemma ReverseStep(link: seq<int>, t: seq<int>, orig: int, path: seq<int>)
    requires Reversed(link, t, orig, path) && (path != [] ==> Last(orig, path) != orig)
    ensures var i := Last(orig, path);
            var j := t[i];
            link[j] == t[j] && Reversed(link[j := i], t, orig, path + [j])
  {
    TrailExtends(t, orig, path);
  }

  lemma TrailShort(t: seq<int>, orig: int, path: seq<int>)
    requires Trail(t, orig, path)
    ensures |path| <= |t|
  {
    Covers(path, Below(|t|));
  }

  /** The first n links. */
  ghost function View(ll16: seq<int>, ll4: seq<int>, n: nat): (v: seq<int>)
    requires n <= |ll16| <= 2 * |ll4|
    ensures |v| == n && forall i :: 0 <= i < n ==> v[i] == Link(ll16, ll4, i)
  {
    seq(n, i requires 0 <= i < n => Link(ll16, ll4, i))
  }

  method ReverseOne(ll16: array<int>, ll4: array<int>, i: int, j: int, orig: int, ghost t: seq<int>, ghost path: seq<int>) returns (next: int)
    requires ll16 != ll4 && Sized(ll16[..], ll4[..]) && |t| <= ll16.Length && |t| <= LINK_LIMIT
    requires Reversed(View(ll16[..], ll4[..], |t|), t, orig, path) && i == Last(orig, path) && (path != [] ==> i != orig)
    requires 0 <= i < |t| && j == t[i]
    modifies ll16, ll4
    ensures Sized(ll16[..], ll4[..]) && next == t[j]
    ensures Reversed(View(ll16[..], ll4[..], |t|), t, orig, path + [j])
  {
    ghost var v := View(ll16[..], ll4[..], |t|);
    ReverseStep(v, t, orig, path);
    next := GetLink(ll16, ll4, j);
    SetLink(ll16, ll4, j, i);
    assert View(ll16[..], ll4[..], |t|) == v[j := i];
  }

  /** Pointer reversal on T, starting and ending at orig. */
  method Reverse(ll16: array<int>, ll4: array<int>, orig: int, ghost t: seq<int>) returns (ghost path: seq<int>)
    requires ll16 != ll4 && Sized(ll16[..], ll4[..]) && |t| <= ll16.Length && |t| <= LINK_LIMIT
    requires IsPerm(t) && 0 <= orig < |t| && View(ll16[..], ll4[..], |t|) == t
    modifies ll16, ll4
    ensures Sized(ll16[..], ll4[..]) && path != [] && Last(orig, path) == orig
    ensures Reversed(View(ll16[..], ll4[..], |t|), t, orig, path)
  {
    path := [];
    var i := orig;
    var j := GetLink(ll16, ll4, i);
    var next := ReverseOne(ll16, ll4, i, j, orig, t, path);
    path := path + [j];
    i, j := j, next;
    TrailShort(t, orig, path);
    while i != orig
      invariant Sized(ll16[..], ll4[..]) && Reversed(View(ll16[..], ll4[..], |t|), t, orig, path)
      invariant path != [] && i == Last(orig, path) && j == t[i] && |path| <= |t|
      decreases |t| - |path|
    {
      next := ReverseOne(ll16, ll4, i, j, orig, t, path);
      path := path + [j];
      i, j := j, next;
      TrailShort(t, orig, path);
    }
  }

  /** On the reversed cycle the links are T^(-1), and following them stays on it. */
  lemma OnCycle(link: seq<int>, t: seq<int>, orig: int, path: seq<int>, y: int)
    requires Reversed(link, t, orig, path) && path != [] && Last(orig, path) == orig && y in path
    ensures 0 <= y < |t| && link[y] in path && 0 <= link[y] < |t| && t[link[y]] == y
  {
    var l :| 0 <= l < |path| && path[l] == y;
    if l == 0 {
      assert path[|path| - 1] == orig;
    } else {
      var m := l - 1;
      assert link[path[l]] == path[m];
    }
  }

  /** BZ2_indexIntoF. */
  method IndexIntoF(indx: int, cftab: array<int>, ghost col: seq<byte>) returns (nb: byte)
    requires Cumulative(cftab[..], col) && 0 <= indx < |col|
    ensures Smaller(col, nb) <= indx < Smaller(col, nb as int + 1)
  {
    TablesSane(col);
    var lo, na := 0, 256;
    while na - lo != 1
      invariant 0 <= lo < na <= 256 && cftab[lo] <= indx < cftab[na]
      decreases na - lo
    {
      var mid := (lo + na) / 2;
      if indx >= cftab[mid] { lo := mid; } else { na := mid; }
    }
    nb := lo;
  }

  /** The byte of sorted place x is the one that T^(-1) leads to. */
  lemma PlaceByte(col: seq<byte>, x: int, i: int, c: byte)
    requires 0 <= i < |col| && Slot(col, i) == x && Smaller(col, c) <= x < Smaller(col, c as int + 1)
    ensures col[i] == c
  {
    SlotRange(col, i, 256);
    if col[i] < c {
      SmallerMono(col, col[i] as int + 1, c);
    } else if c < col[i] {
      SmallerMono(col, c as int + 1, col[i]);
    }
  }
}
