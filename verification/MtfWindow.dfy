/**
 * The decoder's sliding-window move-to-front list: sixteen sections of sixteen bytes that
 * drift down through a 4096-byte array and are rebuilt at its top when they reach the bottom.
 */
module MtfWindow {
  import opened Rotations
  import opened Mtf
  import MtfEncoder

  const MTFA_SIZE: nat := 4096
  const MTFL_SIZE: nat := 16
  const SECTIONS: nat := 16

  /** Sections lie in order and never overlap. */
  ghost predicate Apart(b: seq<int>) {
    && |b| == SECTIONS && 0 <= b[0] && b[15] + 16 <= MTFA_SIZE
    && forall i, j :: 0 <= i < j < SECTIONS ==> b[i] + 16 * (j - i) <= b[j]
  }

  lemma InBounds(b: seq<int>, i: int)
    requires Apart(b) && 0 <= i < SECTIONS
    ensures b[0] + 16 * i <= b[i] <= 3840 + 16 * i
  {
  }

  ghost function View(a: seq<byte>, b: seq<int>): (l: seq<byte>)
    requires |a| == MTFA_SIZE && Apart(b)
    ensures |l| == 256
  {
    seq(256, k requires 0 <= k < 256 => InBounds(b, k / 16); a[b[k / 16] + k % 16])
  }

  /** Cells lo..hi moved up by one; lo keeps its old value. */
  ghost predicate Shifted(a: seq<byte>, c: seq<byte>, lo: int, hi: int) {
    && |c| == |a| && 0 <= lo <= hi < |a|
    && (forall x :: 0 <= x < |a| && !(lo < x <= hi) ==> c[x] == a[x])
    && (forall x :: lo < x <= hi ==> c[x] == a[x - 1])
  }

  /** Section starts while section t, one byte short, waits for its neighbour's last byte. */
  ghost predicate Drifted(b: seq<int>, d: seq<int>, l: int, t: int) {
    && Apart(b) && |d| == SECTIONS && 0 <= t <= l < SECTIONS && 1 <= b[0]
    && forall i :: 0 <= i < SECTIONS ==> d[i] == if t < i < l then b[i] - 1 else if i == l == t then b[i] + 1 else b[i]
  }

  /** Where byte k of the other 255 lies meanwhile. */
  ghost function Cell(d: seq<int>, t: int, k: int): int
    requires |d| == SECTIONS && 0 <= t < SECTIONS && 0 <= k < 255
  {
    if k < 16 * t + 15 then d[k / 16] + k % 16 else d[(k + 1) / 16] + (k + 1) % 16
  }

  lemma CellBounds(b: seq<int>, d: seq<int>, l: int, t: int, k: int)
    requires Drifted(b, d, l, t) && 0 <= k < 255
    ensures 0 <= Cell(d, t, k) < MTFA_SIZE
  {
    InBounds(b, k / 16);
    InBounds(b, (k + 1) / 16);
  }

  ghost predicate Holds(c: seq<byte>, b: seq<int>, d: seq<int>, l: int, t: int, v: seq<byte>) {
    && |c| == MTFA_SIZE && Drifted(b, d, l, t) && |v| == 255
    && forall k :: 0 <= k < 255 ==> 0 <= Cell(d, t, k) < MTFA_SIZE && c[Cell(d, t, k)] == v[k]
  }

  /** Handing a byte over moves that byte only, into a cell no other byte uses. */
  lemma CellStep(b: seq<int>, d: seq<int>, l: int, t: int, k: int)
    requires Drifted(b, d, l, t) && 1 <= t && 0 <= k < 255
    ensures Drifted(b, d[t := d[t] - 1], l, t - 1) && 0 <= d[t] - 1 < MTFA_SIZE && 0 <= d[t - 1] + 15 < MTFA_SIZE
    ensures var x := Cell(d[t := d[t] - 1], t - 1, k);
            if k == 16 * t - 1 then x == d[t] - 1 && Cell(d, t, k) == d[t - 1] + 15
            else x == Cell(d, t, k) && x != d[t] - 1
  {
    InBounds(b, t);
    InBounds(b, t - 1);
    assert d[t - 1] + 15 < d[t];
    if k < 16 * t - 1 {
      assert k / 16 < t && (k / 16 < t - 1 ==> d[k / 16] + 16 <= d[t - 1]);
    } else if k >= 16 * t + 15 {
      assert (k + 1) / 16 > t && d[t] <= d[(k + 1) / 16];
    }
  }

  lemma RippleStep(c: seq<byte>, b: seq<int>, d: seq<int>, l: int, t: int, v: seq<byte>)
    requires Holds(c, b, d, l, t, v) && 1 <= t
    ensures 0 <= d[t] - 1 < MTFA_SIZE && 0 <= d[t - 1] + 15 < MTFA_SIZE
    ensures Holds(c[d[t] - 1 := c[d[t - 1] + 15]], b, d[t := d[t] - 1], l, t - 1, v)
  {
    CellStep(b, d, l, t, 0);
    var c', d' := c[d[t] - 1 := c[d[t - 1] + 15]], d[t := d[t] - 1];
    forall k | 0 <= k < 255
      ensures 0 <= Cell(d', t - 1, k) < MTFA_SIZE && c'[Cell(d', t - 1, k)] == v[k]
    {
      CellStep(b, d, l, t, k);
      assert c[Cell(d, t, k)] == v[k];
    }
  }

  /** Taking byte 16 * l + off out of its section leaves the other 255 in place. */
  lemma TakenOut(a: seq<byte>, c: seq<byte>, b: seq<int>, l: int, off: int)
    requires |a| == MTFA_SIZE && Apart(b) && 1 <= b[0] && 0 <= l < SECTIONS && 0 <= off < 16
    requires Shifted(a, c, b[l], b[l] + off)
    ensures var n := 16 * l + off;
            Holds(c, b, b[l := b[l] + 1], l, l, View(a, b)[..n] + View(a, b)[n + 1..])
  {
    var n, d := 16 * l + off, b[l := b[l] + 1];
    var w := View(a, b);
    forall k | 0 <= k < 255
      ensures 0 <= Cell(d, l, k) < MTFA_SIZE && c[Cell(d, l, k)] == (w[..n] + w[n + 1..])[k]
    {
      CellBounds(b, d, l, l, k);
      var i := if k < n then k else k + 1;
      TakenCell(b, d, l, off, k);
      assert w[i] == a[b[i / 16] + i % 16];
    }
  }

  lemma TakenCell(b: seq<int>, d: seq<int>, l: int, off: int, k: int)
    requires Apart(b) && 1 <= b[0] && 0 <= l < SECTIONS && 0 <= off < 16 && d == b[l := b[l] + 1] && 0 <= k < 255
    ensures var n := 16 * l + off;
            var i := if k < n then k else k + 1;
            var x := Cell(d, l, k);
            if b[l] < x <= b[l] + off then b[i / 16] + i % 16 == x - 1 else b[i / 16] + i % 16 == x
  {
    if k < 16 * l {
      assert b[k / 16] + 16 <= b[l];
    } else if k >= 16 * l + 15 {
      assert b[l] + 16 <= b[(k + 1) / 16];
    }
  }

  /** Putting the byte in front completes the list again. */
  lemma PutFront(c: seq<byte>, b: seq<int>, d: seq<int>, l: int, v: seq<byte>, uc: byte)
    requires Holds(c, b, d, l, 0, v)
    ensures 0 <= d[0] - 1 < MTFA_SIZE && Apart(d[0 := d[0] - 1])
    ensures View(c[d[0] - 1 := uc], d[0 := d[0] - 1]) == [uc] + v
  {
    var c', e := c[d[0] - 1 := uc], d[0 := d[0] - 1];
    forall k | 0 <= k < 255
      ensures View(c', e)[k + 1] == v[k]
    {
      assert c[Cell(d, 0, k)] == v[k];
      if k >= 15 {
        assert d[0] < d[(k + 1) / 16];
      }
    }
  }

  /** The list entries from k on have been copied to the top of the array. */
  ghost predicate Rebuilding(a: seq<byte>, b: seq<int>, c: seq<byte>, k: int) {
    && |a| == |c| == MTFA_SIZE && Apart(b) && 0 <= k <= 256
    && (forall x :: 0 <= x < 3840 + k ==> c[x] == a[x])
    && (forall i :: k <= i < 256 ==> c[3840 + i] == View(a, b)[i])
  }

  lemma RebuildStep(a: seq<byte>, b: seq<int>, c: seq<byte>, ii: int, jj: int)
    requires Rebuilding(a, b, c, 16 * ii + jj + 1) && 0 <= ii < SECTIONS && 0 <= jj < 16
    ensures 0 <= b[ii] + jj < MTFA_SIZE
    ensures Rebuilding(a, b, c[3840 + 16 * ii + jj := c[b[ii] + jj]], 16 * ii + jj)
  {
    var k := 16 * ii + jj;
    InBounds(b, ii);
    assert k / 16 == ii && k % 16 == jj;
    assert View(a, b)[k] == a[b[ii] + jj];
  }

  lemma NearIs(a: seq<byte>, b: seq<int>, c: seq<byte>, e: seq<byte>, nn: int, uc: byte)
    requires |a| == MTFA_SIZE && Apart(b) && 0 <= nn < 16 && Shifted(a, c, b[0], b[0] + nn)
    requires uc == a[b[0] + nn] && e == c[b[0] := uc]
    ensures View(e, b) == MoveToFront(View(a, b), nn)
  {
    var w := View(a, b);
    forall k | 0 <= k < 256
      ensures View(e, b)[k] == MoveToFront(w, nn)[k]
    {
      if k >= 16 {
        assert b[0] + 16 <= b[k / 16];
      }
    }
  }

  lemma RanksFront(used: seq<byte>, w: seq<byte>, nn: int)
    requires |used| <= |w| && 0 <= nn < |used| && forall k :: 0 <= k < |used| ==> w[k] < |used|
    ensures forall k :: 0 <= k < |used| ==> MoveToFront(w, nn)[k] < |used|
    ensures MtfEncoder.Bytes(used, MoveToFront(w, nn)[..|used|]) == MoveToFront(MtfEncoder.Bytes(used, w[..|used|]), nn)
  {
  }

  class Window {
    const mtfa: array<byte>
    const mtfbase: array<int>

    ghost predicate Valid()
      reads this, mtfa, mtfbase
    {
      mtfa.Length == MTFA_SIZE && mtfbase.Length == SECTIONS && Apart(mtfbase[..]) && 1 <= mtfbase[0]
    }

    ghost function List(): seq<byte>
      requires Valid()
      reads this, mtfa, mtfbase
    {
      View(mtfa[..], mtfbase[..])
    }

    /** MTF init. */
    constructor ()
      ensures Valid() && fresh(mtfa) && fresh(mtfbase)
      ensures forall k :: 0 <= k < 256 ==> List()[k] == k
    {
      mtfa, mtfbase := new byte[MTFA_SIZE], new int[SECTIONS];
      new;
      var kk := MTFA_SIZE - 1;
      for ii := SECTIONS downto 0
        invariant kk == 3840 + 16 * ii - 1
        invariant forall x :: 3840 + 16 * ii <= x < MTFA_SIZE ==> mtfa[x] == x - 3840
        invariant forall i :: ii <= i < SECTIONS ==> mtfbase[i] == 3840 + 16 * i
      {
        for jj := MTFL_SIZE downto 0
          invariant kk == 3840 + 16 * ii + jj - 1
          invariant forall x :: 3840 + 16 * ii + jj <= x < MTFA_SIZE ==> mtfa[x] == x - 3840
          invariant forall i :: ii < i < SECTIONS ==> mtfbase[i] == 3840 + 16 * i
        {
          mtfa[kk] := ii * MTFL_SIZE + jj;
          kk := kk - 1;
        }
        mtfbase[ii] := kk + 1;
      }
    }

    /** mtfa[lo + 1 .. hi] take the values one cell below. */
    method ShiftUp(lo: int, hi: int)
      requires 0 <= lo <= hi < mtfa.Length
      modifies mtfa
      ensures Shifted(old(mtfa[..]), mtfa[..], lo, hi)
    {
      var pp := hi;
      while pp > lo
        invariant lo <= pp <= hi
        invariant forall x :: 0 <= x < mtfa.Length && !(pp < x <= hi) ==> mtfa[x] == old(mtfa[x])
        invariant forall x :: pp < x <= hi ==> mtfa[x] == old(mtfa[x - 1])
      {
        mtfa[pp] := mtfa[pp - 1];
        pp := pp - 1;
      }
    }

    /** The first section's shift, four cells at a time and then singly. */
    method ShiftUpByFour(lo: int, n: int)
      requires 0 <= lo && 0 <= n && lo + n < mtfa.Length
      modifies mtfa
      ensures Shifted(old(mtfa[..]), mtfa[..], lo, lo + n)
    {
      var nn := n;
      while nn > 3
        invariant 0 <= nn <= n
        invariant forall x :: 0 <= x < mtfa.Length && !(lo + nn < x <= lo + n) ==> mtfa[x] == old(mtfa[x])
        invariant forall x :: lo + nn < x <= lo + n ==> mtfa[x] == old(mtfa[x - 1])
      {
        var z := lo + nn;
        mtfa[z] := mtfa[z - 1];
        mtfa[z - 1] := mtfa[z - 2];
        mtfa[z - 2] := mtfa[z - 3];
        mtfa[z - 3] := mtfa[z - 4];
        nn := nn - 4;
      }
      while nn > 0
        invariant 0 <= nn <= n
        invariant forall x :: 0 <= x < mtfa.Length && !(lo + nn < x <= lo + n) ==> mtfa[x] == old(mtfa[x])
        invariant forall x :: lo + nn < x <= lo + n ==> mtfa[x] == old(mtfa[x - 1])
      {
        mtfa[lo + nn] := mtfa[lo + nn - 1];
        nn := nn - 1;
      }
    }

    /** Each section from l down to 1 takes over the last byte of the section before it. */
    method Ripple(l: int, ghost b: seq<int>, ghost v: seq<byte>)
      requires mtfa.Length == MTFA_SIZE && mtfbase.Length == SECTIONS && Holds(mtfa[..], b, mtfbase[..], l, l, v)
      modifies mtfa, mtfbase
      ensures Holds(mtfa[..], b, mtfbase[..], l, 0, v)
    {
      var lno := l;
      while lno > 0
        invariant 0 <= lno <= l && Holds(mtfa[..], b, mtfbase[..], l, lno, v)
      {
        ghost var c, d := mtfa[..], mtfbase[..];
        RippleStep(c, b, d, l, lno, v);
        mtfbase[lno] := mtfbase[lno] - 1;
        mtfa[mtfbase[lno]] := mtfa[mtfbase[lno - 1] + MTFL_SIZE - 1];
        assert mtfa[..] == c[d[lno] - 1 := c[d[lno - 1] + 15]] && mtfbase[..] == d[lno := d[lno] - 1];
        lno := lno - 1;
      }
    }

    /** nn < 16: only the first section changes. */
    method TakeNear(nn: int) returns (uc: byte)
      requires Valid() && 0 <= nn < MTFL_SIZE
      modifies mtfa
      ensures Valid() && uc == old(List())[nn] && List() == MoveToFront(old(List()), nn)
    {
      ghost var a, b := mtfa[..], mtfbase[..];
      InBounds(b, 0);
      var pp := mtfbase[0];
      uc := mtfa[pp + nn];
      ShiftUpByFour(pp, nn);
      ghost var c := mtfa[..];
      mtfa[pp] := uc;
      NearIs(a, b, c, mtfa[..], nn, uc);
    }

    /** The byte goes in front of the first section. */
    method PlaceFront(uc: byte, ghost b: seq<int>, ghost lno: int, ghost v: seq<byte>)
      requires mtfa.Length == MTFA_SIZE && mtfbase.Length == SECTIONS && Holds(mtfa[..], b, mtfbase[..], lno, 0, v)
      modifies mtfa, mtfbase
      ensures Apart(mtfbase[..]) && View(mtfa[..], mtfbase[..]) == [uc] + v
    {
      ghost var c, d := mtfa[..], mtfbase[..];
      PutFront(c, b, d, lno, v, uc);
      mtfbase[0] := mtfbase[0] - 1;
      mtfa[mtfbase[0]] := uc;
      assert mtfa[..] == c[d[0] - 1 := uc] && mtfbase[..] == d[0 := d[0] - 1];
    }

    /** nn >= 16: a byte leaves its section and every section before it shifts by one. */
    method TakeFar(nn: int) returns (uc: byte)
      requires Valid() && MTFL_SIZE <= nn < 256
      modifies mtfa, mtfbase
      ensures Valid() && uc == old(List())[nn] && List() == MoveToFront(old(List()), nn)
    {
      ghost var a, b := mtfa[..], mtfbase[..];
      ghost var w := View(a, b);
      var lno, off := nn / MTFL_SIZE, nn % MTFL_SIZE;
      InBounds(b, lno);
      var pp := mtfbase[lno] + off;
      uc := mtfa[pp];
      ShiftUp(mtfbase[lno], pp);
      TakenOut(a, mtfa[..], b, lno, off);
      mtfbase[lno] := mtfbase[lno] + 1;
      assert mtfbase[..] == b[lno := b[lno] + 1];
      ghost var v := w[..nn] + w[nn + 1..];
      Ripple(lno, b, v);
      PlaceFront(uc, b, lno, v);
      assert [uc] + v == MoveToFront(w, nn);
      if mtfbase[0] == 0 {
        Rebuild();
      }
    }

    /** Returns the byte at position nn and moves it to the front. */
    method Take(nn: int) returns (uc: byte)
      requires Valid() && 0 <= nn < 256
      modifies mtfa, mtfbase
      ensures Valid() && uc == old(List())[nn] && List() == MoveToFront(old(List()), nn)
    {
      if nn < MTFL_SIZE {
        uc := TakeNear(nn);
      } else {
        uc := TakeFar(nn);
      }
    }

    /** The bytes in use that the first ranks of the list stand for. */
    ghost predicate Shows(used: seq<byte>)
      requires Valid()
      reads this, mtfa, mtfbase
    {
      |used| <= 256 && forall k :: 0 <= k < |used| ==> List()[k] < |used|
    }

    ghost function Shown(used: seq<byte>): seq<byte>
      requires Valid() && Shows(used)
      reads this, mtfa, mtfbase
    {
      MtfEncoder.Bytes(used, List()[..|used|])
    }

    /** Decoding a position to a byte in use is plain move-to-front on the list of those bytes. */
    method TakeByte(used: seq<byte>, nn: int) returns (c: byte)
      requires Valid() && Shows(used) && 0 <= nn < |used|
      modifies mtfa, mtfbase
      ensures Valid() && Shows(used) && c == old(Shown(used))[nn] && Shown(used) == MoveToFront(old(Shown(used)), nn)
    {
      RanksFront(used, List(), nn);
      var uc := Take(nn);
      c := used[uc];
    }

    /** The front of the list. */
    method First() returns (uc: byte)
      requires Valid()
      ensures uc == List()[0]
    {
      InBounds(mtfbase[..], 0);
      uc := mtfa[mtfbase[0]];
    }

    /** Copies all sections to the top of the array. */
    method Rebuild()
      requires mtfa.Length == MTFA_SIZE && mtfbase.Length == SECTIONS && Apart(mtfbase[..])
      modifies mtfa, mtfbase
      ensures Valid() && List() == old(View(mtfa[..], mtfbase[..]))
    {
      ghost var a, b := mtfa[..], mtfbase[..];
      var kk := MTFA_SIZE - 1;
      for ii := SECTIONS downto 0
        invariant kk == 3840 + 16 * ii - 1 && Rebuilding(a, b, mtfa[..], 16 * ii)
        invariant forall i :: 0 <= i < ii ==> mtfbase[i] == b[i]
        invariant forall i :: ii <= i < SECTIONS ==> mtfbase[i] == 3840 + 16 * i
      {
        kk := RebuildSection(a, b, ii, kk);
        mtfbase[ii] := kk + 1;
      }
      assert List() == View(a, b);
    }

    method RebuildSection(ghost a: seq<byte>, ghost b: seq<int>, ii: int, kk0: int) returns (kk: int)
      requires mtfbase.Length == SECTIONS && mtfa.Length == MTFA_SIZE && 0 <= ii < SECTIONS && kk0 == 3840 + 16 * ii + 15
      requires Rebuilding(a, b, mtfa[..], 16 * ii + 16) && mtfbase[ii] == b[ii]
      modifies mtfa
      ensures kk == 3840 + 16 * ii - 1 && Rebuilding(a, b, mtfa[..], 16 * ii)
    {
      kk := kk0;
      for jj := MTFL_SIZE downto 0
        invariant kk == 3840 + 16 * ii + jj - 1 && Rebuilding(a, b, mtfa[..], 16 * ii + jj)
      {
        ghost var c := mtfa[..];
        RebuildStep(a, b, c, ii, jj);
        mtfa[kk] := mtfa[mtfbase[ii] + jj];
        assert mtfa[..] == c[3840 + 16 * ii + jj := c[b[ii] + jj]];
        kk := kk - 1;
      }
    }
  }
}
