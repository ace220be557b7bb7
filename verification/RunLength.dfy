/**
 * The first stage: runs of 4 to 255 equal bytes become four bytes and a count. The decoder
 * counts equal bytes as it reads; runs in one block are such that it finds them again.
 */
module RunLength {
  import opened Bits
  import opened Mtf
  import opened Rotations

  datatype Run = Run(ch: byte, len: nat)

  /** What add_pair_to_block stores for a run. */
  function Stored(r: Run): (s: seq<byte>)
    requires 1 <= r.len <= 255
    ensures 1 <= |s| <= 5
  {
    if r.len < 4 then Repeat(r.ch, r.len) else Repeat(r.ch, 4) + [r.len - 4]
  }

  function Expanded(r: Run): seq<byte> {
    Repeat(r.ch, r.len)
  }

  /** Lengths fit a byte, and a run is only followed by one of the same byte when it is full. */
  ghost predicate Runs(rs: seq<Run>) {
    && (forall i :: 0 <= i < |rs| ==> 1 <= rs[i].len <= 255)
    && (forall i, j :: 0 <= i < j < |rs| && j <= i + 1 && rs[i].ch == rs[j].ch ==> rs[i].len == 255)
  }

  function StoredAll(rs: seq<Run>): seq<byte>
    requires forall i :: 0 <= i < |rs| ==> 1 <= rs[i].len <= 255
  {
    if rs == [] then [] else StoredAll(rs[..|rs| - 1]) + Stored(rs[|rs| - 1])
  }

  function ExpandedAll(rs: seq<Run>): seq<byte> {
    if rs == [] then [] else ExpandedAll(rs[..|rs| - 1]) + Expanded(rs[|rs| - 1])
  }

  /** What unRLE makes of the first n of the bytes w, from position pos on, and whether it ends exactly at n. */
  datatype Undone = Undone(out: seq<byte>, ok: bool)

  function Prepend(s: seq<byte>, u: Undone): Undone {
    Undone(s + u.out, u.ok)
  }

  /** How many equal bytes start at pos, looking at no more than four. */
  function Same(w: seq<byte>, n: nat, pos: nat): (k: nat)
    requires pos < n && n + 2 <= |w|
    ensures 1 <= k <= 4 && pos + k <= n && forall i :: pos <= i < pos + k ==> w[i] == w[pos]
    ensures k < 4 ==> pos + k == n || w[pos + k] != w[pos]
  {
    if pos + 1 == n || w[pos + 1] != w[pos] then 1
    else if pos + 2 == n || w[pos + 2] != w[pos] then 2
    else if pos + 3 == n || w[pos + 3] != w[pos] then 3
    else 4
  }

  function UnRle(w: seq<byte>, n: nat, pos: nat): Undone
    requires n + 2 <= |w|
    decreases n - pos
  {
    if pos >= n then Undone([], pos == n)
    else
      var k := Same(w, n, pos);
      if k < 4 then Prepend(Repeat(w[pos], k), UnRle(w, n, pos + k))
      else Prepend(Repeat(w[pos], w[pos + 4] as int + 4), UnRle(w, n, pos + 5))
  }

  /** What is stored for rs[k..]. */
  function StoredTail(rs: seq<Run>, k: nat): seq<byte>
    requires k <= |rs| && forall i :: 0 <= i < |rs| ==> 1 <= rs[i].len <= 255
    decreases |rs| - k
  {
    if k == |rs| then [] else Stored(rs[k]) + StoredTail(rs, k + 1)
  }

  lemma {:induction false} StoredSplit(rs: seq<Run>, k: nat)
    requires k <= |rs| && forall i :: 0 <= i < |rs| ==> 1 <= rs[i].len <= 255
    ensures StoredAll(rs[..k]) + StoredTail(rs, k) == StoredAll(rs)
    decreases |rs| - k
  {
    if k == |rs| {
      assert rs[..k] == rs;
    } else {
      StoredSplit(rs, k + 1);
      assert rs[..k + 1][..k] == rs[..k];
      Regrouped(StoredAll(rs[..k]), Stored(rs[k]), StoredTail(rs, k + 1));
    }
  }

  /** Runs rs[k..] are stored from pos on. */
  ghost predicate StoredFrom(w: seq<byte>, n: nat, rs: seq<Run>, k: nat, pos: nat) {
    n + 2 <= |w| && k <= |rs| && Runs(rs) && pos <= n && w[pos..n] == StoredTail(rs, k)
  }

  lemma Peel(w: seq<byte>, n: nat, pos: nat, a: seq<byte>, rest: seq<byte>)
    requires pos <= n <= |w| && w[pos..n] == a + rest
    ensures pos + |a| <= n && w[pos..pos + |a|] == a && w[pos + |a|..n] == rest
  {
    assert w[pos..n][..|a|] == w[pos..pos + |a|] && w[pos..n][|a|..] == w[pos + |a|..n];
  }

  /** The run is where it should be, and the others after it. */
  lemma RunAt(w: seq<byte>, n: nat, rs: seq<Run>, k: nat, pos: nat) returns (next: nat)
    requires StoredFrom(w, n, rs, k, pos) && k < |rs|
    ensures next == pos + |Stored(rs[k])| <= n && w[pos..next] == Stored(rs[k]) && StoredFrom(w, n, rs, k + 1, next)
  {
    Peel(w, n, pos, Stored(rs[k]), StoredTail(rs, k + 1));
    next := pos + |Stored(rs[k])|;
  }

  lemma StoredFirst(r: Run, w: seq<byte>, pos: nat, next: nat)
    requires 1 <= r.len <= 255 && pos <= next <= |w| && w[pos..next] == Stored(r)
    ensures pos < next && w[pos] == r.ch
  {
    assert w[pos..next][0] == w[pos];
  }

  lemma StoredShort(r: Run, w: seq<byte>, pos: nat)
    requires 1 <= r.len < 4 && pos + r.len <= |w| && w[pos..pos + r.len] == Stored(r)
    ensures w[pos] == r.ch && (r.len > 1 ==> w[pos + 1] == r.ch) && (r.len > 2 ==> w[pos + 2] == r.ch)
  {
    var s := w[pos..pos + r.len];
    assert s[0] == r.ch;
    assert r.len > 1 ==> s[1] == r.ch;
    assert r.len > 2 ==> s[2] == r.ch;
  }

  lemma StoredLong(r: Run, w: seq<byte>, pos: nat)
    requires 4 <= r.len <= 255 && pos + 5 <= |w| && w[pos..pos + 5] == Stored(r)
    ensures w[pos] == w[pos + 1] == w[pos + 2] == w[pos + 3] == r.ch && w[pos + 4] == r.len - 4
  {
    var s := w[pos..pos + 5];
    assert s[0] == r.ch && s[1] == r.ch && s[2] == r.ch && s[3] == r.ch && s[4] == r.len - 4;
  }

  /** What follows a short run is not its byte. */
  lemma NextDiffers(w: seq<byte>, n: nat, rs: seq<Run>, k: nat, next: nat)
    requires k < |rs| && StoredFrom(w, n, rs, k + 1, next) && rs[k].len < 4
    ensures next == n || w[next] != rs[k].ch
  {
    if k + 1 < |rs| {
      var after := RunAt(w, n, rs, k + 1, next);
      StoredFirst(rs[k + 1], w, next, after);
      assert rs[k].ch != rs[k + 1].ch;
    } else {
      assert |w[next..n]| == 0;
    }
  }

  /** One step of the decoder, over a run of fewer than four bytes and over a longer one. */
  lemma UnRleShort(w: seq<byte>, n: nat, pos: nat, r: Run)
    requires n + 2 <= |w| && 1 <= r.len < 4 && pos + r.len <= n
    requires w[pos] == r.ch && (r.len > 1 ==> w[pos + 1] == r.ch) && (r.len > 2 ==> w[pos + 2] == r.ch)
    requires pos + r.len == n || w[pos + r.len] != r.ch
    ensures UnRle(w, n, pos) == Prepend(Expanded(r), UnRle(w, n, pos + r.len))
  {
    assert Same(w, n, pos) == r.len;
  }

  lemma UnRleLong(w: seq<byte>, n: nat, pos: nat, r: Run)
    requires n + 2 <= |w| && 4 <= r.len <= 255 && pos + 5 <= n
    requires w[pos] == w[pos + 1] == w[pos + 2] == w[pos + 3] == r.ch && w[pos + 4] == r.len - 4
    ensures UnRle(w, n, pos) == Prepend(Expanded(r), UnRle(w, n, pos + 5))
  {
    assert Same(w, n, pos) == 4;
  }

  /** The decoder sees exactly the run that was stored. */
  lemma OneRun(w: seq<byte>, n: nat, rs: seq<Run>, k: nat, pos: nat) returns (next: nat)
    requires StoredFrom(w, n, rs, k, pos) && k < |rs|
    ensures StoredFrom(w, n, rs, k + 1, next)
    ensures UnRle(w, n, pos) == Prepend(Expanded(rs[k]), UnRle(w, n, next))
  {
    next := RunAt(w, n, rs, k, pos);
    var r := rs[k];
    if r.len < 4 {
      StoredShort(r, w, pos);
      NextDiffers(w, n, rs, k, next);
      UnRleShort(w, n, pos, r);
    } else {
      StoredLong(r, w, pos);
      UnRleLong(w, n, pos, r);
    }
  }

  function ExpandedFrom(rs: seq<Run>, k: nat): seq<byte>
    requires k <= |rs|
    decreases |rs| - k
  {
    if k == |rs| then [] else Expanded(rs[k]) + ExpandedFrom(rs, k + 1)
  }

  lemma {:induction false} ExpandedSplit(rs: seq<Run>, k: nat)
    requires k <= |rs|
    ensures ExpandedAll(rs[..k]) + ExpandedFrom(rs, k) == ExpandedAll(rs)
    decreases |rs| - k
  {
    if k == |rs| {
      assert rs[..k] == rs;
    } else {
      ExpandedSplit(rs, k + 1);
      assert rs[..k + 1][..k] == rs[..k];
      Regrouped(ExpandedAll(rs[..k]), Expanded(rs[k]), ExpandedFrom(rs, k + 1));
    }
  }

  lemma AtEnd(w: seq<byte>, n: nat, rs: seq<Run>, pos: nat)
    requires StoredFrom(w, n, rs, |rs|, pos)
    ensures UnRle(w, n, pos) == Undone([], true)
  {
    assert |w[pos..n]| == 0;
  }

  lemma Chain(u: Undone, v: Undone, rs: seq<Run>, k: nat)
    requires k < |rs| && u == Prepend(Expanded(rs[k]), v) && v == Undone(ExpandedFrom(rs, k + 1), true)
    ensures u == Undone(ExpandedFrom(rs, k), true)
  {
  }

  /** The decoder expands stored runs, whatever bytes come after the n it may look at. */
  lemma {:induction false} UnRleStored(w: seq<byte>, n: nat, rs: seq<Run>, k: nat, pos: nat)
    requires StoredFrom(w, n, rs, k, pos)
    ensures UnRle(w, n, pos) == Undone(ExpandedFrom(rs, k), true)
    decreases |rs| - k
  {
    if k == |rs| {
      AtEnd(w, n, rs, pos);
    } else {
      var next := OneRun(w, n, rs, k, pos);
      UnRleStored(w, n, rs, k + 1, next);
      Chain(UnRle(w, n, pos), UnRle(w, n, next), rs, k);
    }
  }

  /** Storing and expanding again gives the bytes of the runs. */
  lemma RoundTripRuns(w: seq<byte>, rs: seq<Run>)
    requires Runs(rs) && |w| == |StoredAll(rs)| + 2 && w[..|StoredAll(rs)|] == StoredAll(rs)
    ensures UnRle(w, |StoredAll(rs)|, 0) == Undone(ExpandedAll(rs), true)
  {
    assert rs[..0] == [];
    StoredSplit(rs, 0);
    assert StoredTail(rs, 0) == StoredAll(rs) == w[0..|StoredAll(rs)|];
    UnRleStored(w, |StoredAll(rs)|, rs, 0, 0);
    ExpandedSplit(rs, 0);
    assert [] + ExpandedFrom(rs, 0) == ExpandedFrom(rs, 0);
  }
}
