/** The open block and the run that has not been added to it yet: ADD_CHAR_TO_BLOCK and its helpers. */
module RunBuffer {
  import opened Alphabet
  import opened Crc
  import opened Mtf
  import opened Rotations
  import opened RunLength

  /** state_in_ch when there is no pending run. */
  const NO_CHAR: int := 256

  /** Whether run r may come after the runs rs of a block. */
  ghost predicate MayFollow(rs: seq<Run>, r: Run) {
    1 <= r.len <= 255 && (rs != [] && rs[|rs| - 1].ch == r.ch ==> rs[|rs| - 1].len == 255)
  }

  lemma RunsMore(rs: seq<Run>, r: Run)
    requires Runs(rs) && MayFollow(rs, r)
    ensures Runs(rs + [r])
  {
  }

  lemma StoredMore(rs: seq<Run>, r: Run)
    requires 1 <= r.len <= 255 && (forall i :: 0 <= i < |rs| ==> 1 <= rs[i].len <= 255) && forall i :: 0 <= i < |rs| + 1 ==> 1 <= (rs + [r])[i].len <= 255
    ensures StoredAll(rs + [r]) == StoredAll(rs) + Stored(r) && ExpandedAll(rs + [r]) == ExpandedAll(rs) + Expanded(r)
  {
    assert (rs + [r])[..|rs|] == rs;
  }

  ghost predicate Covered(stored: seq<byte>, inUse: usage) {
    forall x :: x in stored ==> inUse[x]
  }

  /** The block holds the runs rs, and crc is the checksum of their text; opened by a proof that mentions Runs(rs). */
  ghost predicate Holds(t: Checksum, rs: seq<Run>, stored: seq<byte>, crc: word) {
    forall q {:trigger Runs(q)} :: q == rs ==> Runs(q) && stored == StoredAll(q) && crc == Over(t, INIT, ExpandedAll(q))
  }

  lemma HoldsMore(t: Checksum, rs: seq<Run>, stored: seq<byte>, crc: word, r: Run) returns (rs': seq<Run>, stored': seq<byte>, crc': word)
    requires Holds(t, rs, stored, crc) && MayFollow(rs, r)
    ensures Holds(t, rs', stored', crc') && stored' == stored + Stored(r) && crc' == Over(t, crc, Expanded(r))
    ensures ExpandedAll(rs') == ExpandedAll(rs) + Expanded(r) && rs' != [] && rs'[|rs'| - 1] == r
  {
    assert Runs(rs);
    rs', stored', crc' := rs + [r], stored + Stored(r), Over(t, crc, Expanded(r));
    RunsMore(rs, r);
    StoredMore(rs, r);
    OverConcat(t, INIT, ExpandedAll(rs), Expanded(r));
  }

  class RunBuffer {
    const t: Checksum
    var stored: seq<byte>
    var inUse: usage
    var crc: word
    var inCh: int
    var inLen: nat
    ghost var runs: seq<Run>

    /** Pending is nothing, or a run that may follow the last one of the block. */
    ghost predicate PendingOk()
      reads this
    {
      || (inCh == NO_CHAR && inLen == 0)
      || (0 <= inCh < 256 && MayFollow(runs, Run(inCh, inLen)))
    }

    ghost predicate Valid()
      reads this
    {
      Holds(t, runs, stored, crc) && Covered(stored, inUse) && PendingOk()
    }

    /** isempty_RL. */
    predicate Empty()
      reads this
    {
      !(inCh < 256 && inLen > 0)
    }

    ghost function Pending(): seq<byte>
      reads this
      requires PendingOk()
    {
      if inCh == NO_CHAR then [] else Repeat(inCh, inLen)
    }

    /** All bytes that went in and are not in an earlier block. */
    ghost function Text(): seq<byte>
      reads this
      requires PendingOk()
    {
      ExpandedAll(runs) + Pending()
    }

    constructor (t: Checksum)
      ensures Valid() && stored == [] && runs == [] && Empty() && Text() == [] && this.t == t
    {
      this.t := t;
      stored, inUse, crc, inCh, inLen, runs := [], seq(256, _ => false), INIT, NO_CHAR, 0, [];
    }

    /** prepare_new_block; a pending run stays. */
    method NewBlock()
      requires Valid()
      modifies this
      ensures Valid() && stored == [] && runs == [] && inCh == old(inCh) && inLen == old(inLen) && Text() == old(Pending())
    {
      stored, inUse, crc, runs := [], seq(256, _ => false), INIT, [];
      assert [] + Pending() == Pending();
    }

    method UpdateCrc(ch: byte, n: nat)
      modifies this`crc
      ensures crc == Over(t, old(crc), Repeat(ch, n))
    {
      for i := 0 to n
        invariant crc == Over(t, old(crc), Repeat(ch, i))
      {
        OverOne(t, old(crc), Repeat(ch, i), ch);
        crc := t.next(crc, ch);
      }
    }

    /** The bytes that stand for the pending run. */
    method Store()
      requires 0 <= inCh < 256 && 1 <= inLen <= 255
      modifies this`stored, this`inUse
      ensures stored == old(stored) + Stored(Run(inCh, inLen))
      ensures old(Covered(stored, inUse)) ==> Covered(stored, inUse)
    {
      var ch: byte := inCh;
      inUse := inUse[inCh := true];
      if inLen < 4 {
        for i := 0 to inLen
          invariant stored == old(stored) + Repeat(ch, i) && inUse == old(inUse)[inCh := true]
        {
          assert old(stored) + Repeat(ch, i) + [ch] == old(stored) + Repeat(ch, i + 1);
          stored := stored + [ch];
        }
      } else {
        inUse := inUse[inLen - 4 := true];
        assert Repeat(ch, 4) == [ch, ch, ch, ch];
        stored := stored + [ch, ch, ch, ch, inLen - 4];
      }
    }

    /** add_pair_to_block: the pending run joins the block; it has still to be replaced. */
    method AddPair()
      requires Valid() && inCh < 256
      modifies this`stored, this`inUse, this`crc, this`runs
      ensures Holds(t, runs, stored, crc) && Covered(stored, inUse)
      ensures runs != [] && runs[|runs| - 1] == Run(inCh, inLen) && ExpandedAll(runs) == old(Text())
      ensures |old(stored)| < |stored| <= |old(stored)| + 5
    {
      ghost var r := Run(inCh, inLen);
      ghost var rs, s, c := HoldsMore(t, runs, stored, crc, r);
      Take(r);
      runs := rs;
    }

    /** Checksum and bytes of the pending run. */
    method Take(ghost r: Run)
      requires 0 <= inCh < 256 && 1 <= inLen <= 255 && Covered(stored, inUse) && r == Run(inCh, inLen)
      modifies this`stored, this`inUse, this`crc
      ensures stored == old(stored) + Stored(r) && crc == Over(t, old(crc), Expanded(r)) && Covered(stored, inUse)
    {
      UpdateCrc(inCh, inLen);
      Store();
    }

    /** flush_RL. */
    method Flush()
      requires Valid()
      modifies this
      ensures Valid() && Empty() && Text() == old(Text()) && |stored| <= |old(stored)| + 5
    {
      if inCh < 256 {
        AddPair();
      }
      inCh, inLen := NO_CHAR, 0;
      assert ExpandedAll(runs) + [] == ExpandedAll(runs);
    }

    /** The same for a run of one byte, in the fast track of ADD_CHAR_TO_BLOCK. */
    method AddSingle()
      requires Valid() && inCh < 256 && inLen == 1
      modifies this`stored, this`inUse, this`crc, this`runs
      ensures Holds(t, runs, stored, crc) && Covered(stored, inUse)
      ensures runs != [] && runs[|runs| - 1] == Run(inCh, inLen) && ExpandedAll(runs) == old(Text())
      ensures |stored| == |old(stored)| + 1
    {
      var ch: byte := inCh;
      ghost var rs, s, k := HoldsMore(t, runs, stored, crc, Run(inCh, inLen));
      OverOne(t, crc, [], ch);
      assert Repeat(ch, 1) == [ch] == [] + [ch];
      crc := t.next(crc, ch);
      inUse := inUse[ch := true];
      stored := stored + [ch];
      runs := rs;
    }

    /** A new pending run, after the old one has joined the block. */
    method Replace(c: byte, ghost text: seq<byte>)
      requires Holds(t, runs, stored, crc) && Covered(stored, inUse) && ExpandedAll(runs) == text && MayFollow(runs, Run(c, 1))
      modifies this`inCh, this`inLen
      ensures Valid() && !Empty() && Text() == text + [c]
    {
      inCh, inLen := c, 1;
      assert Repeat(c, 1) == [c];
    }

    /** ADD_CHAR_TO_BLOCK. */
    method AddChar(c: byte)
      requires Valid() && (Empty() ==> runs == [])
      modifies this
      ensures Valid() && !Empty() && Text() == old(Text()) + [c] && |old(stored)| <= |stored| <= |old(stored)| + 5
    {
      ghost var text := Text();
      if c != inCh && inLen == 1 {
        AddSingle();
        Replace(c, text);
      } else if c != inCh || inLen == 255 {
        if inCh < 256 {
          AddPair();
        } else {
          assert ExpandedAll([]) + [] == [];
        }
        Replace(c, text);
      } else {
        Lengthen();
      }
    }

    method Lengthen()
      requires Valid() && !Empty() && inLen < 255
      modifies this`inLen
      ensures Valid() && !Empty() && 0 <= inCh < 256 && Text() == old(Text()) + [inCh]
    {
      LongerRun(ExpandedAll(runs), inCh, inLen);
      inLen := inLen + 1;
    }
  }

  lemma LongerRun(e: seq<byte>, c: byte, n: nat)
    ensures e + Repeat(c, n) + [c] == e + Repeat(c, n + 1)
  {
  }
}
