/** Expanding a block into the output buffer: unRLE_obuf_to_output_FAST and _SMALL. */
module BlockOutput {
  import opened Crc
  import opened Mtf
  import opened Rotations
  import opened RunLength
  import opened Walker

  /** What starting a run at pos leads to: where the next run starts, and the length of this one. */
  ghost predicate Started(w: seq<byte>, n: nat, pos: nat, next: nat, len: nat)
    requires pos < n && n + 2 <= |w|
  {
    var k := Same(w, n, pos);
    if k < 4 then next == pos + k && len == k else next == pos + 5 && len == w[pos + 4] as int + 4
  }

  ghost function Remaining(w: seq<byte>, n: nat, pos: nat, ch: byte, len: nat): Undone
    requires n + 2 <= |w|
  {
    Prepend(Repeat(ch, len), UnRle(w, n, pos))
  }

  lemma StartKeeps(w: seq<byte>, n: nat, pos: nat, next: nat, ch: byte, len: nat)
    requires pos < n && n + 2 <= |w| && Started(w, n, pos, next, len)
    ensures Remaining(w, n, pos, ch, 0) == Remaining(w, n, next, w[pos], len)
  {
    assert Repeat(ch, 0) + UnRle(w, n, pos).out == UnRle(w, n, pos).out;
  }

  lemma OneByteOut(w: seq<byte>, n: nat, pos: nat, ch: byte, len: nat)
    requires n + 2 <= |w| && len > 0
    ensures Remaining(w, n, pos, ch, len) == Prepend([ch], Remaining(w, n, pos, ch, len - 1))
  {
    assert Repeat(ch, len) == [ch] + Repeat(ch, len - 1);
    assert [ch] + Repeat(ch, len - 1) + UnRle(w, n, pos).out == [ch] + (Repeat(ch, len - 1) + UnRle(w, n, pos).out);
  }

  lemma PrependNone(u: Undone)
    ensures Prepend([], u) == u
  {
    assert [] + u.out == u.out;
  }

  lemma PrependMore(a: seq<byte>, b: seq<byte>, u: Undone)
    ensures Prepend(a, Prepend(b, u)) == Prepend(a + b, u)
  {
    assert a + (b + u.out) == a + b + u.out;
  }

  class BlockOutput {
    const src: Walker
    const n: nat
    const t: Checksum
    var k0: byte
    var used: nat
    var ch: byte
    var len: nat
    var crc: word
    ghost const w: seq<byte>

    ghost predicate Valid()
      reads this`k0, this`used, src, src.tt, src.ll16, src.ll4, src.cftab
    {
      && src.Valid() && n == |src.col| && |w| == n + 2
      && (forall i {:trigger src.TextAt(i)} :: 0 <= i < |w| ==> w[i] == src.TextAt(i))
      && 1 <= used <= n + 2 && src.got == used && (used <= n ==> k0 == w[used - 1])
    }

    ghost function Rem(): Undone
      requires Valid()
      reads this`k0, this`used, this`ch, this`len, src, src.tt, src.ll16, src.ll4, src.cftab
    {
      Remaining(w, n, used - 1, ch, len)
    }

    constructor (src: Walker, n: nat, t: Checksum, ghost w: seq<byte>)
      requires src.Valid() && src.got == 0 && n == |src.col| && |w| == n + 2 && forall i {:trigger src.TextAt(i)} :: 0 <= i < |w| ==> w[i] == src.TextAt(i)
      modifies src
      ensures Valid() && used == 1 && len == 0 && crc == INIT && this.src == src && this.n == n && this.t == t && this.w == w
    {
      this.src, this.n, this.t, this.w := src, n, t, w;
      k0, used, ch, len, crc := 0, 0, 0, 0, INIT;
      new;
      k0 := Fetch();
    }

    ghost predicate Finished()
      reads this
    {
      used == n + 1 && len == 0
    }

    method Fetch() returns (c: byte)
      requires src.Valid() && n == |src.col| && |w| == n + 2 && (forall i {:trigger src.TextAt(i)} :: 0 <= i < |w| ==> w[i] == src.TextAt(i))
      requires used < n + 2 && src.got == used
      modifies this`used, src
      ensures src.Valid() && (forall i {:trigger src.TextAt(i)} :: 0 <= i < |w| ==> w[i] == src.TextAt(i))
      ensures used == old(used) + 1 && src.got == used && c == w[old(used)]
    {
      c := src.Fetch(n);
      used := used + 1;
    }

    /** Valid, but for k0. */
    ghost predicate Reading()
      reads this, src, src.tt, src.ll16, src.ll4, src.cftab
    {
      && src.Valid() && n == |src.col| && |w| == n + 2
      && (forall i {:trigger src.TextAt(i)} :: 0 <= i < |w| ==> w[i] == src.TextAt(i))
      && 1 <= used <= n + 2 && src.got == used
    }

    /** The fourth byte and the count, after three equal bytes at pos. */
    method Fourth(ghost pos: nat)
      requires Reading() && pos + 2 < n && used == pos + 3 && k0 == w[pos] == w[pos + 1] == w[pos + 2]
      modifies this`k0, this`used, this`len, src
      ensures Valid() && Started(w, n, pos, used - 1, len)
    {
      len := 3;
      var k1 := Fetch();
      if used == n + 1 { return; }
      if k1 != k0 { k0 := k1; return; }
      k1 := Fetch();
      len := k1 as int + 4;
      k0 := Fetch();
    }

    /** The third byte, after two equal ones. */
    method Third(ghost pos: nat)
      requires Reading() && pos + 1 < n && used == pos + 2 && k0 == w[pos] == w[pos + 1]
      modifies this`k0, this`used, this`len, src
      ensures Valid() && Started(w, n, pos, used - 1, len)
    {
      len := 2;
      var k1 := Fetch();
      if used == n + 1 { return; }
      if k1 != k0 { k0 := k1; return; }
      Fourth(pos);
    }

    /** The start of a new run, as the SMALL decompressor and both randomised ones do it. */
    method StartPlain()
      requires Valid() && len == 0 && used <= n
      modifies this`k0, this`used, this`ch, this`len, src
      ensures Valid() && Started(w, n, old(used) - 1, used - 1, len) && ch == w[old(used) - 1]
    {
      len := 1;
      ch := k0;
      var k1 := Fetch();
      if used == n + 1 { return; }
      if k1 != k0 { k0 := k1; return; }
      Third(used - 2);
    }

    /** The same in the FAST decompressor, which looks at the byte before it looks for the end. */
    method StartFast()
      requires Valid() && len == 0 && used <= n
      modifies this`k0, this`used, this`ch, this`len, src
      ensures Valid() && Started(w, n, old(used) - 1, used - 1, len) && ch == w[old(used) - 1]
    {
      ch := k0;
      len := 1;
      var k1 := Fetch();
      if k1 != k0 { k0 := k1; return; }
      if used == n + 1 { return; }
      Third(used - 2);
    }

    method EmitOne()
      requires Valid() && len > 0
      modifies this`len, this`crc
      ensures Valid() && old(Rem()) == Prepend([ch], Rem()) && crc == t.next(old(crc), ch) && len == old(len) - 1
    {
      OneByteOut(w, n, used - 1, ch, len);
      crc := t.next(crc, ch);
      len := len - 1;
    }

    /** Writes bytes of the current run while there are any and room for them. */
    method EmitRun(room: nat) returns (out: seq<byte>)
      requires Valid()
      modifies this`len, this`crc
      ensures Valid() && old(Rem()) == Prepend(out, Rem()) && crc == Over(t, old(crc), out)
      ensures |out| <= room && (|out| == room || len == 0)
    {
      out := [];
      ghost var all := Rem();
      PrependNone(all);
      while |out| < room && len > 0
        invariant Valid() && all == Prepend(out, Rem()) && crc == Over(t, old(crc), out) && |out| <= room
        decreases len
      {
        EmitOne();
        PrependMore(out, [ch], Rem());
        OverOne(t, old(crc), out, ch);
        out := out + [ch];
      }
    }

    method StartRun()
      requires Valid() && len == 0 && used <= n
      modifies this`k0, this`used, this`ch, this`len, src
      ensures Valid() && Rem() == old(Rem()) && used > old(used)
    {
      ghost var pos, ch0 := used - 1, ch;
      if src.small || src.randomised {
        StartPlain();
      } else {
        StartFast();
      }
      StartKeeps(w, n, pos, used - 1, ch0, len);
    }

    /**
     * Fills up to room bytes of output. Without corruption the bytes are the next of the block's
     * expansion, and they are fewer than the room only when the block is finished; corruption is
     * reported only when the expansion does not end with the block.
     */
    method Emit(room: nat) returns (out: seq<byte>, corrupt: bool)
      requires Valid()
      modifies this`k0, this`used, this`ch, this`len, this`crc, src
      ensures Valid()
      ensures old(Rem()) == Prepend(out, Rem()) && |out| <= room && crc == Over(t, old(crc), out)
      ensures !corrupt ==> |out| == room || Finished()
      ensures corrupt ==> Rem() == Undone([], false)
    {
      ghost var all := Rem();
      // The plain FAST loop looks for room only when a run is waiting, so it may start a run that does not fit.
      var eager := !src.small && !src.randomised;
      out := EmitRun(room);
      while len == 0 && used <= n && (eager || |out| < room)
        invariant Valid() && all == Prepend(out, Rem()) && |out| <= room && crc == Over(t, old(crc), out)
        invariant |out| == room || len == 0
        decreases n + 2 - used
      {
        StartRun();
        var more := EmitRun(room - |out|);
        PrependMore(out, more, Rem());
        OverConcat(t, old(crc), out, more);
        out := out + more;
      }
      corrupt := len == 0 && used > n + 1 && (eager || |out| < room);
    }
  }
}
