/** The parser reads back every part of the format, whatever bits follow it. */
module FormatParsed {
  import opened Bits
  import opened Format
  import opened Parser

  /**
   * A way to run the machine. Nothing about it is used but that reading a field is taking a step,
   * so the lemmas below hold for any such runner.
   */
  type Runner = (State, bits) -> (State, bits)

  ghost predicate Lawful(e: Runner) {
    forall s: State, n: nat, v: nat, rest: bits {:trigger e(s, Field(n, v) + rest)} ::
      Inv(s) && !Stopped(s) && n == Need(s) && v < Pow2(n) ==> e(s, Field(n, v) + rest) == e(Step(s, v), rest)
  }

  /** From s, the bits b lead to t, whatever follows. */
  ghost predicate Reads(e: Runner, s: State, b: bits, t: State) {
    Lawful(e) && forall rest: bits {:trigger e(s, b + rest)} :: e(s, b + rest) == e(t, rest)
  }

  lemma ReadsNone(e: Runner, s: State)
    requires Lawful(e)
    ensures Reads(e, s, [], s)
  {
    forall rest: bits
      ensures e(s, [] + rest) == e(s, rest)
    {
      assert [] + rest == rest;
    }
  }

  lemma ReadsThen(e: Runner, s: State, a: bits, t: State, b: bits, u: State)
    requires Reads(e, s, a, t) && Reads(e, t, b, u)
    ensures Reads(e, s, a + b, u)
  {
    forall rest: bits
      ensures e(s, a + b + rest) == e(u, rest)
    {
      assert a + b + rest == a + (b + rest);
    }
  }

  lemma ReadsField(e: Runner, s: State, n: nat, v: nat)
    requires Lawful(e) && Inv(s) && !Stopped(s) && n == Need(s) && v < Pow2(n)
    ensures Reads(e, s, Field(n, v), Step(s, v))
  {
  }

  lemma ReadsBit(e: Runner, s: State, b: bool)
    requires Lawful(e) && Inv(s) && !Stopped(s) && Need(s) == 1
    ensures Reads(e, s, [b], Step(s, if b then 1 else 0))
  {
    var v := if b then 1 else 0;
    SmallPowers();
    assert Field(1, v) == [b] by { assert Field(0, v / 2) == []; assert [] + [b] == [b]; }
    ReadsField(e, s, 1, v);
  }

  predicate ByteWise(s: State) {
    s.Magic? || s.BlockHeader? || s.BlockCrc? || s.OrigPtr? || s.EndHeader? || s.StreamCrc?
  }

  lemma ReadsByte(e: Runner, s: State, v: nat)
    requires Lawful(e) && Inv(s) && ByteWise(s) && v < 256
    ensures Reads(e, s, Field(8, v), StepHeader(s, v))
  {
    SmallPowers();
    ReadsField(e, s, 8, v);
  }

  /** The first of some bytes, and the rest. */
  lemma ReadsOctets(e: Runner, s: State, m: seq<int>, t: State)
    requires Inv(s) && ByteWise(s) && m != [] && forall i :: 0 <= i < |m| ==> 0 <= m[i] < 256
    requires Reads(e, StepHeader(s, m[0]), Octets(m[1..]), t)
    ensures Reads(e, s, Octets(m), t)
  {
    ReadsByte(e, s, m[0]);
    ReadsThen(e, s, Field(8, m[0]), StepHeader(s, m[0]), Octets(m[1..]), t);
  }

  lemma {:induction false} MagicParsed(e: Runner, size: level, k: nat)
    requires Lawful(e) && k < 4
    ensures Reads(e, Magic(k), Octets([0x42, 0x5a, 0x68, 0x30 + size][k..]), BlockHeader(size, 0))
    decreases 4 - k
  {
    var m := [0x42, 0x5a, 0x68, 0x30 + size];
    assert m[k..][1..] == m[k + 1..];
    if k < 3 {
      MagicParsed(e, size, k + 1);
    } else {
      assert m[4..] == [];
      ReadsNone(e, BlockHeader(size, 0));
    }
    ReadsOctets(e, Magic(k), m[k..], BlockHeader(size, 0));
  }

  lemma HeaderParsed(e: Runner, size: level)
    requires Lawful(e)
    ensures Reads(e, Magic(0), HeaderBits(size), BlockHeader(size, 0))
  {
    MagicParsed(e, size, 0);
    assert [0x42, 0x5a, 0x68, 0x30 + size][0..] == [0x42, 0x5a, 0x68, 0x30 + size];
  }

  lemma {:induction false} BlockMagicParsed(e: Runner, size: level, k: nat)
    requires Lawful(e) && k < 6
    ensures Reads(e, BlockHeader(size, k), Octets(BLOCK_MAGIC[k..]), BlockCrc(size, 0, 0))
    decreases 6 - k
  {
    assert BLOCK_MAGIC[k..][1..] == BLOCK_MAGIC[k + 1..];
    if k < 5 {
      BlockMagicParsed(e, size, k + 1);
    } else {
      assert BLOCK_MAGIC[6..] == [];
      ReadsNone(e, BlockCrc(size, 0, 0));
    }
    ReadsOctets(e, BlockHeader(size, k), BLOCK_MAGIC[k..], BlockCrc(size, 0, 0));
  }

  lemma {:induction false} EndMagicParsed(e: Runner, size: level, k: nat)
    requires Lawful(e) && 1 <= k < 6
    ensures Reads(e, EndHeader(size, k), Octets(END_MAGIC[k..]), StreamCrc(size, 0, 0))
    decreases 6 - k
  {
    assert END_MAGIC[k..][1..] == END_MAGIC[k + 1..];
    if k < 5 {
      EndMagicParsed(e, size, k + 1);
    } else {
      assert END_MAGIC[6..] == [];
      ReadsNone(e, StreamCrc(size, 0, 0));
    }
    ReadsOctets(e, EndHeader(size, k), END_MAGIC[k..], StreamCrc(size, 0, 0));
  }

  /** The number that bytes m, read after acc, make up. */
  function Big(acc: nat, m: seq<int>): nat
    requires forall i :: 0 <= i < |m| ==> 0 <= m[i] < 256
    decreases |m|
  {
    if m == [] then acc else Big(256 * acc + m[0], m[1..])
  }

  lemma {:induction false} BlockCrcParsed(e: Runner, size: level, k: nat, acc: nat, m: seq<int>)
    requires Lawful(e) && k < 4 && |m| == 4 - k && forall i :: 0 <= i < |m| ==> 0 <= m[i] < 256
    ensures Reads(e, BlockCrc(size, k, acc), Octets(m), RandBit(size, Big(acc, m)))
    decreases 4 - k
  {
    var q := 256 * acc + m[0];
    assert Big(acc, m) == Big(q, m[1..]);
    if k < 3 {
      BlockCrcParsed(e, size, k + 1, q, m[1..]);
    } else {
      assert m[1..] == [];
      ReadsNone(e, RandBit(size, q));
    }
    assert StepHeader(BlockCrc(size, k, acc), m[0]) == if k < 3 then BlockCrc(size, k + 1, q) else RandBit(size, q);
    ReadsOctets(e, BlockCrc(size, k, acc), m, RandBit(size, Big(acc, m)));
  }

  lemma {:induction false} StreamCrcParsed(e: Runner, size: level, k: nat, acc: nat, m: seq<int>)
    requires Lawful(e) && k < 4 && |m| == 4 - k && forall i :: 0 <= i < |m| ==> 0 <= m[i] < 256
    ensures Reads(e, StreamCrc(size, k, acc), Octets(m), Idle(Big(acc, m)))
    decreases 4 - k
  {
    var q := 256 * acc + m[0];
    assert Big(acc, m) == Big(q, m[1..]);
    if k < 3 {
      StreamCrcParsed(e, size, k + 1, q, m[1..]);
    } else {
      assert m[1..] == [];
      ReadsNone(e, Idle(q));
    }
    assert StepHeader(StreamCrc(size, k, acc), m[0]) == if k < 3 then StreamCrc(size, k + 1, q) else Idle(q);
    ReadsOctets(e, StreamCrc(size, k, acc), m, Idle(Big(acc, m)));
  }

  function Placed(h: Head, p: nat): Head {
    h.(origPtr := p)
  }

  lemma {:induction false} OrigPtrParsed(e: Runner, h: Head, k: nat, p: nat, m: seq<int>)
    requires Lawful(e) && k < 3 && |m| == 3 - k && forall i :: 0 <= i < |m| ==> 0 <= m[i] < 256
    requires Big(p, m) <= 10 + 100000 * h.size
    ensures Reads(e, OrigPtr(Placed(h, p), k), Octets(m), Mapping1(Placed(h, Big(p, m)), []))
    decreases 3 - k
  {
    var q := 256 * p + m[0];
    if k < 2 {
      OrigPtrParsed(e, h, k + 1, q, m[1..]);
    } else {
      assert m[1..] == [];
      ReadsNone(e, Mapping1(Placed(h, q), []));
    }
    assert StepHeader(OrigPtr(Placed(h, p), k), m[0]) == if k < 2 then OrigPtr(Placed(h, q), k + 1) else Mapping1(Placed(h, q), []);
    ReadsOctets(e, OrigPtr(Placed(h, p), k), m, Mapping1(Placed(h, Big(p, m)), []));
  }

  lemma Reassemble(u: nat)
    requires u < 0x1_0000_0000
    ensures Big(0, WordBytes(u)) == u
  {
    var w := WordBytes(u);
    BigFour(w);
    FourBytes(u);
  }

  lemma BigFour(w: seq<int>)
    requires |w| == 4 && forall i :: 0 <= i < |w| ==> 0 <= w[i] < 256
    ensures Big(0, w) == 256 * (256 * (256 * w[0] + w[1]) + w[2]) + w[3]
  {
    assert w[1..][1..][1..][1..] == [];
    assert Big(0, w) == Big(w[0], w[1..]);
    assert Big(w[0], w[1..]) == Big(256 * w[0] + w[1], w[1..][1..]);
    assert Big(256 * w[0] + w[1], w[1..][1..]) == Big(256 * (256 * w[0] + w[1]) + w[2], w[1..][1..][1..]);
  }

  lemma FourBytes(u: nat)
    requires u < 0x1_0000_0000
    ensures 256 * (256 * (256 * (u / 0x100_0000 % 256) + u / 0x1_0000 % 256) + u / 0x100 % 256) + u % 256 == u
  {
  }

  /** The trailer ends the stream. */
  lemma TrailerParsed(e: Runner, size: level, crc: nat)
    requires Lawful(e) && crc < 0x1_0000_0000
    ensures Reads(e, BlockHeader(size, 0), TrailerBits(crc), Idle(crc))
  {
    EndMagicParsed(e, size, 1);
    ReadsOctets(e, BlockHeader(size, 0), END_MAGIC, StreamCrc(size, 0, 0));
    Reassemble(crc);
    StreamCrcParsed(e, size, 0, 0, WordBytes(crc));
    OctetsConcat(END_MAGIC, WordBytes(crc));
    ReadsThen(e, BlockHeader(size, 0), Octets(END_MAGIC), StreamCrc(size, 0, 0), Octets(WordBytes(crc)), Idle(crc));
  }
}
