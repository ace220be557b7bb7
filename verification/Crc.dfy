/**
 * Block and stream checksums. What is proved about streams holds for any way to take one byte
 * into a checksum; TableDriven is the way BZ_UPDATE_CRC does it, for any table of 256 words.
 */
module Crc {
  import opened Bits
  import opened Rotations

  type word = x: int | 0 <= x < 0x1_0000_0000

  datatype Checksum = Checksum(next: (word, byte) -> word)

  const INIT: word := 0xffff_ffff

  /** Exclusive or, bit by bit. */
  function Xor(a: nat, b: nat): nat
    decreases a + b
  {
    if a == 0 && b == 0 then 0 else 2 * Xor(a / 2, b / 2) + if a % 2 == b % 2 then 0 else 1
  }

  lemma {:induction false} XorBound(a: nat, b: nat, m: nat, k: nat)
    requires a < m && b < m && m == Pow2(k)
    ensures Xor(a, b) < m
    decreases k
  {
    if k > 0 {
      XorBound(a / 2, b / 2, Pow2(k - 1), k - 1);
    }
  }

  lemma XorWord(a: word, b: word)
    ensures Xor(a, b) < 0x1_0000_0000
  {
    SmallPowers();
    XorBound(a, b, 0x1_0000_0000, 32);
  }

  lemma XorByte(a: byte, b: byte)
    ensures Xor(a, b) < 256
  {
    SmallPowers();
    XorBound(a, b, 256, 8);
  }

  /** The eight bits that leave the checksum when it is shifted, and those that stay. */
  function Top(crc: word): byte {
    crc / 0x100_0000
  }

  function Shifted(crc: word): word {
    crc * 256 % 0x1_0000_0000
  }

  type table = t: seq<word> | |t| == 256 witness seq(256, _ => 0)

  /** BZ_UPDATE_CRC over a table. */
  function Updated(t: table, crc: word, c: byte): word {
    XorByte(Top(crc), c);
    var entry := t[Xor(Top(crc), c)];
    XorWord(Shifted(crc), entry);
    Xor(Shifted(crc), entry)
  }

  function TableDriven(t: table): Checksum {
    Checksum((crc, c) => Updated(t, crc, c))
  }

  function Over(t: Checksum, crc: word, s: seq<byte>): word {
    if s == [] then crc else t.next(Over(t, crc, s[..|s| - 1]), s[|s| - 1])
  }

  lemma {:induction false} OverConcat(t: Checksum, crc: word, a: seq<byte>, b: seq<byte>)
    ensures Over(t, crc, a + b) == Over(t, Over(t, crc, a), b)
    decreases |b|
  {
    if b == [] {
      assert a + b == a;
    } else {
      OverConcat(t, crc, a, b[..|b| - 1]);
      assert (a + b)[..|a + b| - 1] == a + b[..|b| - 1];
    }
  }

  lemma OverOne(t: Checksum, crc: word, s: seq<byte>, c: byte)
    ensures Over(t, crc, s + [c]) == t.next(Over(t, crc, s), c)
  {
    assert (s + [c])[..|s|] == s;
  }

  /** BZ_FINALISE_CRC. */
  function Final(crc: word): word {
    0xffff_ffff - crc
  }

  /** The checksum stored for a block that decodes to s. */
  function OfBlock(t: Checksum, s: seq<byte>): word {
    Final(Over(t, INIT, s))
  }

  /** c << 1 | c >> 31. */
  function Rotated(c: word): word {
    c * 2 % 0x1_0000_0000 + c / 0x8000_0000
  }

  /** Rotate left by one and exclusive-or with the next block's checksum. */
  function Combine(crc: word, block: word): word {
    XorWord(Rotated(crc), block);
    Xor(Rotated(crc), block)
  }

  // What these functions are, bit by bit

  function Bit(w: nat, i: nat): (b: nat)
    ensures b < 2
  {
    if i == 0 then w % 2 else Bit(w / 2, i - 1)
  }

  lemma {:induction false} XorBit(a: nat, b: nat, i: nat)
    ensures Bit(Xor(a, b), i) == (Bit(a, i) + Bit(b, i)) % 2
    decreases i
  {
    XorHalves(a, b);
    if i > 0 {
      XorBit(a / 2, b / 2, i - 1);
    }
  }

  lemma {:induction false} LowBit(w: nat, k: nat, i: nat)
    requires i < k
    ensures Bit(w % Pow2(k), i) == Bit(w, i)
    decreases i
  {
    HalfOfRest(w, k);
    if i > 0 {
      LowBit(w / 2, k - 1, i - 1);
    }
  }

  lemma HalfOfRest(w: nat, k: nat)
    requires k > 0
    ensures w % Pow2(k) / 2 == w / 2 % Pow2(k - 1) && w % Pow2(k) % 2 == w % 2
  {
    var p, q, r := Pow2(k - 1), w / 2 / Pow2(k - 1), w / 2 % Pow2(k - 1);
    assert w / 2 == q * p + r;
    assert w == q * (2 * p) + (2 * r + w % 2);
    Remainder(w, 2 * p, q, 2 * r + w % 2);
  }

  lemma Remainder(w: nat, m: nat, q: nat, r: nat)
    requires w == q * m + r && r < m
    ensures w % m == r && w / m == q
  {
    var k := w / m;
    if k < q {
      Times(k + 1, q, m);
    } else if k > q {
      Times(q + 1, k, m);
    }
  }

  lemma Times(a: nat, b: nat, m: nat)
    requires a <= b
    ensures a * m <= b * m
  {
  }

  /** A word is no more than its 32 bits. */
  lemma {:induction false} SameBits(a: nat, b: nat, k: nat)
    requires a < Pow2(k) && b < Pow2(k) && forall i :: 0 <= i < k ==> Bit(a, i) == Bit(b, i)
    ensures a == b
    decreases k
  {
    if k > 0 {
      forall i | 0 <= i < k - 1
        ensures Bit(a / 2, i) == Bit(b / 2, i)
      {
        assert Bit(a, i + 1) == Bit(b, i + 1);
      }
      SameBits(a / 2, b / 2, k - 1);
      assert Bit(a, 0) == Bit(b, 0);
    }
  }

  lemma {:induction false} TopBit(w: nat, k: nat)
    requires w < 2 * Pow2(k)
    ensures Bit(w, k) == w / Pow2(k)
    decreases k
  {
    if k > 0 {
      TopBit(w / 2, k - 1);
      HalfQuotient(w, k);
    }
  }

  lemma HalfQuotient(w: nat, k: nat)
    requires k > 0
    ensures w / Pow2(k) == w / 2 / Pow2(k - 1)
  {
    var p, q, r := Pow2(k - 1), w / 2 / Pow2(k - 1), w / 2 % Pow2(k - 1);
    assert w / 2 == q * p + r;
    assert w == q * (2 * p) + (2 * r + w % 2);
    Remainder(w, 2 * p, q, 2 * r + w % 2);
  }

  lemma Power31()
    ensures Pow2(31) == 0x8000_0000
  {
    SmallPowers();
  }

  /** Bit i of the combined checksum is the bit before it of the old one, in the round, with bit i of the block's added. */
  lemma CombineBit(c: word, b: word, i: nat)
    requires i < 32
    ensures Bit(Combine(c, b), i) == (Bit(c, (i + 31) % 32) + Bit(b, i)) % 2
  {
    XorBit(Rotated(c), b, i);
    RotatedBit(c, i);
  }

  lemma RotatedBit(c: word, i: nat)
    requires i < 32
    ensures Bit(Rotated(c), i) == Bit(c, (i + 31) % 32)
  {
    Power31();
    RotatedIs(c);
    if i == 0 {
      TopBit(c, 31);
    } else {
      assert Rotated(c) / 2 == c % 0x8000_0000;
      LowBit(c, 31, i - 1);
    }
  }

  lemma Halved(x: nat, h: nat, d: nat)
    requires x == 2 * h + d && d < 2
    ensures x / 2 == h && x % 2 == d
  {
  }

  lemma {:induction false} XorHalves(a: nat, b: nat)
    ensures Xor(a, b) / 2 == Xor(a / 2, b / 2) && Xor(a, b) % 2 == (a % 2 + b % 2) % 2
  {
    Halved(Xor(a, b), Xor(a / 2, b / 2), if a % 2 == b % 2 then 0 else 1);
  }

  lemma {:induction false} XorBack(a: nat, b: nat)
    ensures Xor(a, Xor(a, b)) == b
    decreases a + b
  {
    if a != 0 || b != 0 {
      var x := Xor(a, b);
      XorHalves(a, b);
      XorHalves(a, x);
      XorBack(a / 2, b / 2);
      assert Xor(a, x) / 2 == b / 2 && Xor(a, x) % 2 == b % 2;
    }
  }

  lemma {:induction false} XorSwap(a: nat, b: nat)
    ensures Xor(a, b) == Xor(b, a)
    decreases a + b
  {
    if a != 0 || b != 0 { XorSwap(a / 2, b / 2); }
  }

  lemma XorApart(a: nat, b: nat, b': nat)
    requires Xor(a, b) == Xor(a, b') || Xor(b, a) == Xor(b', a)
    ensures b == b'
  {
    XorSwap(a, b);
    XorSwap(a, b');
    XorBack(a, b);
    XorBack(a, b');
  }

  lemma RotatedIs(c: word)
    ensures Rotated(c) == 2 * (c % 0x8000_0000) + c / 0x8000_0000 && c / 0x8000_0000 < 2
  {
  }

  lemma RotatedApart(c: word, c': word)
    requires Rotated(c) == Rotated(c')
    ensures c == c'
  {
    RotatedIs(c);
    RotatedIs(c');
    assert c % 0x8000_0000 == c' % 0x8000_0000 && c / 0x8000_0000 == c' / 0x8000_0000;
  }

  /** No block checksum and no earlier checksum can be exchanged for another unnoticed. */
  lemma CombineApart(c: word, c': word, b: word, b': word)
    ensures Combine(c, b) == Combine(c, b') ==> b == b'
    ensures Combine(c, b) == Combine(c', b) ==> c == c'
  {
    if Combine(c, b) == Combine(c, b') {
      XorApart(Rotated(c), b, b');
    }
    if Combine(c, b) == Combine(c', b) {
      XorApart(b, Rotated(c), Rotated(c'));
      RotatedApart(c, c');
    }
  }

  /** The checksum of a stream from those of its blocks, after c. */
  function CombineAll(c: word, blocks: seq<word>): word
    decreases |blocks|
  {
    if blocks == [] then c else CombineAll(Combine(c, blocks[0]), blocks[1..])
  }

  lemma CombineOne(c: word, b: word)
    ensures CombineAll(c, [b]) == Combine(c, b)
  {
    assert [b][1..] == [];
  }

  /** Two checksums that differ still differ after the same blocks. */
  lemma {:induction false} StillApart(c: word, c': word, blocks: seq<word>)
    requires c != c'
    ensures CombineAll(c, blocks) != CombineAll(c', blocks)
    decreases |blocks|
  {
    if blocks != [] {
      CombineApart(c, c', blocks[0], blocks[0]);
      StillApart(Combine(c, blocks[0]), Combine(c', blocks[0]), blocks[1..]);
    }
  }

  lemma {:induction false} CombineSplit(c: word, u: seq<word>, v: seq<word>)
    ensures CombineAll(c, u + v) == CombineAll(CombineAll(c, u), v)
    decreases |u|
  {
    if u == [] {
      assert u + v == v;
    } else {
      assert (u + v)[1..] == u[1..] + v;
      CombineSplit(Combine(c, u[0]), u[1..], v);
    }
  }

  /** Changing the checksum of any one block changes the stream's. */
  lemma BlockChanged(u: seq<word>, b: word, b': word, v: seq<word>)
    requires b != b'
    ensures CombineAll(0, u + [b] + v) != CombineAll(0, u + [b'] + v)
  {
    var c := CombineAll(0, u);
    CombineSplit(0, u + [b], v);
    CombineSplit(0, u + [b'], v);
    CombineSplit(0, u, [b]);
    CombineSplit(0, u, [b']);
    assert [b][1..] == [] && [b'][1..] == [];
    CombineApart(c, c, b, b');
    StillApart(Combine(c, b), Combine(c, b'), v);
  }

  /** Leaving a block out is noticed unless its checksum is just what turns the one before it round to itself. */
  lemma BlockDropped(u: seq<word>, b: word, v: seq<word>)
    ensures var c := CombineAll(0, u); CombineAll(0, u + [b] + v) == CombineAll(0, u + v) <==> b == Xor(Rotated(c), c)
  {
    var c := CombineAll(0, u);
    CombineSplit(0, u + [b], v);
    CombineSplit(0, u, [b]);
    CombineSplit(0, u, v);
    assert [b][1..] == [];
    XorBack(Rotated(c), b);
    XorBack(Rotated(c), c);
    if Combine(c, b) != c {
      StillApart(Combine(c, b), c, v);
    }
  }

  /** In particular a first block whose checksum is not zero cannot be left out. */
  lemma FirstDropped(b: word, v: seq<word>)
    requires b != 0
    ensures CombineAll(0, [b] + v) != CombineAll(0, v)
  {
    BlockDropped([], b, v);
    assert [] + [b] + v == [b] + v && [] + v == v;
  }

  /** BZ_INITIALISE_CRC sets every bit and BZ_FINALISE_CRC turns every bit over. */
  lemma FinalBit(c: word, i: nat)
    requires i < 32
    ensures Bit(INIT, i) == 1 && Bit(Final(c), i) == 1 - Bit(c, i)
  {
    SmallPowers();
    OnesBit(32, i);
    OnesLess(c, 32, i);
  }

  lemma {:induction false} OnesBit(k: nat, i: nat)
    requires i < k
    ensures Bit(Pow2(k) - 1, i) == 1
    decreases i
  {
    if i > 0 { OnesBit(k - 1, i - 1); }
  }

  lemma {:induction false} OnesLess(c: nat, k: nat, i: nat)
    requires i < k && c < Pow2(k)
    ensures Bit(Pow2(k) - 1 - c, i) == 1 - Bit(c, i)
    decreases i
  {
    if i > 0 { OnesLess(c / 2, k - 1, i - 1); }
  }
}
