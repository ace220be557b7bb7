/**
 * What BZ_UPDATE_CRC computes with its table: division by the polynomial 0x04c11db7, one bit after the other. The table
 * is the one this polynomial generates.
 */
module CrcSerial {
  import opened BitIO
  import opened Bits
  import opened Canonical
  import opened Crc
  import opened Rotations

  const POLY: word := 0x04c1_1db7

  function Leaving(crc: word): (t: nat)
    ensures t < 2
  {
    crc / 0x8000_0000
  }

  function Moved(crc: word): word {
    2 * (crc % 0x8000_0000)
  }

  function Divisor(poly: word, t: nat, x: bool): word {
    if (t == 1) == x then 0 else poly
  }

  /** One bit of the message: the polynomial is subtracted when the bit that leaves differs from it. */
  function Serial(crc: word, x: bool): word {
    XorWord(Moved(crc), Divisor(POLY, Leaving(crc), x));
    Xor(Moved(crc), Divisor(POLY, Leaving(crc), x))
  }

  /** The register after the bits b. */
  function Feed(crc: word, b: bits): word
    decreases |b|
  {
    if b == [] then crc else Feed(Serial(crc, b[0]), b[1..])
  }

  /** Entry i: eight zeros divided into i. */
  function Generated(): (t: table) {
    seq(256, i requires 0 <= i < 256 => Feed(i * 0x100_0000, Zeros(8)))
  }

  // Exclusive or

  lemma {:induction false} XorNone(a: nat)
    ensures Xor(a, 0) == a && Xor(0, a) == a
  {
    if a != 0 {
      XorNone(a / 2);
      XorHalves(a, 0);
      XorHalves(0, a);
    }
  }

  lemma {:induction false} XorAgain(a: nat)
    ensures Xor(a, a) == 0
  {
    if a != 0 {
      XorAgain(a / 2);
    }
  }

  lemma {:induction false} XorGroup(a: nat, b: nat, c: nat)
    ensures Xor(Xor(a, b), c) == Xor(a, Xor(b, c))
    decreases a + b + c
  {
    if a + b + c > 0 {
      XorHalves(a, b);
      XorHalves(b, c);
      XorHalves(Xor(a, b), c);
      XorHalves(a, Xor(b, c));
      XorGroup(a / 2, b / 2, c / 2);
    } else {
      XorNone(0);
    }
  }

  lemma XorFour(a: nat, b: nat, c: nat, d: nat)
    ensures Xor(Xor(a, b), Xor(c, d)) == Xor(Xor(a, c), Xor(b, d))
  {
    XorGroup(a, b, Xor(c, d));
    XorGroup(b, c, d);
    XorSwap(b, c);
    XorGroup(c, b, d);
    XorGroup(a, c, Xor(b, d));
  }

  lemma XorTwice(a: nat, b: nat)
    ensures Xor(2 * a, 2 * b) == 2 * Xor(a, b)
  {
    XorHalves(2 * a, 2 * b);
  }

  /** The two parts of a number do not disturb each other. */
  lemma {:induction false} XorApartFrom(h: nat, l: nat, k: nat)
    requires l < Pow2(k)
    ensures Xor(ShiftLeft(h, k), l) == ShiftLeft(h, k) + l
    decreases k
  {
    if k == 0 {
      XorNone(h);
    } else {
      XorApartFrom(h, l / 2, k - 1);
      ShiftLeftStep(h, k - 1);
      XorHalves(ShiftLeft(h, k), l);
    }
  }

  lemma {:induction false} XorShift(a: nat, b: nat, k: nat)
    ensures Xor(ShiftLeft(a, k), ShiftLeft(b, k)) == ShiftLeft(Xor(a, b), k)
    decreases k
  {
    if k > 0 {
      ShiftLeftStep(a, k - 1);
      ShiftLeftStep(b, k - 1);
      ShiftLeftStep(Xor(a, b), k - 1);
      XorShift(a, b, k - 1);
      XorTwice(ShiftLeft(a, k - 1), ShiftLeft(b, k - 1));
    }
  }

  // The register is linear

  /** A word is its top bit and the rest. */
  lemma TopAndRest(a: word)
    ensures a == Xor(ShiftLeft(Leaving(a), 31), a % 0x8000_0000)
  {
    Power31();
    TopAlone(Leaving(a));
    XorApartFrom(Leaving(a), a % 0x8000_0000, 31);
  }

  lemma TopAlone(t: nat)
    requires t < 2
    ensures ShiftLeft(t, 31) == t * 0x8000_0000
  {
    Power31();
    ShiftPow2(0, 31);
    ShiftLeftZero(31);
  }

  lemma BitXor(s: nat, t: nat)
    requires s < 2 && t < 2
    ensures Xor(s, t) == (s + t) % 2
  {
    XorHalves(s, t);
    XorNone(0);
  }

  lemma PartsXor(a: word, b: word, la: nat, lb: nat)
    requires la == a % 0x8000_0000 && lb == b % 0x8000_0000
    ensures Xor(la, lb) < 0x8000_0000
    ensures Xor(a, b) == Xor(Leaving(a), Leaving(b)) * 0x8000_0000 + Xor(la, lb)
  {
    var ta, tb := Leaving(a), Leaving(b);
    TopAndRest(a);
    TopAndRest(b);
    XorFour(ShiftLeft(ta, 31), la, ShiftLeft(tb, 31), lb);
    XorShift(ta, tb, 31);
    Power31();
    XorBound(la, lb, 0x8000_0000, 31);
    XorApartFrom(Xor(ta, tb), Xor(la, lb), 31);
    BitXor(ta, tb);
    TopAlone(Xor(ta, tb));
  }

  lemma MovedXor(a: word, b: word)
    ensures Xor(a, b) < 0x1_0000_0000 && Moved(Xor(a, b)) == Xor(Moved(a), Moved(b)) && Leaving(Xor(a, b)) == (Leaving(a) + Leaving(b)) % 2
  {
    var la, lb := a % 0x8000_0000, b % 0x8000_0000;
    PartsXor(a, b, la, lb);
    BitXor(Leaving(a), Leaving(b));
    Halves(Xor(a, b), Xor(Leaving(a), Leaving(b)), Xor(la, lb));
    XorTwice(la, lb);
  }

  lemma DivisorXor(poly: word, s: nat, x: bool, t: nat, y: bool)
    requires s < 2 && t < 2
    ensures Divisor(poly, (s + t) % 2, x != y) == Xor(Divisor(poly, s, x), Divisor(poly, t, y))
  {
    XorNone(Divisor(poly, s, x));
    XorNone(Divisor(poly, t, y));
    XorAgain(poly);
  }

  lemma SerialXor(a: word, b: word, x: bool, y: bool)
    ensures Xor(a, b) < 0x1_0000_0000 && Serial(Xor(a, b), x != y) == Xor(Serial(a, x), Serial(b, y))
  {
    MovedXor(a, b);
    DivisorXor(POLY, Leaving(a), x, Leaving(b), y);
    XorFour(Moved(a), Moved(b), Divisor(POLY, Leaving(a), x), Divisor(POLY, Leaving(b), y));
  }

  lemma {:induction false} FeedXor(a: word, b: word, n: nat)
    ensures Xor(a, b) < 0x1_0000_0000 && Feed(Xor(a, b), Zeros(n)) == Xor(Feed(a, Zeros(n)), Feed(b, Zeros(n)))
    decreases n
  {
    XorWord(a, b);
    if n > 0 {
      SerialXor(a, b, false, false);
      assert Zeros(n)[1..] == Zeros(n - 1);
      FeedXor(Serial(a, false), Serial(b, false), n - 1);
    }
  }

  lemma SerialLow(v: nat)
    requires v < 0x8000_0000
    ensures Serial(v, false) == 2 * v
  {
    XorNone(2 * v);
  }

  lemma {:induction false} LowBound(v: nat, n: nat)
    requires n <= 32 && v < Pow2(32 - n)
    ensures v < 0x1_0000_0000 && (n > 0 ==> v < 0x8000_0000 && 2 * v < Pow2(32 - (n - 1)))
  {
    SmallPowers();
    Pow2Mono(32 - n, 32);
    if n > 0 {
      Power31();
      Pow2Mono(32 - n, 31);
      assert 32 - (n - 1) == (32 - n) + 1;
    }
  }

  /** Zeros only move a number that does not reach the top. */
  lemma {:induction false} FeedLow(v: nat, n: nat)
    requires n <= 32 && v < Pow2(32 - n)
    ensures v < 0x1_0000_0000 && Feed(v, Zeros(n)) == ShiftLeft(v, n)
    decreases n
  {
    LowBound(v, n);
    if n > 0 {
      SerialLow(v);
      assert Zeros(n)[1..] == Zeros(n - 1);
      FeedLow(2 * v, n - 1);
    }
  }

  // A message bit is the same as a bit at the top of the register

  /** The bits b at the top of a word. */
  function AtTop(b: bits): nat
    requires |b| <= 32
  {
    ShiftLeft(Value(b), 32 - |b|)
  }

  lemma {:induction false} ShiftBound(v: nat, m: nat, n: nat)
    requires v < Pow2(m)
    ensures ShiftLeft(v, n) < Pow2(m + n)
    decreases n
  {
    if n > 0 {
      ShiftBound(2 * v, m + 1, n - 1);
    }
  }

  lemma AtTopNext(b: bits)
    requires 0 < |b| <= 32
    ensures AtTop(b) < 0x1_0000_0000 && Leaving(AtTop(b)) == (if b[0] then 1 else 0) && Moved(AtTop(b)) == AtTop(b[1..])
  {
    var x, rest, n := if b[0] then 1 else 0, b[1..], |b|;
    Split(b, x);
    ShiftedSplit(x, Value(rest), n);
    Halves(AtTop(b), x, ShiftLeft(Value(rest), 32 - n));
    ShiftLeftStep(Value(rest), 32 - n);
  }

  lemma Split(b: bits, x: nat)
    requires 0 < |b| && x == if b[0] then 1 else 0
    ensures Value(b) == ShiftLeft(x, |b| - 1) + Value(b[1..]) && Value(b[1..]) < Pow2(|b| - 1)
  {
    assert b == [b[0]] + b[1..];
    ValueConcat([b[0]], b[1..]);
    assert [b[0]][..0] == [];
    assert Value([b[0]]) == x;
  }

  lemma ShiftedSplit(x: nat, v: nat, n: nat)
    requires x < 2 && 0 < n <= 32 && v < Pow2(n - 1)
    ensures ShiftLeft(ShiftLeft(x, n - 1) + v, 32 - n) == x * 0x8000_0000 + ShiftLeft(v, 32 - n)
    ensures ShiftLeft(v, 32 - n) < 0x8000_0000
  {
    ShiftLeftSum(ShiftLeft(x, n - 1), v, 32 - n);
    ShiftLeftAdd(x, n - 1, 32 - n);
    TopAlone(x);
    ShiftBound(v, n - 1, 32 - n);
    Power31();
  }

  lemma Halves(v: nat, x: nat, r: nat)
    requires v == x * 0x8000_0000 + r && x < 2 && r < 0x8000_0000
    ensures v < 0x1_0000_0000 && v / 0x8000_0000 == x && v % 0x8000_0000 == r
  {
  }

  lemma {:induction false} FeedAtTop(crc: word, b: bits)
    requires |b| <= 32
    ensures AtTop(b) < 0x1_0000_0000 && Xor(crc, AtTop(b)) < 0x1_0000_0000 && Feed(crc, b) == Feed(Xor(crc, AtTop(b)), Zeros(|b|))
    decreases |b|
  {
    if b == [] {
      ShiftLeftZero(32);
      XorNone(crc);
    } else {
      var v := AtTop(b);
      AtTopNext(b);
      XorWord(crc, v);
      SerialXor(crc, v, b[0], b[0]);
      XorNone(Moved(v));
      assert Serial(v, b[0]) == AtTop(b[1..]);
      FeedAtTop(Serial(crc, b[0]), b[1..]);
      assert Zeros(|b|)[1..] == Zeros(|b| - 1);
    }
  }

  // The table

  lemma Parted(crc: word)
    ensures crc == Xor(ShiftLeft(Top(crc), 24), crc % 0x100_0000) && ShiftLeft(Top(crc), 24) == Top(crc) as int * 0x100_0000
  {
    SmallPowers();
    Shift24(Top(crc));
    XorApartFrom(Top(crc), crc % 0x100_0000, 24);
  }

  lemma Shift24(v: nat)
    ensures ShiftLeft(v, 24) == v * 0x100_0000 && ShiftLeft(v, 8) == v * 256
  {
    ByteShift(v);
    ByteShift(256 * v);
    ByteShift(65536 * v);
    ShiftLeftAdd(v, 8, 16);
    ShiftLeftAdd(256 * v, 8, 8);
  }

  lemma LowMoved(crc: word, n: nat)
    requires n == 8
    ensures Feed(crc % 0x100_0000, Zeros(n)) == Crc.Shifted(crc)
  {
    SmallPowers();
    var v := crc % 0x100_0000;
    FeedLow(v, n);
    Shift24(v);
    assert crc == crc / 0x100_0000 * 0x100_0000 + v;
  }

  lemma ByteAtTop(c: byte)
    ensures AtTop(Field(8, c)) == ShiftLeft(c, 24)
  {
    SmallPowers();
    ValueField(8, c);
  }

  /** One byte through the table is its eight bits, most significant first, through the register. */
  lemma UpdatedIsSerial(crc: word, c: byte)
    ensures Updated(Generated(), crc, c) == Feed(crc, Field(8, c))
  {
    var hi, lo, top := ShiftLeft(Top(crc), 24), crc % 0x100_0000, ShiftLeft(c, 24);
    XorByte(Top(crc), c);
    var i := Xor(Top(crc), c);
    Shift24(i);
    Shift24(c);
    Parted(crc);
    LowMoved(crc, 8);
    ByteAtTop(c);
    FeedAtTop(crc, Field(8, c));
    Turned(hi, lo, top);
    XorShift(Top(crc), c, 24);
    FeedXor(lo, ShiftLeft(i, 24), 8);
  }

  lemma Turned(hi: nat, lo: nat, top: nat)
    ensures Xor(Xor(hi, lo), top) == Xor(lo, Xor(hi, top))
  {
    XorSwap(hi, lo);
    XorGroup(lo, hi, top);
  }

  lemma {:induction false} FeedLast(crc: word, n: nat)
    ensures Feed(crc, Zeros(n + 1)) == Serial(Feed(crc, Zeros(n)), false)
    decreases n
  {
    assert Zeros(n + 1)[1..] == Zeros(n);
    if n > 0 {
      assert Zeros(n)[1..] == Zeros(n - 1);
      FeedLast(Serial(crc, false), n - 1);
    }
  }

  lemma FirstEntry(n: nat)
    requires n == 7
    ensures Feed(0x100_0000, Zeros(n + 1)) == POLY
  {
    Power31();
    Pow2Add(24, 7);
    SmallPowers();
    Pow2Mono(24, 25);
    FeedLow(0x100_0000, n);
    ShiftPow2(24, 7);
    FeedLast(0x100_0000, n);
    XorNone(POLY);
  }

  lemma GeneratedIs(i: nat, n: nat)
    requires i < 256 && n == 8
    ensures Generated()[i] == Feed(i * 0x100_0000, Zeros(n))
  {
  }

  lemma NoEntry(n: nat)
    requires n == 8
    ensures Feed(0, Zeros(n)) == 0
  {
    FeedLow(0, n);
    ShiftLeftZero(n);
  }

  /** How the entries follow from each other: 2i from i by one more bit, and 2i + 1 from 2i by the polynomial. */
  lemma EntryDouble(i: nat, n: nat)
    requires i < 128 && n == 8
    ensures Generated()[0] == 0 && Generated()[2 * i] == Serial(Generated()[i], false)
    ensures Generated()[2 * i + 1] == Xor(Generated()[2 * i], POLY)
  {
    GeneratedIs(0, n);
    GeneratedIs(i, n);
    GeneratedIs(2 * i, n);
    GeneratedIs(2 * i + 1, n);
    NoEntry(n);
    EntryEven(i, n);
    EntryOdd(i, n);
    FirstEntry(n - 1);
  }

  lemma EntryEven(i: nat, n: nat)
    requires i < 128
    ensures Feed(2 * i * 0x100_0000, Zeros(n)) == Serial(Feed(i * 0x100_0000, Zeros(n)), false)
  {
    var e := i * 0x100_0000;
    SerialLow(e);
    assert Zeros(n + 1)[1..] == Zeros(n);
    FeedLast(e, n);
  }

  lemma EntryOdd(i: nat, n: nat)
    requires i < 128
    ensures Feed((2 * i + 1) * 0x100_0000, Zeros(n)) == Xor(Feed(2 * i * 0x100_0000, Zeros(n)), Feed(0x100_0000, Zeros(n)))
  {
    Even(i);
    FeedXor(2 * i * 0x100_0000, 0x100_0000, n);
  }

  lemma Even(i: nat)
    ensures Xor(2 * i * 0x100_0000, 0x100_0000) == (2 * i + 1) * 0x100_0000
  {
    SmallPowers();
    Shift24(2 * i);
    XorApartFrom(i, 0x100_0000, 25);
  }

  lemma {:induction false} FeedConcat(crc: word, a: bits, b: bits)
    ensures Feed(crc, a + b) == Feed(Feed(crc, a), b)
    decreases |a|
  {
    if a == [] {
      assert a + b == b;
    } else {
      assert (a + b)[1..] == a[1..] + b;
      FeedConcat(Serial(crc, a[0]), a[1..], b);
    }
  }

  /** The checksum of any bytes is the remainder their bits leave in the register. */
  lemma {:induction false} ChecksumIsSerial(crc: word, s: seq<byte>)
    ensures Over(TableDriven(Generated()), crc, s) == Feed(crc, BytesToBits(s))
    decreases |s|
  {
    if s != [] {
      var init, c := s[..|s| - 1], s[|s| - 1];
      ChecksumIsSerial(crc, init);
      FeedConcat(crc, BytesToBits(init), Field(8, c));
      UpdatedIsSerial(Over(TableDriven(Generated()), crc, init), c);
    }
  }
}
