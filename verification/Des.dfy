/** The block cipher of XDM authorisation: PERM_OP, D_ENCRYPT and _XdmcpAuthDoIt, for any key schedule and tables. */
module Des {
  type octet = bv8
  type card32 = bv32
  /** The combined substitution and permutation tables, and the 32 words of a key schedule. */
  type boxes = s: seq<seq<card32>> | |s| == 8 && forall i :: 0 <= i < 8 ==> |s[i]| == 64
    witness seq(8, _ => seq(64, _ => 0))
  type schedule = s: seq<card32> | |s| == 32 witness seq(32, _ => 0)
  type cblock = s: seq<octet> | |s| == 8 witness seq(8, _ => 0)

  datatype Pair = Pair(l: card32, r: card32)

  function Swap(p: Pair): Pair {
    Pair(p.r, p.l)
  }

  // Bytes and words

  function Word(a: octet, b: octet, c: octet, d: octet): card32 {
    a as bv32 | (b as bv32 << 8) | (c as bv32 << 16) | (d as bv32 << 24)
  }

  function Octet(w: card32, shift: bv6): octet
    requires shift <= 24
  {
    ((w >> shift) & 0xff) as bv8
  }

  /** c2l, twice, and l2c, twice. */
  function Load(b: cblock): Pair {
    Pair(Word(b[0], b[1], b[2], b[3]), Word(b[4], b[5], b[6], b[7]))
  }

  function Bytes(w: card32): (s: seq<octet>)
    ensures |s| == 4
  {
    [Octet(w, 0), Octet(w, 8), Octet(w, 16), Octet(w, 24)]
  }

  function Store(p: Pair): cblock {
    Bytes(p.l) + Bytes(p.r)
  }

  lemma WordBytes(w: card32)
    ensures Word(Octet(w, 0), Octet(w, 8), Octet(w, 16), Octet(w, 24)) == w
  {
  }

  lemma BytesWord(a: octet, b: octet, c: octet, d: octet)
    ensures Bytes(Word(a, b, c, d)) == [a, b, c, d]
  {
    var w := Word(a, b, c, d);
    assert Octet(w, 0) == a;
    assert Octet(w, 8) == b;
    assert Octet(w, 16) == c;
    assert Octet(w, 24) == d;
  }

  lemma LoadStore(p: Pair)
    ensures Load(Store(p)) == p
  {
    WordBytes(p.l);
    WordBytes(p.r);
  }

  lemma StoreLoad(b: cblock)
    ensures Store(Load(b)) == b
  {
    BytesWord(b[0], b[1], b[2], b[3]);
    BytesWord(b[4], b[5], b[6], b[7]);
    assert b == b[..4] + b[4..];
    assert b[..4] == [b[0], b[1], b[2], b[3]];
    assert b[4..] == [b[4], b[5], b[6], b[7]];
  }

  // The initial and final permutations

  /** The five shifts and masks of the permutations. */
  datatype Stage = Nibbles | Halves | Pairs | Octets | Single

  function Down(w: card32, s: Stage): card32 {
    match s
    case Nibbles => w >> 4
    case Halves => w >> 16
    case Pairs => w >> 2
    case Octets => w >> 8
    case Single => w >> 1
  }

  function Up(w: card32, s: Stage): card32 {
    match s
    case Nibbles => w << 4
    case Halves => w << 16
    case Pairs => w << 2
    case Octets => w << 8
    case Single => w << 1
  }

  function Kept(w: card32, s: Stage): card32 {
    match s
    case Nibbles => w & 0x0f0f0f0f
    case Halves => w & 0x0000ffff
    case Pairs => w & 0x33333333
    case Octets => w & 0x00ff00ff
    case Single => w & 0x55555555
  }

  /** PERM_OP(a, b) exchanges the masked bits of b with those some places higher in a. */
  function Differing(a: card32, b: card32, s: Stage): card32 {
    Kept(Down(a, s) ^ b, s)
  }

  function Higher(a: card32, b: card32, s: Stage): card32 {
    a ^ Up(Differing(a, b, s), s)
  }

  function Lower(a: card32, b: card32, s: Stage): card32 {
    b ^ Differing(a, b, s)
  }

  /** No masked bit is lost by moving it up and down again. */
  lemma Exchanged(a: card32, b: card32, s: Stage)
    ensures Differing(Higher(a, b, s), Lower(a, b, s), s) == Differing(a, b, s)
  {
    match s
    case Nibbles =>
    case Halves =>
    case Pairs =>
    case Octets =>
    case Single =>
  }

  lemma XorTwice(a: card32, b: card32)
    ensures a ^ b ^ b == a
  {
  }

  /** PERM_OP(l, r) and PERM_OP(r, l). */
  function Left(p: Pair, s: Stage): Pair {
    Pair(Higher(p.l, p.r, s), Lower(p.l, p.r, s))
  }

  function Right(p: Pair, s: Stage): Pair {
    Pair(Lower(p.r, p.l, s), Higher(p.r, p.l, s))
  }

  lemma LeftTwice(p: Pair, s: Stage)
    ensures Left(Left(p, s), s) == p
  {
    Exchanged(p.l, p.r, s);
    var t := Differing(p.l, p.r, s);
    XorTwice(p.l, Up(t, s));
    XorTwice(p.r, t);
  }

  lemma RightTwice(p: Pair, s: Stage)
    ensures Right(Right(p, s), s) == p
  {
    LeftTwice(Swap(p), s);
  }

  function Initial(p: Pair): Pair {
    Right(Left(Right(Left(Right(p, Nibbles), Halves), Pairs), Octets), Single)
  }

  function Final(p: Pair): Pair {
    Right(Left(Right(Left(Right(p, Single), Octets), Pairs), Halves), Nibbles)
  }

  lemma FinalInitial(p: Pair)
    ensures Final(Initial(p)) == p
  {
    var a := Right(p, Nibbles);
    var b := Left(a, Halves);
    var c := Right(b, Pairs);
    var d := Left(c, Octets);
    RightTwice(d, Single);
    LeftTwice(c, Octets);
    RightTwice(b, Pairs);
    LeftTwice(a, Halves);
    RightTwice(p, Nibbles);
  }

  lemma InitialFinal(p: Pair)
    ensures Initial(Final(p)) == p
  {
    var a := Right(p, Single);
    var b := Left(a, Octets);
    var c := Right(b, Pairs);
    var d := Left(c, Halves);
    RightTwice(d, Nibbles);
    LeftTwice(c, Halves);
    RightTwice(b, Pairs);
    LeftTwice(a, Octets);
    RightTwice(p, Single);
  }

  // The rounds

  datatype Key = Key(even: card32, odd: card32)

  /** The round keys of a schedule, in order. */
  function Keys(s: schedule): (ks: seq<Key>)
    ensures |ks| == 16
  {
    seq(16, j requires 0 <= j < 16 => Key(s[2 * j], s[2 * j + 1]))
  }

  /** An entry of a table. */
  type row = i: nat | i < 64

  function Six(w: card32): row {
    ((w & 0x3f) as bv6) as int
  }

  /** The words whose six-bit groups choose from the even and from the odd tables. */
  function EvenWord(r: card32, k: card32): card32 {
    ((r << 1) | (r >> 31)) ^ k
  }

  function OddWord(r: card32, k: card32): card32 {
    var v := ((r << 1) | (r >> 31)) ^ k;
    (v >> 4) | (v << 28)
  }

  /** Four entries of the tables j, j + 2, j + 4 and j + 6. */
  function Entries(b: boxes, j: nat, w: card32): card32
    requires j < 2
  {
    b[j][Six(w)] | b[j + 2][Six(w >> 8)] | b[j + 4][Six(w >> 16)] | b[j + 6][Six(w >> 24)]
  }

  /** What D_ENCRYPT adds to the other half. */
  function Mixed(b: boxes, r: card32, k: Key): card32 {
    Entries(b, 1, OddWord(r, k.odd)) | Entries(b, 0, EvenWord(r, k.even))
  }

  /** What one half and a round key add to the other half. */
  type Mixer = (card32, Key) -> card32

  function Tabled(b: boxes): Mixer {
    (r, k) => Mixed(b, r, k)
  }

  /** One round of a Feistel network, halves changing places. */
  function Round(f: Mixer, k: Key, p: Pair): Pair {
    Pair(p.r, p.l ^ f(p.r, k))
  }

  function Rounds(f: Mixer, ks: seq<Key>, p: Pair): Pair {
    if ks == [] then p else Rounds(f, ks[1..], Round(f, ks[0], p))
  }

  function Reversed(ks: seq<Key>): (r: seq<Key>)
    ensures |r| == |ks| && forall i :: 0 <= i < |ks| ==> r[i] == ks[|ks| - 1 - i]
  {
    if ks == [] then [] else Reversed(ks[1..]) + [ks[0]]
  }

  lemma {:induction false} RoundsThen(f: Mixer, ks: seq<Key>, k: Key, p: Pair)
    ensures Rounds(f, ks + [k], p) == Round(f, k, Rounds(f, ks, p))
    decreases |ks|
  {
    if ks == [] {
      assert (ks + [k])[1..] == [];
    } else {
      assert (ks + [k])[1..] == ks[1..] + [k];
      RoundsThen(f, ks[1..], k, Round(f, ks[0], p));
    }
  }

  lemma RoundTwice(f: Mixer, k: Key, p: Pair)
    ensures Round(f, k, Swap(Round(f, k, p))) == Swap(p)
  {
    XorTwice(p.l, f(p.r, k));
  }

  /** The keys in reverse order undo the rounds, whatever they are. */
  lemma {:induction false} RoundsUndone(f: Mixer, ks: seq<Key>, p: Pair)
    ensures Rounds(f, Reversed(ks), Swap(Rounds(f, ks, p))) == Swap(p)
    decreases |ks|
  {
    if ks != [] {
      var q := Round(f, ks[0], p);
      RoundsUndone(f, ks[1..], q);
      RoundsThen(f, Reversed(ks[1..]), ks[0], Swap(Rounds(f, ks, p)));
      RoundTwice(f, ks[0], p);
    }
  }

  // The cipher

  function Cipher(f: Mixer, ks: seq<Key>, block: cblock): cblock {
    Store(Final(Rounds(f, ks, Swap(Initial(Load(block))))))
  }

  /** Deciphering undoes enciphering, for every block, schedule and table. */
  lemma Deciphered(f: Mixer, ks: seq<Key>, block: cblock)
    ensures Cipher(f, Reversed(ks), Cipher(f, ks, block)) == block
  {
    var start := Initial(Load(block));
    var end := Rounds(f, ks, Swap(start));
    LoadStore(Final(end));
    InitialFinal(end);
    RoundsUndone(f, ks, Swap(start));
    FinalInitial(Load(block));
    StoreLoad(block);
  }

  lemma {:induction false} ReversedTwice(ks: seq<Key>)
    ensures Reversed(Reversed(ks)) == ks
  {
  }

  /** And the other way round. */
  lemma Enciphered(f: Mixer, ks: seq<Key>, block: cblock)
    ensures Cipher(f, ks, Cipher(f, Reversed(ks), block)) == block
  {
    ReversedTwice(ks);
    Deciphered(f, Reversed(ks), block);
  }

  lemma TwoRounds(f: Mixer, ks: seq<Key>, j: nat, k: Key, k': Key, p: Pair)
    requires j + 2 <= |ks| && k == ks[j] && k' == ks[j + 1]
    ensures Rounds(f, ks[j..], p) == Rounds(f, ks[j + 2..], Round(f, k', Round(f, k, p)))
  {
    assert ks[j..][1..] == ks[j + 1..];
    assert ks[j + 1..][1..] == ks[j + 2..];
  }
}
