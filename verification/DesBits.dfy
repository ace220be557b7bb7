/**
 * The block cipher bit by bit, as FIPS 46-3 numbers them: which bits of a half and of a round key choose each table
 * entry, and where the initial permutation takes each bit of a block.
 */
module DesBits {
  import opened Des

  /** Bit n of a word, from the lowest, places taken modulo 32. */
  function Bit(w: card32, n: bv6): bool {
    (w >> (n & 31)) & 1 == 1
  }

  /** A word as its bits. */
  type Wires = bv6 -> bool

  function Wired(w: card32): Wires {
    n => Bit(w, n)
  }

  function At(bit: bool, i: bv6): bv6
    requires i <= 6
  {
    if bit then (1 as bv6) << i else 0
  }

  /** Six differences, as a number. */
  function Number(a: bool, b: bool, c: bool, d: bool, e: bool, f: bool): bv6 {
    At(a, 0) | At(b, 1) | At(c, 2) | At(d, 3) | At(e, 4) | At(f, 5)
  }

  /**
   * The row of table j that FIPS 46-3 selects. Its expansion E hands table j the bits 4j, 4j + 1, ..., 4j + 5 of the half,
   * counted from 1 and round the end; each meets one bit of the key.
   */
  function Chosen(r: Wires, w: Wires, j: bv6): bv6 {
    Number(r(4 * j + 31) != w(4 * j), r(4 * j + 32) != w(4 * j + 1), r(4 * j + 33) != w(4 * j + 2),
           r(4 * j + 34) != w(4 * j + 3), r(4 * j + 35) != w(4 * j + 4), r(4 * j + 36) != w(4 * j + 5))
  }

  /** The same, of two words. */
  function ChosenIn(r: card32, w: card32, j: bv6): bv6 {
    Number(Bit(r, 4 * j + 31) != Bit(w, 4 * j), Bit(r, 4 * j + 32) != Bit(w, 4 * j + 1), Bit(r, 4 * j + 33) != Bit(w, 4 * j + 2),
           Bit(r, 4 * j + 34) != Bit(w, 4 * j + 3), Bit(r, 4 * j + 35) != Bit(w, 4 * j + 4), Bit(r, 4 * j + 36) != Bit(w, 4 * j + 5))
  }

  lemma ChosenSame(r: card32, w: card32, j: bv6)
    ensures ChosenIn(r, w, j) == Chosen(Wired(r), Wired(w), j)
  {
  }

  /** The standard selects row i of table j. */
  ghost predicate Selects(r: card32, w: card32, j: bv6, i: row) {
    forall q {:trigger ChosenIn(q, w, j)} :: q == r ==> ChosenIn(q, w, j) as int == i
  }

  /** Exactly one row. */
  lemma OneRow(r: card32, w: card32, j: bv6, i: row)
    ensures Selects(r, w, j, i) <==> i == ChosenIn(r, w, j) as int
  {
  }

  // Which entries D_ENCRYPT joins

  lemma ChosenEven(r: card32, w: card32)
    ensures var u := EvenWord(r, w);
            && ChosenIn(r, w, 0) == (u & 0x3f) as bv6
            && ChosenIn(r, w, 2) == ((u >> 8) & 0x3f) as bv6
            && ChosenIn(r, w, 4) == ((u >> 16) & 0x3f) as bv6
            && ChosenIn(r, w, 6) == ((u >> 24) & 0x3f) as bv6
  {
  }

  lemma ChosenOdd(r: card32, w: card32)
    ensures var t := OddWord(r, w);
            && ChosenIn(r, w, 1) == (t & 0x3f) as bv6
            && ChosenIn(r, w, 3) == ((t >> 8) & 0x3f) as bv6
            && ChosenIn(r, w, 5) == ((t >> 16) & 0x3f) as bv6
            && ChosenIn(r, w, 7) == ((t >> 24) & 0x3f) as bv6
  {
  }

  lemma RowIs(r: card32, w: card32, j: bv6, v: card32, i: row)
    requires ChosenIn(r, w, j) == (v & 0x3f) as bv6 && Selects(r, w, j, i)
    ensures Six(v) == i
  {
  }

  /** The four groups of six bits of a word, eight places apart. */
  ghost predicate Groups(u: card32, i: row, k: row, l: row, m: row) {
    forall x {:trigger InTable(x)} :: InTable(x) && x == i ==> Six(u) == x && Six(u >> 8) == k && Six(u >> 16) == l && Six(u >> 24) == m
  }

  predicate InTable(x: int) {
    0 <= x < 64
  }

  lemma GroupsAre(u: card32, i: row, k: row, l: row, m: row)
    requires Six(u) == i && Six(u >> 8) == k && Six(u >> 16) == l && Six(u >> 24) == m
    ensures Groups(u, i, k, l, m)
  {
  }

  lemma EvenRows(r: card32, w: card32, u: card32, i: row, k: row, l: row, m: row)
    requires u == EvenWord(r, w) && Selects(r, w, 0, i) && Selects(r, w, 2, k) && Selects(r, w, 4, l) && Selects(r, w, 6, m)
    ensures Groups(u, i, k, l, m)
  {
    ChosenEven(r, w);
    RowIs(r, w, 0, u, i);
    RowIs(r, w, 2, u >> 8, k);
    RowIs(r, w, 4, u >> 16, l);
    RowIs(r, w, 6, u >> 24, m);
    GroupsAre(u, i, k, l, m);
  }

  lemma OddRows(r: card32, w: card32, t: card32, i: row, k: row, l: row, m: row)
    requires t == OddWord(r, w) && Selects(r, w, 1, i) && Selects(r, w, 3, k) && Selects(r, w, 5, l) && Selects(r, w, 7, m)
    ensures Groups(t, i, k, l, m)
  {
    ChosenOdd(r, w);
    RowIs(r, w, 1, t, i);
    RowIs(r, w, 3, t >> 8, k);
    RowIs(r, w, 5, t >> 16, l);
    RowIs(r, w, 7, t >> 24, m);
    GroupsAre(t, i, k, l, m);
  }

  lemma EvenAt(b: boxes, u: card32, i: row, k: row, l: row, m: row)
    requires Groups(u, i, k, l, m)
    ensures Entries(b, 0, u) == b[0][i] | b[2][k] | b[4][l] | b[6][m]
  {
    assert InTable(i);
  }

  lemma OddAt(b: boxes, t: card32, i: row, k: row, l: row, m: row)
    requires Groups(t, i, k, l, m)
    ensures Entries(b, 1, t) == b[1][i] | b[3][k] | b[5][l] | b[7][m]
  {
    assert InTable(i);
  }

  /** The even tables meet the first word of a round key. */
  lemma EvenIs(b: boxes, r: card32, w: card32, i: row, k: row, l: row, m: row)
    requires Selects(r, w, 0, i) && Selects(r, w, 2, k) && Selects(r, w, 4, l) && Selects(r, w, 6, m)
    ensures Entries(b, 0, EvenWord(r, w)) == b[0][i] | b[2][k] | b[4][l] | b[6][m]
  {
    EvenRows(r, w, EvenWord(r, w), i, k, l, m);
    EvenAt(b, EvenWord(r, w), i, k, l, m);
  }

  /** The odd tables meet the second. */
  lemma OddIs(b: boxes, r: card32, w: card32, i: row, k: row, l: row, m: row)
    requires Selects(r, w, 1, i) && Selects(r, w, 3, k) && Selects(r, w, 5, l) && Selects(r, w, 7, m)
    ensures Entries(b, 1, OddWord(r, w)) == b[1][i] | b[3][k] | b[5][l] | b[7][m]
  {
    OddRows(r, w, OddWord(r, w), i, k, l, m);
    OddAt(b, OddWord(r, w), i, k, l, m);
  }

  lemma MixedParts(b: boxes, r: card32, key: Key) returns (even: card32, odd: card32)
    ensures Mixed(b, r, key) == odd | even
    ensures even == Entries(b, 0, EvenWord(r, key.even)) && odd == Entries(b, 1, OddWord(r, key.odd))
  {
    even, odd := Entries(b, 0, EvenWord(r, key.even)), Entries(b, 1, OddWord(r, key.odd));
  }

  /** What D_ENCRYPT adds is the union of the eight entries that the standard selects. */
  lemma MixedIs(b: boxes, r: card32, key: Key, i: row, k: row, l: row, m: row, i': row, k': row, l': row, m': row)
    returns (even: card32, odd: card32)
    requires Selects(r, key.even, 0, i) && Selects(r, key.even, 2, k) && Selects(r, key.even, 4, l) && Selects(r, key.even, 6, m)
    requires Selects(r, key.odd, 1, i') && Selects(r, key.odd, 3, k') && Selects(r, key.odd, 5, l') && Selects(r, key.odd, 7, m')
    ensures Mixed(b, r, key) == odd | even
    ensures even == b[0][i] | b[2][k] | b[4][l] | b[6][m]
    ensures odd == b[1][i'] | b[3][k'] | b[5][l'] | b[7][m']
  {
    EvenIs(b, r, key.even, i, k, l, m);
    OddIs(b, r, key.odd, i', k', l', m');
    even, odd := MixedParts(b, r, key);
  }

  // What one bit reaches

  /** The same wires, but for number n. */
  ghost predicate Flips(w: Wires, w': Wires, n: bv6) {
    forall m :: w'(m) == (w(m) != (m & 31 == n))
  }

  lemma FlippedBit(w: card32, n: bv6, m: bv6)
    requires n < 32
    ensures Bit(w ^ (1 << n), m) == (Bit(w, m) != (m & 31 == n))
  {
  }

  lemma Flipped(w: card32, n: bv6)
    requires n < 32
    ensures Flips(Wired(w), Wired(w ^ (1 << n)), n)
  {
    forall m ensures Wired(w ^ (1 << n))(m) == (Wired(w)(m) != (m & 31 == n)) {
      FlippedBit(w, n, m);
    }
  }

  lemma NumberApart(a: bool, b: bool, c: bool, d: bool, e: bool, f: bool, a': bool, b': bool, c': bool, d': bool, e': bool, f': bool)
    requires Number(a, b, c, d, e, f) == Number(a', b', c', d', e', f')
    ensures a == a' && b == b' && c == c' && d == d' && e == e' && f == f'
  {
  }

  predicate Among(n: bv6, m: bv6) {
    m & 31 == n || (m + 1) & 31 == n || (m + 2) & 31 == n || (m + 3) & 31 == n || (m + 4) & 31 == n || (m + 5) & 31 == n
  }

  lemma AmongSix(n: bv6, m: bv6)
    requires n < 32
    ensures Among(n, m) <==> (n - m) & 31 < 6
  {
  }

  lemma ChosenApart(r: Wires, w: Wires, r': Wires, w': Wires, j: bv6)
    ensures Chosen(r, w, j) == Chosen(r', w', j) <==>
      && (r(4 * j + 31) != w(4 * j)) == (r'(4 * j + 31) != w'(4 * j))
      && (r(4 * j + 32) != w(4 * j + 1)) == (r'(4 * j + 32) != w'(4 * j + 1))
      && (r(4 * j + 33) != w(4 * j + 2)) == (r'(4 * j + 33) != w'(4 * j + 2))
      && (r(4 * j + 34) != w(4 * j + 3)) == (r'(4 * j + 34) != w'(4 * j + 3))
      && (r(4 * j + 35) != w(4 * j + 4)) == (r'(4 * j + 35) != w'(4 * j + 4))
      && (r(4 * j + 36) != w(4 * j + 5)) == (r'(4 * j + 36) != w'(4 * j + 5))
  {
    if Chosen(r, w, j) == Chosen(r', w', j) {
      NumberApart(r(4 * j + 31) != w(4 * j), r(4 * j + 32) != w(4 * j + 1), r(4 * j + 33) != w(4 * j + 2),
                  r(4 * j + 34) != w(4 * j + 3), r(4 * j + 35) != w(4 * j + 4), r(4 * j + 36) != w(4 * j + 5),
                  r'(4 * j + 31) != w'(4 * j), r'(4 * j + 32) != w'(4 * j + 1), r'(4 * j + 33) != w'(4 * j + 2),
                  r'(4 * j + 34) != w'(4 * j + 3), r'(4 * j + 35) != w'(4 * j + 4), r'(4 * j + 36) != w'(4 * j + 5));
    }
  }

  /** Bit n of a key word reaches table j exactly when it is one of its six. */
  lemma KeyBit(r: Wires, w: Wires, w': Wires, n: bv6, j: bv6)
    requires n < 32 && Flips(w, w', n)
    ensures Chosen(r, w', j) != Chosen(r, w, j) <==> (n - 4 * j) & 31 < 6
  {
    ChosenApart(r, w, r, w', j);
    AmongSix(n, 4 * j);
  }

  /** Bit n of a half reaches the tables whose six bits hold it: two of them at the edge of a group of four. */
  lemma HalfBit(r: Wires, r': Wires, w: Wires, n: bv6, j: bv6)
    requires n < 32 && Flips(r, r', n)
    ensures Chosen(r', w, j) != Chosen(r, w, j) <==> (n - (4 * j + 31)) & 31 < 6
  {
    ChosenApart(r, w, r', w, j);
    AmongSix(n, 4 * j + 31);
  }

  lemma RowsApart(c: bv6, c': bv6)
    ensures c as int == c' as int <==> c == c'
  {
  }

  /** In words: changing bit n of a key word changes the entry taken from table j exactly when the bit is one of its six. */
  lemma KeyReaches(r: card32, w: card32, n: bv6, j: bv6, i: row, i': row)
    requires n < 32 && Selects(r, w, j, i) && Selects(r, w ^ (1 << n), j, i')
    ensures i != i' <==> (n - 4 * j) & 31 < 6
  {
    var w' := w ^ (1 << n);
    OneRow(r, w, j, i);
    OneRow(r, w', j, i');
    RowsApart(ChosenIn(r, w, j), ChosenIn(r, w', j));
    ChosenSame(r, w, j);
    ChosenSame(r, w', j);
    Flipped(w, n);
    KeyBit(Wired(r), Wired(w), Wired(w'), n, j);
  }

  /** And a bit of the half. */
  lemma HalfReaches(r: card32, w: card32, n: bv6, j: bv6, i: row, i': row)
    requires n < 32 && Selects(r, w, j, i) && Selects(r ^ (1 << n), w, j, i')
    ensures i != i' <==> (n - (4 * j + 31)) & 31 < 6
  {
    var r' := r ^ (1 << n);
    OneRow(r, w, j, i);
    OneRow(r', w, j, i');
    RowsApart(ChosenIn(r, w, j), ChosenIn(r', w, j));
    ChosenSame(r, w, j);
    ChosenSame(r', w, j);
    Flipped(r, n);
    HalfBit(Wired(r), Wired(r'), Wired(w), n, j);
  }

  /** So no bit of a key word reaches two of the four tables that word meets. */
  lemma OneTable(n: bv6, i: bv6, j: bv6)
    requires n < 32 && i < 8 && j < 8 && i & 1 == j & 1 && (n - 4 * i) & 31 < 6 && (n - 4 * j) & 31 < 6
    ensures i == j
  {
  }

  // The initial permutation

  /** Bit q of a block of eight bytes: bit q % 8 of byte q / 8. */
  function BlockBit(p: Pair, q: bv6): bool {
    if q < 32 then Bit(p.l, q) else Bit(p.r, q - 32)
  }

  function Eights(c: nat): bv6
    requires c < 8
  {
    match c
    case 0 => 0
    case 1 => 8
    case 2 => 16
    case 3 => 24
    case 4 => 32
    case 5 => 40
    case 6 => 48
    case _ => 56
  }

  /** Bytes are taken lowest first. */
  lemma LoadBit(block: cblock, c: nat, t: bv6)
    requires c < 8 && t < 8
    ensures BlockBit(Load(block), Eights(c) + t) == ((block[c] >> t) & 1 == 1)
  {
    match c
    case 0 =>
    case 1 =>
    case 2 =>
    case 3 =>
    case 4 =>
    case 5 =>
    case 6 =>
    case _ =>
  }

  /** Rows 58, 50, 42, ... of the table IP make the half that the first round changes. */
  lemma InitialRight(p: Pair, n: bv6)
    requires n < 32
    ensures Bit(Initial(p).r, n) == BlockBit(p, 8 * (7 - (n & 7)) + 6 - 2 * (n >> 3))
  {
  }

  /** Rows 57, 49, 41, ... make the other. */
  lemma InitialLeft(p: Pair, n: bv6)
    requires n < 32
    ensures Bit(Initial(p).l, n) == BlockBit(p, 8 * (7 - (n & 7)) + 7 - 2 * (n >> 3))
  {
  }
}
