/** The compressed format: the bits of each part of a stream, in the order they are sent. */
module Format {
  import opened Alphabet
  import opened Bits
  import opened Canonical
  import opened Mtf
  import opened Parser
  import opened Permutations

  /** Bytes as eight-bit fields. */
  function Octets(s: seq<int>): bits
    requires forall i :: 0 <= i < |s| ==> 0 <= s[i] < 256
  {
    if s == [] then [] else Field(8, s[0]) + Octets(s[1..])
  }

  lemma {:induction false} OctetsConcat(a: seq<int>, b: seq<int>)
    requires (forall i :: 0 <= i < |a| ==> 0 <= a[i] < 256) && forall i :: 0 <= i < |b| ==> 0 <= b[i] < 256
    ensures Octets(a + b) == Octets(a) + Octets(b)
    decreases |a|
  {
    if a == [] {
      assert a + b == b;
    } else {
      OctetsConcat(a[1..], b);
      assert (a + b)[1..] == a[1..] + b;
    }
  }

  /** Eight-bit fields are the bits of the bytes. */
  lemma {:induction false} OctetsAreBytes(s: seq<int>)
    requires forall i :: 0 <= i < |s| ==> 0 <= s[i] < 256
    ensures Octets(s) == BytesToBits(s)
  {
    if s != [] {
      OctetsAreBytes(s[1..]);
      BytesToBitsConcat([s[0]], s[1..]);
      assert [s[0]] + s[1..] == s;
      assert [s[0]][..0] == [];
      assert BytesToBits([s[0]]) == Field(8, s[0]);
    }
  }

  /** bsPutUInt32: the four bytes of a word. */
  function WordBytes(u: nat): (s: seq<int>)
    ensures |s| == 4 && forall i :: 0 <= i < 4 ==> 0 <= s[i] < 256
  {
    [u / 0x100_0000 % 256, u / 0x1_0000 % 256, u / 0x100 % 256, u % 256]
  }

  /** Most significant byte first. */
  lemma WordBytesValue(u: nat)
    requires u < 0x1_0000_0000
    ensures var s := WordBytes(u); ((s[0] * 256 + s[1]) * 256 + s[2]) * 256 + s[3] == u
  {
    var a := u / 256;
    var b := a / 256;
    assert u / 0x1_0000 == b && u / 0x100_0000 == b / 256;
  }

  function HeaderBits(size: level): bits {
    Octets([0x42, 0x5a, 0x68, 0x30 + size])
  }

  function TrailerBits(crc: nat): bits {
    Octets(END_MAGIC + WordBytes(crc))
  }

  /** One block as it is sent. */
  datatype Block = Block(crc: nat, origPtr: nat, inUse: usage, book: Book, syms: seq<int>)

  /** Which sections of sixteen byte values contain a used one. */
  function Sections(inUse: usage): (m: seq<bool>)
    ensures |m| == 16
  {
    seq(16, i requires 0 <= i < 16 => true in inUse[16 * i..16 * i + 16])
  }

  /** One bit for each byte value from k on whose section is flagged. */
  function SectionBits(inUse: usage, k: nat): bits
    requires k <= 256
    decreases 256 - k
  {
    if k == 256 then []
    else if k % 16 == 0 && !Sections(inUse)[k / 16] then SectionBits(inUse, k + 16)
    else [inUse[k]] + SectionBits(inUse, k + 1)
  }

  /** Move-to-front positions of the selectors. */
  function SelectorMtf(pos: seq<int>, sel: seq<int>): (mtf: seq<int>)
    requires forall i :: 0 <= i < |sel| ==> sel[i] in pos
    ensures |mtf| == |sel| && forall i :: 0 <= i < |mtf| ==> 0 <= mtf[i] < |pos|
    decreases |sel|
  {
    if sel == [] then []
    else
      var j := IndexOf(pos, sel[0]);
      KeepsElements(pos, j);
      [j] + SelectorMtf(MoveToFront(pos, j), sel[1..])
  }

  function Ones(n: nat): bits {
    if n == 0 then [] else [true] + Ones(n - 1)
  }

  function UnaryBits(mtf: seq<int>): bits
    requires forall i :: 0 <= i < |mtf| ==> 0 <= mtf[i]
  {
    if mtf == [] then [] else Ones(mtf[0]) + [false] + UnaryBits(mtf[1..])
  }

  /** From one length to the next: 10 steps up, 11 steps down. */
  function DeltaBits(curr: int, target: int): bits
    decreases if curr < target then target - curr else curr - target
  {
    if curr < target then [true, false] + DeltaBits(curr + 1, target)
    else if curr > target then [true, true] + DeltaBits(curr - 1, target)
    else []
  }

  function RowBits(curr: int, row: seq<int>): bits
    decreases |row|
  {
    if row == [] then [] else DeltaBits(curr, row[0]) + [false] + RowBits(row[0], row[1..])
  }

  function TableBits(tables: seq<seq<int>>): bits
    requires forall t :: 0 <= t < |tables| ==> tables[t] != [] && 0 <= tables[t][0]
  {
    if tables == [] then [] else Field(5, tables[0][0]) + RowBits(tables[0][0], tables[0]) + TableBits(tables[1..])
  }

  /** There is a selector for every group and a code for every symbol in every table. */
  ghost predicate Provided(book: Book, syms: seq<int>) {
    && |syms| <= GROUP_SIZE * |book.selectors|
    && (forall t :: 0 <= t < |book.selectors| ==> 0 <= book.selectors[t] < |book.tables|)
    && forall t, k :: 0 <= t < |book.tables| && 0 <= k < |syms| ==> 0 <= syms[k] < |book.tables[t]| && 0 <= book.tables[t][syms[k]]
  }

  /** Symbols i and on, in groups of fifty. */
  function SymbolBits(book: Book, syms: seq<int>, i: nat): bits
    requires i <= |syms| && Provided(book, syms)
    decreases |syms| - i
  {
    if i == |syms| then []
    else CodeBits(Table(book, i / GROUP_SIZE), syms[i]) + SymbolBits(book, syms, i + 1)
  }

  /** What the compressor guarantees of a block; 17 is its longest code. */
  ghost predicate WellFormed(b: Block) {
    var used := Used(b.inUse, 256);
    && b.crc < 0x1_0000_0000 && b.origPtr < 0x100_0000 && used != []
    && 2 <= |b.book.tables| <= MAX_GROUPS && InvBook(b.book, |used| + 2)
    && (forall t :: 0 <= t < |b.book.tables| ==> Lengths(b.book.tables[t], 17) && Kraft(b.book.tables[t], 17) == Pow2(17))
    && |b.syms| <= GROUP_SIZE * |b.book.selectors| < |b.syms| + GROUP_SIZE
    && forall k :: 0 <= k < |b.syms| ==> 0 <= b.syms[k] < |used| + 2
  }

  lemma SelectorsIn(sel: seq<int>, n: nat)
    requires forall i :: 0 <= i < |sel| ==> 0 <= sel[i] < n
    ensures forall i :: 0 <= i < |sel| ==> sel[i] in Ascending(n)
  {
    forall i | 0 <= i < |sel|
      ensures sel[i] in Ascending(n)
    {
      assert Ascending(n)[sel[i]] == sel[i];
    }
  }

  function TablesPart(b: Block): bits
    requires WellFormed(b)
  {
    var n := |b.book.tables|;
    SelectorsIn(b.book.selectors, n);
    Field(3, n) + (Field(15, |b.book.selectors|)
      + (UnaryBits(SelectorMtf(Ascending(n), b.book.selectors)) + (TableBits(b.book.tables) + SymbolBits(b.book, b.syms, 0))))
  }

  /** Magic number, checksum, randomisation bit and origPtr. */
  function HeadPart(crc: nat, origPtr: nat): bits {
    Octets(BLOCK_MAGIC + WordBytes(crc)) + ([false] + Field(24, origPtr))
  }

  function MappingPart(inUse: usage): bits {
    Sections(inUse) + SectionBits(inUse, 0)
  }

  function BlockBits(b: Block): bits
    requires WellFormed(b)
  {
    HeadPart(b.crc, b.origPtr) + (MappingPart(b.inUse) + TablesPart(b))
  }
}
