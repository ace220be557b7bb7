/** Why a compressed block always fits behind the uncompressed one in arr2. */
module Space {
  import opened Alphabet
  import opened Canonical
  import opened Format
  import opened Parser

  lemma {:induction false} OctetsLength(s: seq<int>)
    requires forall i :: 0 <= i < |s| ==> 0 <= s[i] < 256
    ensures |Octets(s)| == 8 * |s|
  {
    if s != [] {
      OctetsLength(s[1..]);
    }
  }

  lemma {:induction false} SectionLength(inUse: usage, k: nat)
    requires k <= 256
    ensures |SectionBits(inUse, k)| <= 256 - k
    decreases 256 - k
  {
    if k < 256 {
      if k % 16 == 0 && !Sections(inUse)[k / 16] {
        SectionLength(inUse, k + 16);
      } else {
        SectionLength(inUse, k + 1);
      }
    }
  }

  lemma {:induction false} OnesLength(n: nat)
    ensures |Ones(n)| == n
  {
    if n > 0 {
      OnesLength(n - 1);
    }
  }

  lemma {:induction false} UnaryLength(mtf: seq<int>)
    requires forall i :: 0 <= i < |mtf| ==> 0 <= mtf[i] < 6
    ensures |UnaryBits(mtf)| <= 6 * |mtf|
  {
    if mtf != [] {
      OnesLength(mtf[0]);
      UnaryLength(mtf[1..]);
    }
  }

  lemma {:induction false} DeltaLength(curr: int, target: int)
    ensures |DeltaBits(curr, target)| == 2 * if curr < target then target - curr else curr - target
    decreases if curr < target then target - curr else curr - target
  {
    if curr < target {
      DeltaLength(curr + 1, target);
    } else if curr > target {
      DeltaLength(curr - 1, target);
    }
  }

  lemma {:induction false} RowLength(curr: int, row: seq<int>)
    requires 1 <= curr <= 17 && forall i :: 0 <= i < |row| ==> 1 <= row[i] <= 17
    ensures |RowBits(curr, row)| <= 33 * |row|
    decreases |row|
  {
    if row != [] {
      DeltaLength(curr, row[0]);
      RowLength(row[0], row[1..]);
    }
  }

  lemma {:induction false} TablesLength(tables: seq<seq<int>>)
    requires forall t :: 0 <= t < |tables| ==> Lengths(tables[t], 17) && |tables[t]| <= MAX_ALPHA_SIZE
    requires forall t :: 0 <= t < |tables| ==> tables[t] != [] && 0 <= tables[t][0]
    ensures |TableBits(tables)| <= 8519 * |tables|
    decreases |tables|
  {
    if tables != [] {
      RowLength(tables[0][0], tables[0]);
      TablesLength(tables[1..]);
    }
  }

  lemma {:induction false} SymbolsLength(b: Block, i: nat)
    requires WellFormed(b) && i <= |b.syms|
    ensures |SymbolBits(b.book, b.syms, i)| <= 17 * (|b.syms| - i)
    decreases |b.syms| - i
  {
    if i < |b.syms| {
      SymbolsLength(b, i + 1);
    }
  }

  lemma TablesPartLength(b: Block)
    requires WellFormed(b)
    ensures |TablesPart(b)| <= 18 + 6 * |b.book.selectors| + 6 * 8519 + 17 * |b.syms|
  {
    var n, sel := |b.book.tables|, b.book.selectors;
    SelectorsIn(sel, n);
    UnaryLength(SelectorMtf(Ascending(n), sel));
    TablesLength(b.book.tables);
    SymbolsLength(b, 0);
  }

  lemma BlockLength(b: Block)
    requires WellFormed(b)
    ensures |BlockBits(b)| <= 395 + 6 * |b.book.selectors| + 6 * 8519 + 17 * |b.syms|
  {
    OctetsLength(BLOCK_MAGIC + WordBytes(b.crc));
    SectionLength(b.inUse, 0);
    TablesPartLength(b);
  }

  /** The most bits a block of n bytes can take. */
  function MostBits(n: nat): nat {
    395 + 6 * ((n + 50) / 50) + 6 * 8519 + 17 * (n + 1)
  }

  lemma MostIsEnough(b: Block, n: nat)
    requires WellFormed(b) && |b.syms| <= n + 1
    ensures |BlockBits(b)| <= MostBits(n)
  {
    BlockLength(b);
    assert |b.book.selectors| <= (n + 50) / 50;
  }

  /**
   * The bytes of a block of n bytes, n at most 100000 * size - 10, with the bits carried over, a
   * header and a trailer, fit the 4 * (100000 * size + 34) bytes of arr2 behind the block itself.
   */
  lemma EnoughSpace(size: level, n: nat, zbits: nat)
    requires n <= 100000 * size - 10 && 8 * zbits <= 32 + 32 + MostBits(n) + 80 + 7
    ensures n + zbits <= 4 * (100000 * size + 34)
  {
  }
}
