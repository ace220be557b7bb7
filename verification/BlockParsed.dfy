/** The parser reads back the coded symbols of a block, and so whole blocks. */
module BlockParsed {
  import opened Alphabet
  import BitIO
  import opened Bits
  import opened Canonical
  import opened Counting
  import opened Format
  import opened FormatParsed
  import opened Mtf
  import opened Parser
  import opened Rotations
  import opened TablesParsed

  /** The state in which n bits of a code have been looked at and more are needed, or none has been read. */
  lemma SymbolField(e: Runner, s: State, n: nat, v: nat)
    requires Lawful(e) && Inv(s) && s.Symbol? && Need(s) == n && v < Pow2(n)
    ensures Reads(e, s, Field(n, v), Decide(s.h, s.book, s.groupNo, s.groupPos, s.u, s.zn, if s.started then 2 * s.zvec + v else v))
  {
    ReadsField(e, s, n, v);
  }

  /** One more bit of a code. */
  lemma CodeBit(e: Runner, h: Head, book: Book, no: nat, pos: nat, u: Decoder, n: nat, z: nat, v: nat, rest: bits, t: State)
    requires InvSymbol(h, book, no, pos, u, n + 1, z, true) && v < 2
    requires Reads(e, Decide(h, book, no, pos, u, n + 1, 2 * z + v), rest, t)
    ensures Reads(e, Symbol(h, book, no, pos, u, n + 1, z, true), Field(1, v) + rest, t)
  {
    SmallPowers();
    var s := Symbol(h, book, no, pos, u, n + 1, z, true);
    SymbolField(e, s, 1, v);
    ReadsThen(e, s, Field(1, v), Decide(h, book, no, pos, u, n + 1, 2 * z + v), rest, t);
  }

  /** After the first n bits of symbol sym's code, the rest of the code leads to the symbol. */
  lemma {:induction false} CodeTail(e: Runner, h: Head, book: Book, no: nat, pos: nat, u: Decoder, sym: nat, n: nat)
    requires Lawful(e) && u.list != [] && |u.col| <= 100000 * h.size && InvBook(book, |u.list| + 2) && no < |book.selectors| && pos < GROUP_SIZE
    requires sym < |u.list| + 2
    requires var lens := Table(book, no); MinLen(lens) <= n <= lens[sym]
    ensures var lens := Table(book, no);
            Reads(e, Decide(h, book, no, pos, u, n, High(Code(lens, sym), lens[sym] - n)), Field(lens[sym] - n, Code(lens, sym)),
                  Act(h, book, no, pos, u, sym))
    decreases Table(book, no)[sym] - n
  {
    var lens := Table(book, no);
    var len, c := lens[sym], Code(lens, sym);
    var t := Act(h, book, no, pos, u, sym);
    ActInv(h, book, no, pos, u, sym);
    if n == len {
      WholeCode(lens, sym);
      ReadsNone(e, t);
    } else {
      CodeTail(e, h, book, no, pos, u, sym, n + 1);
      PrefixLonger(lens, sym, n);
      var z := High(c, len - n);
      NextBit(c, len - n - 1);
      var v := High(c, len - n - 1) % 2;
      FieldSplit(1, len - n - 1, c);
      assert Field(1, High(c, len - n - 1)) == Field(1, v);
      CodeBit(e, h, book, no, pos, u, n, z, v, Field(len - n - 1, c), t);
    }
  }

  lemma NextBit(c: nat, k: nat)
    ensures High(c, k) == 2 * High(c, k + 1) + High(c, k) % 2
  {
    HighStep(c, k);
  }

  lemma WholeCode(lens: seq<int>, sym: nat)
    requires Lengths(lens, LONGEST) && |lens| <= MAX_ALPHA_SIZE && sym < |lens|
    ensures Classify(lens, lens[sym], Code(lens, sym)) == Decoded(sym)
  {
    var n := lens[sym];
    Classified(lens, n, Code(lens, sym));
    OccMono(lens, n, sym + 1, |lens|);
    var r := Classify(lens, n, Code(lens, sym));
    SameCode(lens, r.sym, sym);
  }

  lemma SameCode(lens: seq<int>, i: nat, j: nat)
    requires i < |lens| && j < |lens| && lens[i] == lens[j] >= 0 && Code(lens, i) == Code(lens, j)
    ensures i == j
  {
    if i != j { NoPrefix(lens, i, j); }
  }

  lemma PrefixLonger(lens: seq<int>, sym: nat, n: nat)
    requires Lengths(lens, LONGEST) && |lens| <= MAX_ALPHA_SIZE && sym < |lens| && MinLen(lens) <= n < lens[sym]
    ensures Classify(lens, n, High(Code(lens, sym), lens[sym] - n)).Longer?
    ensures First(lens, n + 1) <= 2 * High(Code(lens, sym), lens[sym] - n)
  {
    PrefixAbove(lens, Code(lens, sym), lens[sym], n);
  }

  /** Any symbol's code, read from its first bit, leads to the symbol. */
  lemma CodeParsed(e: Runner, h: Head, book: Book, no: nat, pos: nat, u: Decoder, sym: nat)
    requires Lawful(e) && u.list != [] && |u.col| <= 100000 * h.size && InvBook(book, |u.list| + 2) && no < |book.selectors| && pos < GROUP_SIZE
    requires sym < |u.list| + 2 && Code(Table(book, no), sym) < Pow2(Table(book, no)[sym])
    ensures Reads(e, Symbol(h, book, no, pos, u, MinLen(Table(book, no)), 0, false), CodeBits(Table(book, no), sym), Act(h, book, no, pos, u, sym))
  {
    var lens := Table(book, no);
    var n, len, c := MinLen(lens), lens[sym], Code(lens, sym);
    var s := Symbol(h, book, no, pos, u, n, 0, false);
    var z := High(c, len - n);
    HighFits(c, n, len - n);
    SymbolField(e, s, n, z);
    CodeTail(e, h, book, no, pos, u, sym, n);
    FieldSplit(n, len - n, c);
    ReadsThen(e, s, Field(n, z), Decide(h, book, no, pos, u, n, z), Field(len - n, c), Act(h, book, no, pos, u, sym));
  }

  /** The state in which symbol i is about to be read. */
  function At(h: Head, book: Book, i: nat, u: Decoder): State
    requires InvBook(book, |u.list| + 2) && i < GROUP_SIZE * |book.selectors|
  {
    Symbol(h, book, i / GROUP_SIZE, GROUP_SIZE - 1 - i % GROUP_SIZE, u, MinLen(Table(book, i / GROUP_SIZE)), 0, false)
  }

  lemma NextAt(h: Head, book: Book, i: nat, u: Decoder)
    requires InvBook(book, |u.list| + 2) && i + 1 < GROUP_SIZE * |book.selectors|
    ensures NextSymbol(h, book, i / GROUP_SIZE, GROUP_SIZE - 1 - i % GROUP_SIZE, u) == At(h, book, i + 1, u)
  {
  }

  ghost predicate Coded(book: Book, syms: seq<int>, alphaSize: nat) {
    && InvBook(book, alphaSize) && |syms| <= GROUP_SIZE * |book.selectors|
    && (forall t :: 0 <= t < |book.tables| ==> Lengths(book.tables[t], 17) && Kraft(book.tables[t], 17) == Pow2(17))
    && forall k :: 0 <= k < |syms| ==> 0 <= syms[k] < alphaSize
  }

  lemma TableFits(book: Book, syms: seq<int>, alphaSize: nat, no: nat, sym: nat)
    requires Coded(book, syms, alphaSize) && no < |book.selectors| && sym < alphaSize
    ensures Code(Table(book, no), sym) < Pow2(Table(book, no)[sym])
  {
    CodesFit(Table(book, no), 17, sym);
  }

  /** The last symbol ends the block, and any other leads to the next. */
  lemma TakenLast(u: Decoder, syms: seq<int>, i: nat, max: nat, col: seq<byte>)
    requires u.list != [] && i + 1 == |syms| && (forall k :: 0 <= k < |syms| ==> 0 <= syms[k] < |u.list| + 2)
    requires TakeAll(u, syms[i..], max) == Done(col)
    ensures TakeSymbol(u, syms[i], max) == Done(col)
  {
    assert syms[i..][0] == syms[i] && syms[i..][1..] == [];
  }

  lemma TakenNext(u: Decoder, syms: seq<int>, i: nat, max: nat, col: seq<byte>) returns (v: Decoder)
    requires u.list != [] && i + 1 < |syms| && (forall k :: 0 <= k < |syms| ==> 0 <= syms[k] < |u.list| + 2)
    requires syms[i] <= |u.list| && |u.col| <= max && TakeAll(u, syms[i..], max) == Done(col)
    ensures TakeSymbol(u, syms[i], max) == More(v) && |v.list| == |u.list| && |v.col| <= max
    ensures TakeAll(v, syms[i + 1..], max) == Done(col)
  {
    assert syms[i..][0] == syms[i] && syms[i..][1..] == syms[i + 1..];
    v := TakeSymbol(u, syms[i], max).u;
  }

  lemma LastAct(h: Head, book: Book, i: nat, u: Decoder, syms: seq<int>, col: seq<byte>)
    requires u.list != [] && i + 1 == |syms| && Coded(book, syms, |u.list| + 2) && h.origPtr < |col|
    requires TakeAll(u, syms[i..], 100000 * h.size) == Done(col)
    ensures Act(h, book, i / GROUP_SIZE, GROUP_SIZE - 1 - i % GROUP_SIZE, u, syms[i]) == Output(h, col)
  {
    TakenLast(u, syms, i, 100000 * h.size, col);
  }

  lemma NextAct(h: Head, book: Book, i: nat, u: Decoder, syms: seq<int>, col: seq<byte>) returns (v: Decoder)
    requires u.list != [] && i + 1 < |syms| && Coded(book, syms, |u.list| + 2) && |u.col| <= 100000 * h.size && syms[i] <= |u.list|
    requires TakeAll(u, syms[i..], 100000 * h.size) == Done(col)
    ensures |v.list| == |u.list| && |v.col| <= 100000 * h.size && TakeAll(v, syms[i + 1..], 100000 * h.size) == Done(col)
    ensures Act(h, book, i / GROUP_SIZE, GROUP_SIZE - 1 - i % GROUP_SIZE, u, syms[i]) == At(h, book, i + 1, v)
  {
    v := TakenNext(u, syms, i, 100000 * h.size, col);
    NextAt(h, book, i, v);
  }

  lemma SymbolBitsAt(book: Book, syms: seq<int>, i: nat, alphaSize: nat)
    requires Coded(book, syms, alphaSize) && i < |syms|
    ensures SymbolBits(book, syms, i) == CodeBits(Table(book, i / GROUP_SIZE), syms[i]) + SymbolBits(book, syms, i + 1)
  {
  }

  lemma CodeRead(e: Runner, h: Head, book: Book, syms: seq<int>, i: nat, u: Decoder)
    requires Lawful(e) && u.list != [] && |u.col| <= 100000 * h.size && Coded(book, syms, |u.list| + 2) && i < |syms|
    ensures Reads(e, At(h, book, i, u), CodeBits(Table(book, i / GROUP_SIZE), syms[i]),
                  Act(h, book, i / GROUP_SIZE, GROUP_SIZE - 1 - i % GROUP_SIZE, u, syms[i]))
  {
    var no, pos, sym := i / GROUP_SIZE, GROUP_SIZE - 1 - i % GROUP_SIZE, syms[i];
    TableFits(book, syms, |u.list| + 2, no, sym);
    CodeParsed(e, h, book, no, pos, u, sym);
  }

  /** One symbol, with what comes after it read. */
  lemma SymbolThen(e: Runner, h: Head, book: Book, syms: seq<int>, i: nat, u: Decoder, t: State)
    requires Lawful(e) && u.list != [] && |u.col| <= 100000 * h.size && Coded(book, syms, |u.list| + 2) && i < |syms|
    requires Reads(e, Act(h, book, i / GROUP_SIZE, GROUP_SIZE - 1 - i % GROUP_SIZE, u, syms[i]), SymbolBits(book, syms, i + 1), t)
    ensures Reads(e, At(h, book, i, u), SymbolBits(book, syms, i), t)
  {
    CodeRead(e, h, book, syms, i, u);
    SymbolBitsAt(book, syms, i, |u.list| + 2);
    ReadsThen(e, At(h, book, i, u), CodeBits(Table(book, i / GROUP_SIZE), syms[i]),
              Act(h, book, i / GROUP_SIZE, GROUP_SIZE - 1 - i % GROUP_SIZE, u, syms[i]), SymbolBits(book, syms, i + 1), t);
  }

  /** Symbols i and on, through to the end of the block. */
  lemma {:induction false} SymbolsParsed(e: Runner, h: Head, book: Book, syms: seq<int>, i: nat, u: Decoder, col: seq<byte>)
    requires Lawful(e) && u.list != [] && |u.col| <= 100000 * h.size && Coded(book, syms, |u.list| + 2) && i < |syms|
    requires TakeAll(u, syms[i..], 100000 * h.size) == Done(col) && h.origPtr < |col|
    requires syms[|syms| - 1] == |u.list| + 1 && forall k :: 0 <= k < |syms| - 1 ==> syms[k] <= |u.list|
    ensures Reads(e, At(h, book, i, u), SymbolBits(book, syms, i), Output(h, col))
    decreases |syms| - i
  {
    if i + 1 == |syms| {
      LastAct(h, book, i, u, syms, col);
      ReadsNone(e, Output(h, col));
    } else {
      var v := NextAct(h, book, i, u, syms, col);
      SymbolsParsed(e, h, book, syms, i + 1, v, col);
    }
    SymbolThen(e, h, book, syms, i, u, Output(h, col));
  }

  /** A 24-bit field is three bytes. */
  lemma ThreeBytes(v: nat) returns (m: seq<int>)
    requires v < 0x100_0000
    ensures |m| == 3 && (forall i :: 0 <= i < 3 ==> 0 <= m[i] < 256)
    ensures Octets(m) == Field(24, v) && Big(0, m) == v
  {
    SmallPowers();
    var a, b, c := Field(8, High(High(v, 8), 8)), Field(8, High(v, 8)), Field(8, v);
    FieldSplit(16, 8, v);
    FieldSplit(8, 8, High(v, 8));
    m := [Value(a), Value(b), Value(c)];
    ValueField(24, v);
    ThreeValues(a, b, c);
    OctetsOfThree(a, b, c);
    BigThree(m);
  }

  lemma BigThree(m: seq<int>)
    requires |m| == 3 && forall i :: 0 <= i < 3 ==> 0 <= m[i] < 256
    ensures Big(0, m) == 256 * (256 * m[0] + m[1]) + m[2]
  {
    assert m[1..][1..][1..] == [];
    assert Big(0, m) == Big(m[0], m[1..]);
    assert Big(m[0], m[1..]) == Big(256 * m[0] + m[1], m[1..][1..]);
  }

  lemma ThreeValues(a: bits, b: bits, c: bits)
    requires |b| == 8 && |c| == 8
    ensures Value(a + b + c) == 256 * (256 * Value(a) + Value(b)) + Value(c)
  {
    ValueConcat(a + b, c);
    ValueConcat(a, b);
    BitIO.ByteShift(Value(a));
    BitIO.ByteShift(Value(a + b));
  }

  lemma OctetsOfTwo(b: bits, c: bits)
    requires |b| == |c| == 8
    ensures Value(b) < 256 && Value(c) < 256 && Octets([Value(b), Value(c)]) == b + c
  {
    OctetOf(c, []);
    OctetOf(b, [Value(c)]);
    assert [Value(c)] + [] == [Value(c)] && c + [] == c;
    assert [Value(b)] + [Value(c)] == [Value(b), Value(c)];
  }

  lemma OctetsOfThree(a: bits, b: bits, c: bits)
    requires |a| == |b| == |c| == 8
    ensures Value(a) < 256 && Value(b) < 256 && Value(c) < 256 && Octets([Value(a), Value(b), Value(c)]) == a + b + c
  {
    OctetsOfTwo(b, c);
    OctetOf(a, [Value(b), Value(c)]);
    assert [Value(a)] + [Value(b), Value(c)] == [Value(a), Value(b), Value(c)];
    Regrouped(a, b, c);
  }

  lemma OctetOf(a: bits, m: seq<int>)
    requires |a| == 8 && forall i :: 0 <= i < |m| ==> 0 <= m[i] < 256
    ensures Value(a) < 256 && Octets([Value(a)] + m) == a + Octets(m)
  {
    SmallPowers();
    FieldValue(a);
    assert ([Value(a)] + m)[1..] == m;
  }

  lemma RandBitParsed(e: Runner, size: level, crc: nat)
    requires Lawful(e)
    ensures Reads(e, RandBit(size, crc), [false], OrigPtr(Head(size, crc, false, 0), 0))
  {
    ReadsBit(e, RandBit(size, crc), false);
  }

  /** Magic number, checksum, randomisation bit and origPtr. */
  lemma HeadParsed(e: Runner, size: level, crc: nat, origPtr: nat)
    requires Lawful(e) && crc < 0x1_0000_0000 && origPtr < 0x100_0000 && origPtr <= 10 + 100000 * size
    ensures Reads(e, BlockHeader(size, 0), HeadPart(crc, origPtr), Mapping1(Head(size, crc, false, origPtr), []))
  {
    var h := Head(size, crc, false, 0);
    var t := Mapping1(Head(size, crc, false, origPtr), []);
    BlockMagicParsed(e, size, 0);
    assert BLOCK_MAGIC[0..] == BLOCK_MAGIC;
    Reassemble(crc);
    BlockCrcParsed(e, size, 0, 0, WordBytes(crc));
    RandBitParsed(e, size, crc);
    var m := ThreeBytes(origPtr);
    OrigPtrParsed(e, h, 0, 0, m);
    ReadsThen(e, RandBit(size, crc), [false], OrigPtr(h, 0), Octets(m), t);
    OctetsConcat(BLOCK_MAGIC, WordBytes(crc));
    ReadsThen(e, BlockHeader(size, 0), Octets(BLOCK_MAGIC), BlockCrc(size, 0, 0), Octets(WordBytes(crc)), RandBit(size, crc));
    ReadsThen(e, BlockHeader(size, 0), Octets(BLOCK_MAGIC + WordBytes(crc)), RandBit(size, crc), [false] + Octets(m), t);
  }

  lemma FieldSizes(n: nat, ns: nat)
    requires n <= 6 && ns <= MAX_SELECTORS
    ensures n < Pow2(3) && ns < Pow2(15)
  {
    assert Pow2(3) == 8;
    assert Pow2(7) == 128;
    Pow2Add(7, 8);
    SmallPowers();
  }

  /** The selectors, from the number of tables on. */
  lemma SelectorPart(e: Runner, h: Head, used: seq<byte>, n: nat, sel: seq<int>)
    requires Lawful(e) && Common(h, used, n) && Selected(sel, n)
    ensures forall i :: 0 <= i < |sel| ==> sel[i] in Ascending(n)
    ensures Reads(e, Selector1(h, used), Field(3, n) + (Field(15, |sel|) + UnaryBits(SelectorMtf(Ascending(n), sel))), Coding1(h, used, n, Book(sel, [])))
  {
    SelectorsIn(sel, n);
    FieldSizes(n, |sel|);
    var mtf := SelectorMtf(Ascending(n), sel);
    SelectorsBack(Ascending(n), sel);
    var t := Coding1(h, used, n, Book(sel, []));
    TableField(e, Selector1(h, used), 3, n);
    TableField(e, Selector2(h, used, n), 15, |sel|);
    SelectorsParsed(e, h, used, n, mtf, 0);
    assert mtf[..0] == [] && mtf[0..] == mtf;
    ReadsThen(e, Selector2(h, used, n), Field(15, |sel|), Chosen(h, used, n, |sel|, []), UnaryBits(mtf), t);
    ReadsThen(e, Selector1(h, used), Field(3, n), Selector2(h, used, n), Field(15, |sel|) + UnaryBits(mtf), t);
  }

  lemma MappingPartParsed(e: Runner, h: Head, inUse: usage)
    requires Lawful(e) && Used(inUse, 256) != []
    ensures Reads(e, Mapping1(h, []), MappingPart(inUse), Selector1(h, Used(inUse, 256)))
  {
    FlagsParsed(e, h, Sections(inUse), 0);
    assert Sections(inUse)[..0] == [] && Sections(inUse)[0..] == Sections(inUse);
    MappingParsed(e, h, inUse, 0);
    assert inUse[..0] == [];
    ReadsThen(e, Mapping1(h, []), Sections(inUse), Mapped(h, Sections(inUse), []), SectionBits(inUse, 0), Selector1(h, Used(inUse, 256)));
  }

  lemma ColumnDecodes(used: seq<byte>, col: seq<byte>, max: nat)
    requires used != [] && (forall x :: x in col ==> x in used) && |col| <= max && |col| < RUN_GUARD
    ensures var syms := Symbols(used, col, 0);
            && |syms| > 0 && InRange(syms, |used| + 2) && syms[0..] == syms && syms[|syms| - 1] == |used| + 1
            && (forall k :: 0 <= k < |syms| - 1 ==> syms[k] <= |used|)
            && TakeAll(Decoder(used, [], 0, 0, false), syms, max) == Done(col)
  {
    SymbolsShape(used, col, 0);
    RoundTrip(Decoder(used, [], 0, 0, false), col, 0, max);
    assert [] + Repeat(used[0], 0) + col == col;
  }

  lemma BookPart(e: Runner, h: Head, used: seq<byte>, book: Book, syms: seq<int>, col: seq<byte>)
    requires Lawful(e) && Common(h, used, |book.tables|) && Coded(book, syms, |used| + 2) && h.origPtr < |col| <= 100000 * h.size
    requires (forall x :: x in col ==> x in used) && syms == Symbols(used, col, 0)
    ensures Reads(e, Coding1(h, used, |book.tables|, Book(book.selectors, [])), TableBits(book.tables) + SymbolBits(book, syms, 0), Output(h, col))
  {
    var u := Decoder(used, [], 0, 0, false);
    CodingParsed(e, h, used, book, 0);
    assert book.tables[..0] == [] && book.tables[0..] == book.tables;
    ColumnDecodes(used, col, 100000 * h.size);
    SymbolsParsed(e, h, book, syms, 0, u, col);
    ReadsThen(e, Coding1(h, used, |book.tables|, Book(book.selectors, [])), TableBits(book.tables), At(h, book, 0, u), SymbolBits(book, syms, 0), Output(h, col));
  }

  lemma Regroup(x: bits, y: bits, z: bits, w: bits)
    ensures x + (y + z) + w == x + (y + (z + w))
  {
  }

  lemma ReadsParts(e: Runner, s: State, x: bits, y: bits, z: bits, mid: State, w: bits, t: State)
    requires Reads(e, s, x + (y + z), mid) && Reads(e, mid, w, t)
    ensures Reads(e, s, x + (y + (z + w)), t)
  {
    Regroup(x, y, z, w);
    ReadsThen(e, s, x + (y + z), mid, w, t);
  }

  lemma CodesAndSymbols(e: Runner, h: Head, used: seq<byte>, book: Book, syms: seq<int>, col: seq<byte>)
    requires Lawful(e) && Common(h, used, |book.tables|) && Coded(book, syms, |used| + 2) && Selected(book.selectors, |book.tables|)
    requires h.origPtr < |col| <= 100000 * h.size && (forall x :: x in col ==> x in used) && syms == Symbols(used, col, 0)
    ensures forall i :: 0 <= i < |book.selectors| ==> book.selectors[i] in Ascending(|book.tables|)
    ensures Reads(e, Selector1(h, used),
                  Field(3, |book.tables|) + (Field(15, |book.selectors|)
                    + (UnaryBits(SelectorMtf(Ascending(|book.tables|), book.selectors)) + (TableBits(book.tables) + SymbolBits(book, syms, 0)))),
                  Output(h, col))
  {
    var n, sel := |book.tables|, book.selectors;
    SelectorPart(e, h, used, n, sel);
    BookPart(e, h, used, book, syms, col);
    ReadsParts(e, Selector1(h, used), Field(3, n), Field(15, |sel|), UnaryBits(SelectorMtf(Ascending(n), sel)),
               Coding1(h, used, n, Book(sel, [])), TableBits(book.tables) + SymbolBits(book, syms, 0), Output(h, col));
  }

  lemma TablesPartParsed(e: Runner, h: Head, b: Block, col: seq<byte>)
    requires Lawful(e) && WellFormed(b) && h.origPtr < |col| <= 100000 * h.size
    requires (forall x :: x in col ==> x in Used(b.inUse, 256)) && b.syms == Symbols(Used(b.inUse, 256), col, 0)
    ensures Reads(e, Selector1(h, Used(b.inUse, 256)), TablesPart(b), Output(h, col))
  {
    CodesAndSymbols(e, h, Used(b.inUse, 256), b.book, b.syms, col);
  }

  /** A whole block, from its magic number to its end marker. */
  lemma BlockRead(e: Runner, size: level, b: Block, col: seq<byte>)
    requires Lawful(e) && WellFormed(b) && b.origPtr < |col| <= 100000 * size
    requires (forall x :: x in col ==> x in Used(b.inUse, 256)) && b.syms == Symbols(Used(b.inUse, 256), col, 0)
    ensures Reads(e, BlockHeader(size, 0), BlockBits(b), Output(Head(size, b.crc, false, b.origPtr), col))
  {
    var h := Head(size, b.crc, false, b.origPtr);
    HeadParsed(e, size, b.crc, b.origPtr);
    MappingPartParsed(e, h, b.inUse);
    TablesPartParsed(e, h, b, col);
    ThreeParts(e, BlockHeader(size, 0), HeadPart(b.crc, b.origPtr), Mapping1(h, []), MappingPart(b.inUse),
               Selector1(h, Used(b.inUse, 256)), TablesPart(b), Output(h, col));
  }

  lemma ThreeParts(e: Runner, s: State, x: bits, t: State, y: bits, u: State, z: bits, v: State)
    requires Reads(e, s, x, t) && Reads(e, t, y, u) && Reads(e, u, z, v)
    ensures Reads(e, s, x + (y + z), v)
  {
    ReadsThen(e, t, y, u, z, v);
    ReadsThen(e, s, x, t, y + z, v);
  }
}
