/** The second half of sendMTFValues and the fixed fields of BZ2_compressBlock: writing a block. */
module Sender {
  import opened Alphabet
  import opened BitIO
  import opened Bits
  import opened Canonical
  import opened CodeTables
  import opened Format
  import opened Mtf
  import opened Parser
  import opened Permutations

  /** One bit. */
  method PutBit(w: BitWriter, b: bool)
    requires w.Valid()
    modifies w
    ensures w.Valid() && w.written == old(w.written) + [b]
  {
    var v := if b then 1 else 0;
    SmallPowers();
    assert Field(1, v) == [b] by { assert Field(0, v / 2) == []; assert [] + [b] == [b]; }
    w.Put(1, v);
  }

  lemma Onward(before: bits, now: bits, part: bits, rest: bits, all: bits)
    requires now == before + part && before + (part + rest) == all
    ensures now + rest == all
  {
    assert before + (part + rest) == before + part + rest;
  }

  /** One field of the bits that are still to come. */
  method FieldNext(w: BitWriter, n: nat, v: nat, ghost rest: bits, ghost all: bits)
    requires w.Valid() && n <= 24 && v < Pow2(n) && w.written + (Field(n, v) + rest) == all
    modifies w
    ensures w.Valid() && w.written + rest == all
  {
    ghost var before := w.written;
    w.Put(n, v);
    Onward(before, w.written, Field(n, v), rest, all);
  }

  method BitNext(w: BitWriter, b: bool, ghost rest: bits, ghost all: bits)
    requires w.Valid() && w.written + ([b] + rest) == all
    modifies w
    ensures w.Valid() && w.written + rest == all
  {
    ghost var before := w.written;
    PutBit(w, b);
    Onward(before, w.written, [b], rest, all);
  }

  lemma OctetsAt(s: seq<int>, i: nat)
    requires i < |s| && forall i :: 0 <= i < |s| ==> 0 <= s[i] < 256
    ensures Octets(s[i..]) == Field(8, s[i]) + Octets(s[i + 1..])
  {
    assert s[i..][0] == s[i] && s[i..][1..] == s[i + 1..];
  }

  /** bsPutUChar for each byte. */
  method PutOctets(w: BitWriter, s: seq<int>)
    requires w.Valid() && forall i :: 0 <= i < |s| ==> 0 <= s[i] < 256
    modifies w
    ensures w.Valid() && w.written == old(w.written) + Octets(s)
  {
    ghost var all := w.written + Octets(s);
    SmallPowers();
    assert s[0..] == s;
    for i := 0 to |s|
      invariant w.Valid() && w.written + Octets(s[i..]) == all
    {
      OctetsAt(s, i);
      FieldNext(w, 8, s[i], Octets(s[i + 1..]), all);
    }
    assert w.written + [] == w.written;
  }

  /** Bits that are sent one by one. */
  method PutFlags(w: BitWriter, s: seq<bool>)
    requires w.Valid()
    modifies w
    ensures w.Valid() && w.written == old(w.written) + s
  {
    ghost var start := w.written;
    for i := 0 to |s|
      invariant w.Valid() && w.written + s[i..] == start + s
    {
      assert s[i..] == [s[i]] + s[i + 1..];
      BitNext(w, s[i], s[i + 1..], start + s);
    }
    assert w.written + s[|s|..] == w.written;
  }

  method FindSections(inUse: usage) returns (inUse16: seq<bool>)
    ensures inUse16 == Sections(inUse)
  {
    inUse16 := [];
    for i := 0 to 16
      invariant |inUse16| == i && forall k :: 0 <= k < i ==> inUse16[k] == (true in inUse[16 * k..16 * k + 16])
    {
      var any := false;
      ghost var part := inUse[16 * i..16 * i + 16];
      for j := 0 to 16
        invariant any <==> true in part[..j]
      {
        assert part[..j + 1] == part[..j] + [part[j]];
        if inUse[16 * i + j] { any := true; }
      }
      assert part[..16] == part;
      inUse16 := inUse16 + [any];
    }
  }

  lemma SectionAt(inUse: usage, i: nat, j: nat)
    requires i < 16 && j < 16 && Sections(inUse)[i]
    ensures SectionBits(inUse, 16 * i + j) == [inUse[16 * i + j]] + SectionBits(inUse, 16 * i + j + 1)
  {
    assert (16 * i + j) % 16 == j && (j == 0 ==> (16 * i + j) / 16 == i);
  }

  lemma NoSection(inUse: usage, i: nat)
    requires i < 16 && !Sections(inUse)[i]
    ensures SectionBits(inUse, 16 * i) == SectionBits(inUse, 16 * (i + 1))
  {
    assert (16 * i) % 16 == 0 && 16 * i / 16 == i;
  }

  method SendUse(w: BitWriter, inUse: usage, i: nat, j: nat, ghost all: bits)
    requires w.Valid() && i < 16 && j < 16 && Sections(inUse)[i] && w.written + SectionBits(inUse, 16 * i + j) == all
    modifies w
    ensures w.Valid() && w.written + SectionBits(inUse, 16 * i + j + 1) == all
  {
    SectionAt(inUse, i, j);
    BitNext(w, inUse[16 * i + j], SectionBits(inUse, 16 * i + j + 1), all);
  }

  method SendSection(w: BitWriter, inUse: usage, i: nat, ghost all: bits)
    requires w.Valid() && i < 16 && Sections(inUse)[i] && w.written + SectionBits(inUse, 16 * i) == all
    modifies w
    ensures w.Valid() && w.written + SectionBits(inUse, 16 * (i + 1)) == all
  {
    for j := 0 to 16
      invariant w.Valid() && w.written + SectionBits(inUse, 16 * i + j) == all
    {
      SendUse(w, inUse, i, j, all);
    }
  }

  /** The mapping table. */
  method SendMapping(w: BitWriter, inUse: usage)
    requires w.Valid()
    modifies w
    ensures w.Valid() && w.written == old(w.written) + MappingPart(inUse)
  {
    var inUse16 := FindSections(inUse);
    ghost var all := w.written + MappingPart(inUse);
    ghost var before, rest := w.written, SectionBits(inUse, 0);
    PutFlags(w, inUse16);
    Onward(before, w.written, inUse16, rest, all);
    for i := 0 to 16
      invariant w.Valid() && w.written + rest == all && rest == SectionBits(inUse, 16 * i)
    {
      if inUse16[i] {
        SendSection(w, inUse, i, all);
      } else {
        NoSection(inUse, i);
      }
      rest := SectionBits(inUse, 16 * (i + 1));
    }
    assert w.written + [] == w.written;
  }

  /** Finds ll in the list and moves it to the front, shifting the entries before it. */
  method Rotate(pos: array<int>, ll: int) returns (j: nat)
    requires ll in pos[..]
    modifies pos
    ensures j == old(IndexOf(pos[..], ll)) < pos.Length && pos[..] == MoveToFront(old(pos[..]), j)
  {
    ghost var was := pos[..];
    ghost var at := IndexOf(was, ll);
    j := 0;
    var tmp := pos[0];
    while tmp != ll
      invariant 0 <= j <= at < pos.Length && tmp == was[j]
      invariant forall k :: 0 <= k < j ==> was[k] != ll
      invariant forall k :: 1 <= k <= j ==> pos[k] == was[k - 1]
      invariant forall k :: j < k < pos.Length ==> pos[k] == was[k]
      decreases pos.Length - j
    {
      BeforeIndex(was, ll, j);
      j := j + 1;
      var tmp2 := tmp;
      tmp := pos[j];
      pos[j] := tmp2;
    }
    FirstFound(was, ll, j);
    pos[0] := tmp;
  }

  lemma {:induction false} BeforeIndex(l: seq<int>, x: int, j: nat)
    requires x in l && j <= IndexOf(l, x) && l[j] != x
    ensures j < IndexOf(l, x)
  {
  }

  lemma {:induction false} FirstFound(l: seq<int>, x: int, j: nat)
    requires j < |l| && l[j] == x && forall k :: 0 <= k < j ==> l[k] != x
    ensures IndexOf(l, x) == j
    decreases |l|
  {
    if j > 0 {
      assert l[0] != x;
      FirstFound(l[1..], x, j - 1);
    }
  }

  lemma SelectorNext(pos: seq<int>, selectors: seq<int>, i: nat, j: nat)
    requires i < |selectors| && (forall k :: i <= k < |selectors| ==> selectors[k] in pos) && j == IndexOf(pos, selectors[i]) < |pos|
    ensures forall k :: i + 1 <= k < |selectors| ==> selectors[k] in MoveToFront(pos, j)
    ensures SelectorMtf(pos, selectors[i..]) == [j] + SelectorMtf(MoveToFront(pos, j), selectors[i + 1..])
  {
    KeepsElements(pos, j);
    assert selectors[i..][0] == selectors[i] && selectors[i..][1..] == selectors[i + 1..];
  }

  /** Move-to-front positions of the selectors. */
  method CodeSelectors(selectors: seq<int>, nGroups: nat) returns (mtf: seq<int>)
    requires forall i :: 0 <= i < |selectors| ==> 0 <= selectors[i] < nGroups
    ensures forall i :: 0 <= i < |selectors| ==> selectors[i] in Ascending(nGroups)
    ensures mtf == SelectorMtf(Ascending(nGroups), selectors)
  {
    SelectorsIn(selectors, nGroups);
    var pos := new int[nGroups](i => i);
    assert pos[..] == Ascending(nGroups);
    mtf := [];
    ghost var all := SelectorMtf(pos[..], selectors);
    assert selectors[0..] == selectors;
    for i := 0 to |selectors|
      invariant forall k :: i <= k < |selectors| ==> selectors[k] in pos[..]
      invariant mtf + SelectorMtf(pos[..], selectors[i..]) == all
    {
      ghost var was := pos[..];
      var j := Rotate(pos, selectors[i]);
      SelectorNext(was, selectors, i, j);
      Regrouped(mtf, [j], SelectorMtf(pos[..], selectors[i + 1..]));
      mtf := mtf + [j];
    }
    assert mtf + [] == mtf;
  }

  method PutUnary(w: BitWriter, j: nat, ghost rest: bits, ghost all: bits)
    requires w.Valid() && w.written + (Ones(j) + [false] + rest) == all
    modifies w
    ensures w.Valid() && w.written + rest == all
  {
    for k := 0 to j
      invariant w.Valid() && w.written + (Ones(j - k) + [false] + rest) == all
    {
      ghost var more := Ones(j - k - 1) + [false] + rest;
      assert Ones(j - k) + [false] + rest == [true] + more;
      BitNext(w, true, more, all);
    }
    assert Ones(0) + [false] + rest == [false] + rest;
    BitNext(w, false, rest, all);
  }

  method SendSelectors(w: BitWriter, mtf: seq<int>)
    requires w.Valid() && forall i :: 0 <= i < |mtf| ==> 0 <= mtf[i]
    modifies w
    ensures w.Valid() && w.written == old(w.written) + UnaryBits(mtf)
  {
    ghost var all := w.written + UnaryBits(mtf);
    assert mtf[0..] == mtf;
    for i := 0 to |mtf|
      invariant w.Valid() && w.written + UnaryBits(mtf[i..]) == all
    {
      assert mtf[i..][0] == mtf[i] && mtf[i..][1..] == mtf[i + 1..];
      PutUnary(w, mtf[i], UnaryBits(mtf[i + 1..]), all);
    }
    assert w.written + [] == w.written;
  }

  lemma TwoBits()
    ensures Field(2, 2) == [true, false] && Field(2, 3) == [true, true] && 3 < Pow2(2)
  {
    assert Field(0, 0) == [] && Field(1, 1) == [true] by { assert [] + [true] == [true]; }
    assert Field(2, 2) == Field(1, 1) + [false] && Field(2, 3) == Field(1, 1) + [true];
    assert Pow2(2) == 4;
  }

  method StepsUp(w: BitWriter, from: int, target: int, ghost rest: bits, ghost all: bits)
    requires w.Valid() && from <= target && w.written + (DeltaBits(from, target) + rest) == all
    modifies w
    ensures w.Valid() && w.written + rest == all
  {
    TwoBits();
    var curr := from;
    while curr < target
      invariant w.Valid() && curr <= target && w.written + (DeltaBits(curr, target) + rest) == all
    {
      ghost var more := DeltaBits(curr + 1, target) + rest;
      assert DeltaBits(curr, target) + rest == [true, false] + more;
      FieldNext(w, 2, 2, more, all);
      curr := curr + 1;
    }
    assert [] + rest == rest;
  }

  lemma DownNext(curr: int, target: int, rest: bits)
    requires curr > target
    ensures DeltaBits(curr, target) + rest == [true, true] + (DeltaBits(curr - 1, target) + rest)
  {
    Regrouped([true, true], DeltaBits(curr - 1, target), rest);
  }

  method StepsDown(w: BitWriter, from: int, target: int, ghost rest: bits, ghost all: bits)
    requires w.Valid() && target <= from && w.written + (DeltaBits(from, target) + rest) == all
    modifies w
    ensures w.Valid() && w.written + rest == all
  {
    TwoBits();
    var curr := from;
    while curr > target
      invariant w.Valid() && target <= curr && w.written + (DeltaBits(curr, target) + rest) == all
    {
      ghost var more := DeltaBits(curr - 1, target) + rest;
      DownNext(curr, target, rest);
      FieldNext(w, 2, 3, more, all);
      curr := curr - 1;
    }
    assert [] + rest == rest;
  }

  /** One code length, as steps from the one before. */
  method SendDelta(w: BitWriter, from: int, target: int, ghost rest: bits, ghost all: bits)
    requires w.Valid() && w.written + (DeltaBits(from, target) + [false] + rest) == all
    modifies w
    ensures w.Valid() && w.written + rest == all
  {
    assert DeltaBits(from, target) + [false] + rest == DeltaBits(from, target) + ([false] + rest);
    if from <= target {
      StepsUp(w, from, target, [false] + rest, all);
    } else {
      StepsDown(w, from, target, [false] + rest, all);
    }
    BitNext(w, false, rest, all);
  }

  lemma Regroup(a: bits, b: bits, c: bits, d: bits)
    ensures a + b + c + d == a + b + (c + d)
  {
  }

  lemma RowAt(curr: int, row: seq<int>, i: nat)
    requires i < |row|
    ensures RowBits(curr, row[i..]) == DeltaBits(curr, row[i]) + [false] + RowBits(row[i], row[i + 1..])
  {
    assert row[i..][0] == row[i] && row[i..][1..] == row[i + 1..];
  }

  method SendRow(w: BitWriter, row: seq<int>, ghost after: bits, ghost all: bits)
    requires w.Valid() && Lengths(row, 17) && w.written + (Field(5, row[0]) + (RowBits(row[0], row) + after)) == all
    modifies w
    ensures w.Valid() && w.written + after == all
  {
    var curr := row[0];
    assert Pow2(5) == 32;
    FieldNext(w, 5, curr, RowBits(row[0], row) + after, all);
    assert row[0..] == row;
    ghost var rest := RowBits(row[0], row);
    for i := 0 to |row|
      invariant w.Valid() && rest == RowBits(curr, row[i..]) && w.written + (rest + after) == all
    {
      RowAt(curr, row, i);
      Regroup(DeltaBits(curr, row[i]), [false], RowBits(row[i], row[i + 1..]), after);
      rest := RowBits(row[i], row[i + 1..]);
      SendDelta(w, curr, row[i], rest + after, all);
      curr := row[i];
    }
    assert [] + after == after;
  }

  lemma TableAt(tables: seq<seq<int>>, t: nat)
    requires t < |tables| && forall t :: 0 <= t < |tables| ==> tables[t] != [] && 0 <= tables[t][0]
    ensures TableBits(tables[t..]) == Field(5, tables[t][0]) + (RowBits(tables[t][0], tables[t]) + TableBits(tables[t + 1..]))
  {
    assert tables[t..][0] == tables[t] && tables[t..][1..] == tables[t + 1..];
  }

  method SendTables(w: BitWriter, tables: seq<seq<int>>)
    requires w.Valid() && (forall t :: 0 <= t < |tables| ==> Lengths(tables[t], 17))
    requires forall t :: 0 <= t < |tables| ==> tables[t] != [] && 0 <= tables[t][0]
    modifies w
    ensures w.Valid() && w.written == old(w.written) + TableBits(tables)
  {
    ghost var all := w.written + TableBits(tables);
    assert tables[0..] == tables;
    for t := 0 to |tables|
      invariant w.Valid() && w.written + TableBits(tables[t..]) == all
    {
      TableAt(tables, t);
      SendRow(w, tables[t], TableBits(tables[t + 1..]), all);
    }
    assert w.written + [] == w.written;
  }

  ghost predicate CodesOf(code: seq<int>, row: seq<int>) {
    |code| == |row| && forall v :: 0 <= v < |row| ==> 0 <= row[v] && code[v] == Code(row, v)
  }

  /** The codes of every table. */
  method AssignAll(tables: seq<seq<int>>) returns (code: seq<seq<int>>)
    requires forall t :: 0 <= t < |tables| ==> Lengths(tables[t], 17)
    ensures |code| == |tables| && forall t :: 0 <= t < |tables| ==> CodesOf(code[t], tables[t])
  {
    code := [];
    for t := 0 to |tables|
      invariant |code| == t && forall k :: 0 <= k < t ==> CodesOf(code[k], tables[k])
    {
      var minLen, maxLen := MinMax(tables[t]);
      assert maxLen <= 17 && minLen >= 1;
      var row := new int[|tables[t]|];
      AssignCodes(row, tables[t], minLen, maxLen);
      code := code + [row[..]];
    }
  }

  ghost predicate Sendable(book: Book, syms: seq<int>) {
    && Selected(book.selectors, |book.tables|) && Provided(book, syms)
    && (forall t :: 0 <= t < |book.tables| ==> Complete(book.tables[t]))
  }

  lemma SymbolAt(book: Book, syms: seq<int>, i: nat)
    requires Sendable(book, syms) && i < |syms|
    ensures var row := Table(book, i / GROUP_SIZE);
            && SymbolBits(book, syms, i) == Field(row[syms[i]], Code(row, syms[i])) + SymbolBits(book, syms, i + 1)
            && row[syms[i]] <= 17 && Code(row, syms[i]) < Pow2(row[syms[i]])
  {
    CodesFit(Table(book, i / GROUP_SIZE), 17, syms[i]);
  }

  /** The block data proper; selector 3006 and counter 3007 checks hold. */
  method SendSymbols(w: BitWriter, book: Book, syms: seq<int>)
    requires w.Valid() && Sendable(book, syms) && GROUP_SIZE * |book.selectors| < |syms| + GROUP_SIZE
    modifies w
    ensures w.Valid() && w.written == old(w.written) + SymbolBits(book, syms, 0)
  {
    var code := AssignAll(book.tables);
    ghost var all := w.written + SymbolBits(book, syms, 0);
    var gs, selCtr := 0, 0;
    while gs < |syms|
      invariant 0 <= gs <= |syms| && w.Valid() && w.written + SymbolBits(book, syms, gs) == all
      invariant gs == GROUP_SIZE * selCtr || (gs == |syms| && GROUP_SIZE * selCtr < gs + GROUP_SIZE)
      invariant gs <= GROUP_SIZE * selCtr
    {
      var ge := if gs + GROUP_SIZE > |syms| then |syms| else gs + GROUP_SIZE;
      var sel := book.selectors[selCtr];
      assert sel < |book.tables|;
      SendGroup(w, book, syms, code[sel], gs, ge, selCtr, all);
      gs, selCtr := ge, selCtr + 1;
    }
    assert selCtr == |book.selectors|;
    assert w.written + [] == w.written;
  }

  method SendGroup(w: BitWriter, book: Book, syms: seq<int>, code: seq<int>, gs: nat, ge: nat, selCtr: nat, ghost all: bits)
    requires w.Valid() && Sendable(book, syms) && gs == GROUP_SIZE * selCtr && gs <= ge <= |syms| && ge <= gs + GROUP_SIZE
    requires selCtr < |book.selectors| && CodesOf(code, Table(book, selCtr))
    requires w.written + SymbolBits(book, syms, gs) == all
    modifies w
    ensures w.Valid() && w.written + SymbolBits(book, syms, ge) == all
  {
    var len := Table(book, selCtr);
    for i := gs to ge
      invariant w.Valid() && w.written + SymbolBits(book, syms, i) == all
    {
      assert i / GROUP_SIZE == selCtr;
      SymbolAt(book, syms, i);
      FieldNext(w, len[syms[i]], code[syms[i]], SymbolBits(book, syms, i + 1), all);
    }
  }

  lemma ParcelSizes(b: Block)
    requires WellFormed(b)
    ensures Sendable(b.book, b.syms) && |b.book.tables| < Pow2(3) && |b.book.selectors| < Pow2(15)
    ensures forall t :: 0 <= t < |b.book.tables| ==> b.book.tables[t] != [] && 0 <= b.book.tables[t][0] && Lengths(b.book.tables[t], 17)
  {
    assert Pow2(3) == 8;
    assert Pow2(7) == 128;
    Pow2Add(7, 8);
    SmallPowers();
  }

  /** From the number of tables to the end of the block. */
  method SendTablesPart(w: BitWriter, b: Block)
    requires w.Valid() && WellFormed(b)
    modifies w
    ensures w.Valid() && w.written == old(w.written) + TablesPart(b)
  {
    ghost var all := w.written + TablesPart(b);
    var n, sel := |b.book.tables|, b.book.selectors;
    ParcelSizes(b);
    var mtf := CodeSelectors(sel, n);
    ghost var x, y, z := UnaryBits(mtf), TableBits(b.book.tables), SymbolBits(b.book, b.syms, 0);
    FieldNext(w, 3, n, Field(15, |sel|) + (x + (y + z)), all);
    FieldNext(w, 15, |sel|, x + (y + z), all);
    ghost var before := w.written;
    SendSelectors(w, mtf);
    Onward(before, w.written, x, y + z, all);
    before := w.written;
    SendTables(w, b.book.tables);
    Onward(before, w.written, y, z, all);
    SendSymbols(w, b.book, b.syms);
  }

  /** Magic number, checksum, a zero randomisation bit and origPtr. */
  method SendHead(w: BitWriter, crc: nat, origPtr: nat)
    requires w.Valid() && origPtr < Pow2(24)
    modifies w
    ensures w.Valid() && w.written == old(w.written) + HeadPart(crc, origPtr)
  {
    ghost var all := w.written + HeadPart(crc, origPtr);
    ghost var c, p := Octets(BLOCK_MAGIC + WordBytes(crc)), Field(24, origPtr);
    ghost var before := w.written;
    PutOctets(w, BLOCK_MAGIC + WordBytes(crc));
    Onward(before, w.written, c, [false] + p, all);
    BitNext(w, false, p, all);
    w.Put(24, origPtr);
  }

  method SendBlock(w: BitWriter, b: Block)
    requires w.Valid() && WellFormed(b)
    modifies w
    ensures w.Valid() && w.written == old(w.written) + BlockBits(b)
  {
    ghost var all := w.written + BlockBits(b);
    ghost var x, y, z := HeadPart(b.crc, b.origPtr), MappingPart(b.inUse), TablesPart(b);
    SmallPowers();
    ghost var before := w.written;
    SendHead(w, b.crc, b.origPtr);
    Onward(before, w.written, x, y + z, all);
    before := w.written;
    SendMapping(w, b.inUse);
    Onward(before, w.written, y, z, all);
    SendTablesPart(w, b);
  }

  method SendTrailer(w: BitWriter, crc: nat)
    requires w.Valid()
    modifies w
    ensures w.Valid() && w.written == old(w.written) + TrailerBits(crc)
  {
    PutOctets(w, END_MAGIC + WordBytes(crc));
  }
}
