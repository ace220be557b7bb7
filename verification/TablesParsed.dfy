/** The parser reads back a block's alphabet, selectors and code lengths. */
module TablesParsed {
  import opened Alphabet
  import opened Bits
  import opened Canonical
  import opened Format
  import opened FormatParsed
  import opened Mtf
  import opened Parser
  import opened Permutations
  import opened Rotations

  lemma TableBit(e: Runner, s: State, b: bool)
    requires Lawful(e) && Inv(s) && InTables(s) && Need(s) == 1
    ensures Reads(e, s, [b], StepTables(s, if b then 1 else 0))
  {
    ReadsBit(e, s, b);
  }

  lemma TableField(e: Runner, s: State, n: nat, v: nat)
    requires Lawful(e) && Inv(s) && InTables(s) && Need(s) == n && v < Pow2(n)
    ensures Reads(e, s, Field(n, v), StepTables(s, v))
  {
    ReadsField(e, s, n, v);
  }

  /** A bit, and what is read from there. */
  lemma BitThen(e: Runner, s: State, b: bool, rest: bits, t: State)
    requires Inv(s) && InTables(s) && Need(s) == 1 && Reads(e, StepTables(s, if b then 1 else 0), rest, t)
    ensures Reads(e, s, [b] + rest, t)
  {
    TableBit(e, s, b);
    ReadsThen(e, s, [b], StepTables(s, if b then 1 else 0), rest, t);
  }

  lemma {:induction false} FlagsParsed(e: Runner, h: Head, m: seq<bool>, k: nat)
    requires Lawful(e) && |m| == 16 && k < 16
    ensures Reads(e, Mapping1(h, m[..k]), m[k..], Mapped(h, m, []))
    decreases 16 - k
  {
    MappedInv(h, m, []);
    var s := Mapping1(h, m[..k]);
    assert m[..k] + [m[k]] == m[..k + 1];
    assert m[k..] == [m[k]] + m[k + 1..];
    if k < 15 {
      FlagsParsed(e, h, m, k + 1);
    } else {
      assert m[..16] == m && m[16..] == [];
      ReadsNone(e, Mapped(h, m, []));
    }
    BitThen(e, s, m[k], m[k + 1..], Mapped(h, m, []));
  }

  lemma NoFlag(inUse: usage, i: int)
    requires 0 <= i < 16 && !Sections(inUse)[i]
    ensures inUse[..16 * i] + seq(16, _ => false) == inUse[..16 * i + 16]
  {
    var part := inUse[16 * i..16 * i + 16];
    forall x | 16 * i <= x < 16 * i + 16
      ensures !inUse[x]
    {
      assert inUse[x] == part[x - 16 * i];
    }
  }

  lemma UsageBit(e: Runner, h: Head, m: seq<bool>, u: seq<bool>, b: bool, rest: bits, t: State)
    requires |m| == 16 && |u| < 256 && Reads(e, Mapped(h, m, u + [b]), rest, t)
    ensures Reads(e, Mapping2(h, m, u), [b] + rest, t)
  {
    BitThen(e, Mapping2(h, m, u), b, rest, t);
  }

  lemma MappedAt(h: Head, m: seq<bool>, u: seq<bool>)
    requires |m| == 16 && |u| < 256 && (|u| % 16 != 0 || m[|u| / 16])
    ensures Mapped(h, m, u) == Mapping2(h, m, u)
  {
  }

  lemma UsageStep(e: Runner, h: Head, inUse: usage, k: nat, t: State)
    requires k < 256 && (k % 16 != 0 || Sections(inUse)[k / 16])
    requires Reads(e, Mapped(h, Sections(inUse), inUse[..k + 1]), SectionBits(inUse, k + 1), t)
    ensures Reads(e, Mapped(h, Sections(inUse), inUse[..k]), SectionBits(inUse, k), t)
  {
    var m, u := Sections(inUse), inUse[..k];
    MappedAt(h, m, u);
    assert u + [inUse[k]] == inUse[..k + 1];
    UsageBit(e, h, m, u, inUse[k], SectionBits(inUse, k + 1), t);
  }

  lemma Skipped(h: Head, inUse: usage, k: nat)
    requires k < 256 && k % 16 == 0 && !Sections(inUse)[k / 16]
    ensures Mapped(h, Sections(inUse), inUse[..k]) == Mapped(h, Sections(inUse), inUse[..k + 16])
    ensures SectionBits(inUse, k) == SectionBits(inUse, k + 16)
  {
    NoFlag(inUse, k / 16);
  }

  lemma AllMapped(e: Runner, h: Head, inUse: usage)
    requires Lawful(e) && Used(inUse, 256) != []
    ensures Reads(e, Mapped(h, Sections(inUse), inUse[..256]), SectionBits(inUse, 256), Selector1(h, Used(inUse, 256)))
  {
    assert inUse[..256] == inUse;
    ReadsNone(e, Selector1(h, Used(inUse, 256)));
  }

  lemma SectionSkipped(e: Runner, h: Head, inUse: usage, k: nat, t: State)
    requires k < 256 && k % 16 == 0 && !Sections(inUse)[k / 16] && k + 16 <= 256
    requires Reads(e, Mapped(h, Sections(inUse), inUse[..k + 16]), SectionBits(inUse, k + 16), t)
    ensures Reads(e, Mapped(h, Sections(inUse), inUse[..k]), SectionBits(inUse, k), t)
  {
    Skipped(h, inUse, k);
  }

  lemma {:induction false} MappingParsed(e: Runner, h: Head, inUse: usage, k: nat)
    requires Lawful(e) && k <= 256 && Used(inUse, 256) != []
    ensures Reads(e, Mapped(h, Sections(inUse), inUse[..k]), SectionBits(inUse, k), Selector1(h, Used(inUse, 256)))
    decreases 256 - k
  {
    var t := Selector1(h, Used(inUse, 256));
    if k == 256 {
      AllMapped(e, h, inUse);
    } else if k % 16 == 0 && !Sections(inUse)[k / 16] {
      MappingParsed(e, h, inUse, k + 16);
      SectionSkipped(e, h, inUse, k, t);
    } else {
      MappingParsed(e, h, inUse, k + 1);
      UsageStep(e, h, inUse, k, t);
    }
  }

  lemma {:induction false} SelectorsBack(pos: seq<int>, sel: seq<int>)
    requires forall i :: 0 <= i < |sel| ==> sel[i] in pos
    ensures UndoMtf(pos, SelectorMtf(pos, sel)) == sel
    decreases |sel|
  {
    if sel != [] {
      var j := IndexOf(pos, sel[0]);
      KeepsElements(pos, j);
      SelectorsBack(MoveToFront(pos, j), sel[1..]);
      var more := SelectorMtf(MoveToFront(pos, j), sel[1..]);
      assert ([j] + more)[1..] == more;
    }
  }

  /** The ones of a selector, then its zero. */
  lemma {:induction false} UnaryParsed(e: Runner, h: Head, used: seq<byte>, n: nat, ns: nat, mtf: seq<int>, j: nat, v: nat, rest: bits, t: State)
    requires Inv(Selector3(h, used, n, ns, mtf, j)) && j <= v < n
    requires Reads(e, Chosen(h, used, n, ns, mtf + [v]), rest, t)
    ensures Reads(e, Selector3(h, used, n, ns, mtf, j), Ones(v - j) + [false] + rest, t)
    decreases v - j
  {
    if j == v {
      assert Ones(0) + [false] + rest == [false] + rest;
      BitThen(e, Selector3(h, used, n, ns, mtf, j), false, rest, t);
    } else {
      UnaryParsed(e, h, used, n, ns, mtf, j + 1, v, rest, t);
      assert Ones(v - j) + [false] + rest == [true] + (Ones(v - j - 1) + [false] + rest);
      BitThen(e, Selector3(h, used, n, ns, mtf, j), true, Ones(v - j - 1) + [false] + rest, t);
    }
  }

  lemma {:induction false} SelectorsParsed(e: Runner, h: Head, used: seq<byte>, n: nat, mtf: seq<int>, k: nat)
    requires Lawful(e) && Common(h, used, n) && k <= |mtf| && 1 <= |mtf| && forall i :: 0 <= i < |mtf| ==> 0 <= mtf[i] < n
    ensures Reads(e, Chosen(h, used, n, |mtf|, mtf[..k]), UnaryBits(mtf[k..]), Chosen(h, used, n, |mtf|, mtf))
    decreases |mtf| - k
  {
    var t := Chosen(h, used, n, |mtf|, mtf);
    ChosenInv(h, used, n, |mtf|, mtf);
    if k == |mtf| {
      assert mtf[..k] == mtf && mtf[k..] == [];
      ReadsNone(e, t);
    } else {
      SelectorsParsed(e, h, used, n, mtf, k + 1);
      assert mtf[..k] + [mtf[k]] == mtf[..k + 1];
      assert mtf[k..][0] == mtf[k] && mtf[k..][1..] == mtf[k + 1..];
      UnaryParsed(e, h, used, n, |mtf|, mtf[..k], 0, mtf[k], UnaryBits(mtf[k + 1..]), t);
    }
  }

  lemma StepUp(e: Runner, h: Head, used: seq<byte>, n: nat, book: Book, row: seq<int>, curr: int, rest: bits, t: State)
    requires InvCoding(h, used, n, book, row, curr) && curr < LONGEST && Reads(e, Coding2(h, used, n, book, row, curr + 1), rest, t)
    ensures Reads(e, Coding2(h, used, n, book, row, curr), [true, false] + rest, t)
  {
    BitThen(e, Coding3(h, used, n, book, row, curr), false, rest, t);
    ToStep(e, h, used, n, book, row, curr, [false] + rest, t);
    assert [true, false] + rest == [true] + ([false] + rest);
  }

  lemma StepDown(e: Runner, h: Head, used: seq<byte>, n: nat, book: Book, row: seq<int>, curr: int, rest: bits, t: State)
    requires InvCoding(h, used, n, book, row, curr) && 1 < curr && Reads(e, Coding2(h, used, n, book, row, curr - 1), rest, t)
    ensures Reads(e, Coding2(h, used, n, book, row, curr), [true, true] + rest, t)
  {
    BitThen(e, Coding3(h, used, n, book, row, curr), true, rest, t);
    ToStep(e, h, used, n, book, row, curr, [true] + rest, t);
    assert [true, true] + rest == [true] + ([true] + rest);
  }

  lemma ToStep(e: Runner, h: Head, used: seq<byte>, n: nat, book: Book, row: seq<int>, curr: int, rest: bits, t: State)
    requires InvCoding(h, used, n, book, row, curr) && Reads(e, Coding3(h, used, n, book, row, curr), rest, t)
    ensures Reads(e, Coding2(h, used, n, book, row, curr), [true] + rest, t)
  {
    BitThen(e, Coding2(h, used, n, book, row, curr), true, rest, t);
  }

  lemma {:induction false} DeltaParsed(e: Runner, h: Head, used: seq<byte>, n: nat, book: Book, row: seq<int>, curr: int, target: int, rest: bits, t: State)
    requires InvCoding(h, used, n, book, row, curr) && 1 <= target <= LONGEST
    requires Reads(e, Coding2(h, used, n, book, row, target), rest, t)
    ensures Reads(e, Coding2(h, used, n, book, row, curr), DeltaBits(curr, target) + rest, t)
    decreases if curr < target then target - curr else curr - target
  {
    if curr == target {
      assert DeltaBits(curr, target) + rest == rest;
    } else if curr < target {
      DeltaParsed(e, h, used, n, book, row, curr + 1, target, rest, t);
      var more := DeltaBits(curr + 1, target) + rest;
      StepUp(e, h, used, n, book, row, curr, more, t);
      assert DeltaBits(curr, target) + rest == [true, false] + more;
    } else {
      DeltaParsed(e, h, used, n, book, row, curr - 1, target, rest, t);
      var more := DeltaBits(curr - 1, target) + rest;
      StepDown(e, h, used, n, book, row, curr, more, t);
      assert DeltaBits(curr, target) + rest == [true, true] + more;
    }
  }

  /** The state after a complete row. */
  function RowDone(h: Head, used: seq<byte>, n: nat, book: Book, row: seq<int>): State
    requires |book.tables| + 1 >= n ==> InvBook(book.(tables := book.tables + [row]), |used| + 2)
  {
    var full := book.(tables := book.tables + [row]);
    if |full.tables| < n then Coding1(h, used, n, full) else NextSymbol(h, full, -1, 0, Decoder(used, [], 0, 0, false))
  }

  ghost predicate Row(h: Head, used: seq<byte>, n: nat, book: Book, row: seq<int>) {
    && Common(h, used, n) && Selected(book.selectors, n) && |book.tables| < n && Tables(book.tables, |used| + 2)
    && |row| == |used| + 2 && Lengths(row, LONGEST)
  }

  lemma RowDoneInv(h: Head, used: seq<byte>, n: nat, book: Book, row: seq<int>)
    requires Row(h, used, n, book, row)
    ensures |book.tables| + 1 >= n ==> InvBook(book.(tables := book.tables + [row]), |used| + 2)
    ensures Inv(RowDone(h, used, n, book, row))
  {
  }

  /** The zero bit that settles entry k. */
  lemma EntryParsed(e: Runner, h: Head, used: seq<byte>, n: nat, book: Book, row: seq<int>, k: nat, rest: bits, t: State)
    requires Row(h, used, n, book, row) && k < |row|
    requires |book.tables| + 1 >= n ==> InvBook(book.(tables := book.tables + [row]), |used| + 2)
    requires Reads(e, if k + 1 < |row| then Coding2(h, used, n, book, row[..k + 1], row[k]) else RowDone(h, used, n, book, row), rest, t)
    ensures Reads(e, Coding2(h, used, n, book, row[..k], row[k]), [false] + rest, t)
  {
    var s := Coding2(h, used, n, book, row[..k], row[k]);
    assert row[..k] + [row[k]] == row[..k + 1];
    if k + 1 == |row| { assert row[..k + 1] == row; }
    RowComplete(book, used, n, row[..k], row[k]);
    assert StepTables(s, 0) == if k + 1 < |row| then Coding2(h, used, n, book, row[..k + 1], row[k]) else RowDone(h, used, n, book, row);
    BitThen(e, s, false, rest, t);
  }

  lemma {:induction false} RowParsed(e: Runner, h: Head, used: seq<byte>, n: nat, book: Book, row: seq<int>, k: nat, curr: int)
    requires Lawful(e) && Row(h, used, n, book, row) && k < |row| && 1 <= curr <= LONGEST
    requires |book.tables| + 1 >= n ==> InvBook(book.(tables := book.tables + [row]), |used| + 2)
    ensures Reads(e, Coding2(h, used, n, book, row[..k], curr), RowBits(curr, row[k..]), RowDone(h, used, n, book, row))
    decreases |row| - k
  {
    var t := RowDone(h, used, n, book, row);
    RowDoneInv(h, used, n, book, row);
    var rest := RowBits(row[k], row[k + 1..]);
    if k + 1 < |row| {
      RowParsed(e, h, used, n, book, row, k + 1, row[k]);
    } else {
      assert row[k + 1..] == [];
      ReadsNone(e, t);
    }
    EntryParsed(e, h, used, n, book, row, k, rest, t);
    DeltaParsed(e, h, used, n, book, row[..k], curr, row[k], [false] + rest, t);
    assert row[k..][0] == row[k] && row[k..][1..] == row[k + 1..];
    assert DeltaBits(curr, row[k]) + [false] + rest == DeltaBits(curr, row[k]) + ([false] + rest);
  }

  lemma FiveBits(v: nat)
    requires v <= LONGEST
    ensures v < Pow2(5)
  {
    assert Pow2(5) == 32;
  }

  lemma OneTableParsed(e: Runner, h: Head, used: seq<byte>, n: nat, book: Book, row: seq<int>)
    requires Lawful(e) && Row(h, used, n, book, row)
    requires |book.tables| + 1 >= n ==> InvBook(book.(tables := book.tables + [row]), |used| + 2)
    ensures Reads(e, Coding1(h, used, n, book), Field(5, row[0]) + RowBits(row[0], row), RowDone(h, used, n, book, row))
  {
    FiveBits(row[0]);
    TableField(e, Coding1(h, used, n, book), 5, row[0]);
    RowParsed(e, h, used, n, book, row, 0, row[0]);
    assert row[..0] == [] && row[0..] == row;
    ReadsThen(e, Coding1(h, used, n, book), Field(5, row[0]), Coding2(h, used, n, book, [], row[0]), RowBits(row[0], row), RowDone(h, used, n, book, row));
  }

  lemma {:induction false} CodingParsed(e: Runner, h: Head, used: seq<byte>, book: Book, k: nat)
    requires Lawful(e) && Common(h, used, |book.tables|) && InvBook(book, |used| + 2) && k < |book.tables|
    ensures Reads(e, Coding1(h, used, |book.tables|, Book(book.selectors, book.tables[..k])), TableBits(book.tables[k..]),
                  NextSymbol(h, book, -1, 0, Decoder(used, [], 0, 0, false)))
    decreases |book.tables| - k
  {
    var n, tables := |book.tables|, book.tables;
    var b, row := Book(book.selectors, tables[..k]), tables[k];
    var t := NextSymbol(h, book, -1, 0, Decoder(used, [], 0, 0, false));
    assert tables[..k] + [row] == tables[..k + 1];
    assert tables[k..][0] == row && tables[k..][1..] == tables[k + 1..];
    if k + 1 == n { assert tables[..k + 1] == tables; }
    OneTableParsed(e, h, used, n, b, row);
    if k + 1 < n {
      CodingParsed(e, h, used, book, k + 1);
    } else {
      assert tables[k + 1..] == [];
      ReadsNone(e, t);
    }
    ReadsThen(e, Coding1(h, used, n, b), Field(5, row[0]) + RowBits(row[0], row), RowDone(h, used, n, b, row), TableBits(tables[k + 1..]), t);
  }
}
