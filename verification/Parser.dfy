/**
 * BZ2_decompress up to the start of block output, as a machine that is given one bit field
 * at a time. Each constructor stands for the GET_BITS labels at which the source suspends,
 * and carries the saved variables that are live there.
 */
module Parser {
  import opened Alphabet
  import opened Bits
  import opened Canonical
  import opened Mtf
  import opened Rotations

  const MAX_SELECTORS: nat := 18002
  const GROUP_SIZE: nat := 50
  const MAX_GROUPS: nat := 6

  /** blockSize100k. */
  type level = x: int | 1 <= x <= 9 witness 1

  datatype Error = MagicError | DataError

  /** What a block's header has told so far. */
  datatype Head = Head(size: level, crc: nat, randomised: bool, origPtr: nat)

  /** The code books of a block: which table codes each group of 50 symbols. */
  datatype Book = Book(selectors: seq<int>, tables: seq<seq<int>>)

  datatype State =
    | Magic(k: nat)
    | BlockHeader(size: level, k: nat)
    | BlockCrc(size: level, k: nat, crc: nat)
    | RandBit(size: level, crc: nat)
    | OrigPtr(h: Head, k: nat)
    | Mapping1(h: Head, inUse16: seq<bool>)
    | Mapping2(h: Head, inUse16: seq<bool>, inUse: seq<bool>)
    | Selector1(h: Head, used: seq<byte>)
    | Selector2(h: Head, used: seq<byte>, nGroups: nat)
    | Selector3(h: Head, used: seq<byte>, nGroups: nat, nSelectors: nat, mtf: seq<int>, j: nat)
    | Coding1(h: Head, used: seq<byte>, nGroups: nat, book: Book)
    | Coding2(h: Head, used: seq<byte>, nGroups: nat, book: Book, row: seq<int>, curr: int)
    | Coding3(h: Head, used: seq<byte>, nGroups: nat, book: Book, row: seq<int>, curr: int)
    | Symbol(h: Head, book: Book, groupNo: nat, groupPos: nat, u: Decoder, zn: nat, zvec: nat, started: bool)
    | EndHeader(size: level, k: nat)
    | StreamCrc(size: level, k: nat, crc: nat)
    | Output(h: Head, col: seq<byte>)
    | Idle(crc: nat)
    | Failed(error: Error)

  const STREAM_MAGIC: seq<int> := [0x42, 0x5a, 0x68]
  const BLOCK_MAGIC: seq<int> := [0x31, 0x41, 0x59, 0x26, 0x53, 0x59]
  const END_MAGIC: seq<int> := [0x17, 0x72, 0x45, 0x38, 0x50, 0x90]

  ghost predicate Selected(selectors: seq<int>, nGroups: nat) {
    1 <= |selectors| <= MAX_SELECTORS && forall i :: 0 <= i < |selectors| ==> 0 <= selectors[i] < nGroups
  }

  ghost predicate Tables(tables: seq<seq<int>>, alphaSize: nat) {
    forall t :: 0 <= t < |tables| ==> Lengths(tables[t], LONGEST) && |tables[t]| == alphaSize
  }

  ghost predicate Common(h: Head, used: seq<byte>, nGroups: nat) {
    1 <= |used| <= 256 && 2 <= nGroups <= MAX_GROUPS
  }

  /** The table that codes the current group. */
  function Table(book: Book, groupNo: nat): seq<int>
    requires groupNo < |book.selectors| && 0 <= book.selectors[groupNo] < |book.tables|
  {
    book.tables[book.selectors[groupNo]]
  }

  ghost predicate Inv(s: State) {
    match s
    case Magic(k) => k < 4
    case BlockHeader(size, k) => k < 6
    case BlockCrc(size, k, crc) => k < 4
    case OrigPtr(h, k) => k < 3
    case Mapping1(h, m) => |m| < 16
    case Mapping2(h, m, u) => |m| == 16 && |u| < 256
    case Selector1(h, used) => Common(h, used, 2)
    case Selector2(h, used, n) => Common(h, used, n)
    case Selector3(h, used, n, ns, mtf, j) =>
      Common(h, used, n) && |mtf| < ns && j < n && forall i :: 0 <= i < |mtf| ==> 0 <= mtf[i] < n
    case Coding1(h, used, n, book) =>
      Common(h, used, n) && Selected(book.selectors, n) && |book.tables| < n && Tables(book.tables, |used| + 2)
    case Coding2(h, used, n, book, row, curr) => InvCoding(h, used, n, book, row, curr)
    case Coding3(h, used, n, book, row, curr) => InvCoding(h, used, n, book, row, curr)
    case Symbol(h, book, no, pos, u, zn, zvec, started) => InvSymbol(h, book, no, pos, u, zn, zvec, started)
    case EndHeader(size, k) => 1 <= k < 6
    case StreamCrc(size, k, crc) => k < 4
    case Output(h, col) => h.origPtr < |col| <= 100000 * h.size
    case _ => true
  }

  ghost predicate InvCoding(h: Head, used: seq<byte>, n: nat, book: Book, row: seq<int>, curr: int) {
    && Common(h, used, n) && Selected(book.selectors, n) && |book.tables| < n && Tables(book.tables, |used| + 2)
    && |row| < |used| + 2 && 1 <= curr <= LONGEST && forall i :: 0 <= i < |row| ==> 1 <= row[i] <= LONGEST
  }

  ghost predicate InvBook(book: Book, alphaSize: nat) {
    Selected(book.selectors, |book.tables|) && Tables(book.tables, alphaSize) && alphaSize <= MAX_ALPHA_SIZE
  }

  ghost predicate InvSymbol(h: Head, book: Book, no: nat, pos: nat, u: Decoder, zn: nat, zvec: nat, started: bool) {
    && u.list != [] && |u.col| <= 100000 * h.size
    && InvBook(book, |u.list| + 2) && no < |book.selectors| && pos < GROUP_SIZE
    && zn >= MinLen(Table(book, no)) && (if started then zn <= LONGEST + 1 && First(Table(book, no), zn) <= 2 * zvec else zn == MinLen(Table(book, no)))
  }

  predicate Stopped(s: State) {
    s.Output? || s.Idle? || s.Failed?
  }

  /** How many bits the next GET_BITS asks for. */
  function Need(s: State): (n: nat)
    requires Inv(s)
    ensures 1 <= n <= 20
  {
    match s
    case Magic(_) => 8
    case BlockHeader(_, _) => 8
    case BlockCrc(_, _, _) => 8
    case OrigPtr(_, _) => 8
    case EndHeader(_, _) => 8
    case StreamCrc(_, _, _) => 8
    case Selector1(_, _) => 3
    case Selector2(_, _, _) => 15
    case Coding1(_, _, _, _) => 5
    case Symbol(_, book, no, _, _, zn, _, started) => if started then 1 else MinLen(Table(book, no))
    case _ => 1
  }

  /** Undoing the move-to-front coding of the selectors. */
  function UndoMtf(pos: seq<int>, mtf: seq<int>): (sel: seq<int>)
    requires forall i :: 0 <= i < |mtf| ==> 0 <= mtf[i] < |pos|
    ensures |sel| == |mtf|
    decreases |mtf|
  {
    if mtf == [] then [] else [pos[mtf[0]]] + UndoMtf(MoveToFront(pos, mtf[0]), mtf[1..])
  }

  function Ascending(n: nat): (s: seq<int>)
    ensures |s| == n && forall i :: 0 <= i < n ==> s[i] == i
  {
    seq(n, i => i)
  }

  /** Sections of sixteen bytes that are not flagged are skipped; after the last one the alphabet is complete. */
  function Mapped(h: Head, inUse16: seq<bool>, inUse: seq<bool>): State
    requires |inUse16| == 16 && |inUse| <= 256
    decreases 256 - |inUse|
  {
    if |inUse| == 256 then
      var used := Used(inUse, 256);
      if used == [] then Failed(DataError) else Selector1(h, used)
    else if |inUse| % 16 == 0 && !inUse16[|inUse| / 16] then Mapped(h, inUse16, inUse + seq(16, _ => false))
    else Mapping2(h, inUse16, inUse)
  }

  function Chosen(h: Head, used: seq<byte>, nGroups: nat, nSelectors: nat, mtf: seq<int>): State
    requires forall i :: 0 <= i < |mtf| ==> 0 <= mtf[i] < nGroups
  {
    if |mtf| < nSelectors then Selector3(h, used, nGroups, nSelectors, mtf, 0)
    else
      var kept := if |mtf| > MAX_SELECTORS then mtf[..MAX_SELECTORS] else mtf;
      Coding1(h, used, nGroups, Book(UndoMtf(Ascending(nGroups), kept), []))
  }

  /** The range check made before each bit of a coding table. */
  function Curr(h: Head, used: seq<byte>, nGroups: nat, book: Book, row: seq<int>, curr: int): State {
    if curr < 1 || curr > LONGEST then Failed(DataError) else Coding2(h, used, nGroups, book, row, curr)
  }

  function RowEnd(h: Head, used: seq<byte>, nGroups: nat, book: Book, row: seq<int>, curr: int): State
    requires |row| >= |used| + 2 && |book.tables| + 1 >= nGroups ==> InvBook(book.(tables := book.tables + [row]), |used| + 2)
  {
    if |row| < |used| + 2 then Curr(h, used, nGroups, book, row, curr)
    else
      var full := book.(tables := book.tables + [row]);
      if |full.tables| < nGroups then Coding1(h, used, nGroups, full)
      else NextSymbol(h, full, -1, 0, Decoder(used, [], 0, 0, false))
  }

  /** The opening of GET_MTF_VAL: a new group after fifty symbols. */
  function NextSymbol(h: Head, book: Book, no: int, pos: nat, u: Decoder): State
    requires -1 <= no < |book.selectors| && (no == -1 ==> pos == 0) && InvBook(book, |u.list| + 2)
  {
    if pos > 0 then Symbol(h, book, no, pos - 1, u, MinLen(Table(book, no)), 0, false)
    else if no + 1 >= |book.selectors| then Failed(DataError)
    else Symbol(h, book, no + 1, GROUP_SIZE - 1, u, MinLen(Table(book, no + 1)), 0, false)
  }

  /** One decoded symbol. */
  function Act(h: Head, book: Book, no: nat, pos: nat, u: Decoder, sym: int): State
    requires no < |book.selectors| && u.list != [] && InvBook(book, |u.list| + 2) && 0 <= sym < |u.list| + 2
  {
    match TakeSymbol(u, sym, 100000 * h.size)
    case More(v) => NextSymbol(h, book, no, pos, v)
    case Done(col) => if h.origPtr >= |col| then Failed(DataError) else Output(h, col)
    case Corrupt => Failed(DataError)
  }

  /** zn bits are in zvec: either they are a code, or another bit is needed. */
  function Decide(h: Head, book: Book, no: nat, pos: nat, u: Decoder, zn: nat, zvec: nat): State
    requires no < |book.selectors| && pos < GROUP_SIZE && u.list != [] && InvBook(book, |u.list| + 2)
  {
    match Classify(Table(book, no), zn, zvec)
    case Invalid => Failed(DataError)
    case Longer => Symbol(h, book, no, pos, u, zn + 1, zvec, true)
    case Decoded(sym) => if sym < |u.list| + 2 then Act(h, book, no, pos, u, sym) else Failed(DataError)
  }

  /** The fixed-size fields around the blocks. */
  function StepHeader(s: State, v: nat): State
    requires Inv(s)
  {
    match s
    case Magic(k) =>
      if k < 3 then (if v != STREAM_MAGIC[k] then Failed(MagicError) else Magic(k + 1))
      else if v < 0x31 || v > 0x39 then Failed(MagicError) else BlockHeader(v - 0x30, 0)
    case BlockHeader(size, k) =>
      if k == 0 && v == END_MAGIC[0] then EndHeader(size, 1)
      else if v != BLOCK_MAGIC[k] then Failed(DataError)
      else if k < 5 then BlockHeader(size, k + 1) else BlockCrc(size, 0, 0)
    case BlockCrc(size, k, crc) => if k < 3 then BlockCrc(size, k + 1, 256 * crc + v) else RandBit(size, 256 * crc + v)
    case RandBit(size, crc) => OrigPtr(Head(size, crc, v == 1, 0), 0)
    case OrigPtr(h, k) =>
      var g := h.(origPtr := 256 * h.origPtr + v);
      if k < 2 then OrigPtr(g, k + 1)
      else if g.origPtr > 10 + 100000 * g.size then Failed(DataError) else Mapping1(g, [])
    case EndHeader(size, k) =>
      if v != END_MAGIC[k] then Failed(DataError)
      else if k < 5 then EndHeader(size, k + 1) else StreamCrc(size, 0, 0)
    case StreamCrc(size, k, crc) => if k < 3 then StreamCrc(size, k + 1, 256 * crc + v) else Idle(256 * crc + v)
    case _ => s
  }

  /** The alphabet, the selectors and the code lengths of a block. */
  function StepTables(s: State, v: nat): State
    requires Inv(s)
  {
    match s
    case Mapping1(h, m) => if |m| < 15 then Mapping1(h, m + [v == 1]) else Mapped(h, m + [v == 1], [])
    case Mapping2(h, m, u) => Mapped(h, m, u + [v == 1])
    case Selector1(h, used) => if v < 2 || v > MAX_GROUPS then Failed(DataError) else Selector2(h, used, v)
    case Selector2(h, used, n) => if v < 1 then Failed(DataError) else Chosen(h, used, n, v, [])
    case Selector3(h, used, n, ns, mtf, j) =>
      if v == 0 then Chosen(h, used, n, ns, mtf + [j])
      else if j + 1 >= n then Failed(DataError) else Selector3(h, used, n, ns, mtf, j + 1)
    case Coding1(h, used, n, book) => Curr(h, used, n, book, [], v)
    case Coding2(h, used, n, book, row, curr) =>
      if v == 0 then RowComplete(book, used, n, row, curr); RowEnd(h, used, n, book, row + [curr], curr)
      else Coding3(h, used, n, book, row, curr)
    case Coding3(h, used, n, book, row, curr) => Curr(h, used, n, book, row, if v == 0 then curr + 1 else curr - 1)
    case _ => s
  }

  predicate InTables(s: State) {
    s.Mapping1? || s.Mapping2? || s.Selector1? || s.Selector2? || s.Selector3? || s.Coding1? || s.Coding2? || s.Coding3?
  }

  /** What the source does with the field it has just read. */
  function Step(s: State, v: nat): State
    requires Inv(s)
  {
    if s.Symbol? then Decide(s.h, s.book, s.groupNo, s.groupPos, s.u, s.zn, if s.started then 2 * s.zvec + v else v)
    else if InTables(s) then StepTables(s, v)
    else StepHeader(s, v)
  }

  lemma RowComplete(book: Book, used: seq<byte>, n: nat, row: seq<int>, curr: int)
    requires |used| <= 256 && n <= MAX_GROUPS && Selected(book.selectors, n) && |book.tables| < n && Tables(book.tables, |used| + 2)
    requires |row| < |used| + 2 && 1 <= curr <= LONGEST && forall i :: 0 <= i < |row| ==> 1 <= row[i] <= LONGEST
    ensures |row| + 1 == |used| + 2 && |book.tables| + 1 >= n ==> InvBook(book.(tables := book.tables + [row + [curr]]), |used| + 2)
  {
  }

  lemma {:induction false} MappedInv(h: Head, inUse16: seq<bool>, inUse: seq<bool>)
    requires |inUse16| == 16 && |inUse| <= 256
    ensures Inv(Mapped(h, inUse16, inUse))
    decreases 256 - |inUse|
  {
    if |inUse| < 256 && |inUse| % 16 == 0 && !inUse16[|inUse| / 16] {
      MappedInv(h, inUse16, inUse + seq(16, _ => false));
    }
  }

  lemma {:induction false} UndoMtfInv(pos: seq<int>, mtf: seq<int>, n: nat)
    requires (forall i :: 0 <= i < |mtf| ==> 0 <= mtf[i] < |pos|) && forall i :: 0 <= i < |pos| ==> 0 <= pos[i] < n
    ensures forall i :: 0 <= i < |mtf| ==> 0 <= UndoMtf(pos, mtf)[i] < n
    decreases |mtf|
  {
    if mtf != [] {
      UndoMtfInv(MoveToFront(pos, mtf[0]), mtf[1..], n);
    }
  }

  lemma HeaderInv(s: State, v: nat)
    requires Inv(s) && v < 256 && !s.Symbol?
    ensures Inv(StepHeader(s, v))
  {
  }

  lemma TablesInv(s: State, v: nat)
    requires Inv(s) && !s.Symbol?
    ensures Inv(StepTables(s, v))
  {
    match s
    case Mapping1(h, m) =>
      if |m| == 15 { MappedInv(h, m + [v == 1], []); }
    case Mapping2(h, m, u) => MappedInv(h, m, u + [v == 1]);
    case Selector3(h, used, n, ns, mtf, j) =>
      if v == 0 { ChosenInv(h, used, n, ns, mtf + [j]); }
    case Coding2(h, used, n, book, row, curr) =>
      if v == 0 { RowEndInv(h, used, n, book, row, curr); }
    case _ =>
  }

  lemma ChosenInv(h: Head, used: seq<byte>, n: nat, ns: nat, mtf: seq<int>)
    requires Common(h, used, n) && 1 <= |mtf| <= ns && forall i :: 0 <= i < |mtf| ==> 0 <= mtf[i] < n
    ensures Inv(Chosen(h, used, n, ns, mtf))
  {
    if |mtf| == ns {
      UndoMtfInv(Ascending(n), if |mtf| > MAX_SELECTORS then mtf[..MAX_SELECTORS] else mtf, n);
    }
  }

  lemma RowEndInv(h: Head, used: seq<byte>, n: nat, book: Book, row: seq<int>, curr: int)
    requires InvCoding(h, used, n, book, row, curr)
    ensures |row| + 1 == |used| + 2 && |book.tables| + 1 >= n ==> InvBook(book.(tables := book.tables + [row + [curr]]), |used| + 2)
    ensures Inv(RowEnd(h, used, n, book, row + [curr], curr))
  {
    RowComplete(book, used, n, row, curr);
  }

  lemma NextSymbolInv(h: Head, book: Book, no: int, pos: nat, u: Decoder)
    requires u.list != [] && |u.col| <= 100000 * h.size && pos <= GROUP_SIZE
    requires -1 <= no < |book.selectors| && (no == -1 ==> pos == 0) && InvBook(book, |u.list| + 2)
    ensures Inv(NextSymbol(h, book, no, pos, u))
  {
  }

  lemma ActInv(h: Head, book: Book, no: nat, pos: nat, u: Decoder, sym: int)
    requires u.list != [] && |u.col| <= 100000 * h.size && pos < GROUP_SIZE
    requires no < |book.selectors| && InvBook(book, |u.list| + 2) && 0 <= sym < |u.list| + 2
    ensures Inv(Act(h, book, no, pos, u, sym))
  {
    match TakeSymbol(u, sym, 100000 * h.size)
    case More(v) => NextSymbolInv(h, book, no, pos, v);
    case _ =>
  }

  lemma SymbolInv(h: Head, book: Book, no: nat, pos: nat, u: Decoder, zn: nat, zvec: nat)
    requires u.list != [] && |u.col| <= 100000 * h.size
    requires InvBook(book, |u.list| + 2) && no < |book.selectors| && pos < GROUP_SIZE
    requires zn >= MinLen(Table(book, no)) && First(Table(book, no), zn) <= zvec
    ensures Inv(Decide(h, book, no, pos, u, zn, zvec))
  {
    var lens := Table(book, no);
    Classified(lens, zn, zvec);
    match Classify(lens, zn, zvec)
    case Decoded(sym) => ActInv(h, book, no, pos, u, sym);
    case _ =>
  }

  /** The bits read so far are not below the first code of their length. */
  lemma BitsSoFar(lens: seq<int>, zn: nat, zvec: nat, started: bool, v: nat)
    requires Lengths(lens, LONGEST) && (if started then First(lens, zn) <= 2 * zvec else zn == MinLen(lens))
    ensures First(lens, zn) <= if started then 2 * zvec + v else v
  {
    if !started {
      NoneBelow(lens, zn);
    }
  }

  lemma DecideInv(h: Head, book: Book, no: nat, pos: nat, u: Decoder, zn: nat, zvec: nat, started: bool, v: nat)
    requires InvSymbol(h, book, no, pos, u, zn, zvec, started)
    ensures Inv(Decide(h, book, no, pos, u, zn, if started then 2 * zvec + v else v))
  {
    BitsSoFar(Table(book, no), zn, zvec, started, v);
    SymbolInv(h, book, no, pos, u, zn, if started then 2 * zvec + v else v);
  }

  lemma SymbolStepInv(s: State, v: nat)
    requires s.Symbol? && Inv(s) && v < Pow2(Need(s))
    ensures Inv(Step(s, v))
  {
    DecideInv(s.h, s.book, s.groupNo, s.groupPos, s.u, s.zn, s.zvec, s.started, v);
  }

  lemma HeaderStepInv(s: State, v: nat)
    requires !s.Symbol? && !InTables(s) && Inv(s) && v < Pow2(Need(s)) && !Stopped(s)
    ensures Inv(Step(s, v))
  {
    SmallPowers();
    HeaderInv(s, v);
  }

  lemma StepInv(s: State, v: nat)
    requires Inv(s) && v < Pow2(Need(s)) && !Stopped(s)
    ensures Inv(Step(s, v))
  {
    if s.Symbol? {
      SymbolStepInv(s, v);
    } else if InTables(s) {
      TablesInv(s, v);
    } else {
      HeaderStepInv(s, v);
    }
  }

  /** Runs the machine as far as the bits go: the state reached and the bits left over. */
  ghost function Exec(s: State, b: bits): (r: (State, bits))
    requires Inv(s)
    ensures Inv(r.0) && (Stopped(r.0) || |r.1| < Need(r.0)) && |r.1| <= |b|
    decreases |b|
  {
    if Stopped(s) || |b| < Need(s) then (s, b)
    else
      var n := Need(s);
      assert |b[..n]| == n;
      StepInv(s, Value(b[..n]));
      Exec(Step(s, Value(b[..n])), b[n..])
  }

  lemma ExecShrinks(s: State, b: bits)
    requires Inv(s)
    ensures !Stopped(s) && Stopped(Exec(s, b).0) ==> |Exec(s, b).1| < |b|
  {
    if !Stopped(s) && |b| >= Need(s) {
      StepInv(s, Value(b[..Need(s)]));
    }
  }

  lemma ExecNext(s: State, n: nat, v: nat, b: bits, rest: bits)
    requires Inv(s) && !Stopped(s) && n == Need(s) <= |b| && v == Value(b[..n]) && rest == b[n..]
    ensures v < Pow2(n) && Inv(Step(s, v)) && Exec(s, b) == Exec(Step(s, v), rest)
  {
    assert |b[..n]| == n;
    StepInv(s, v);
  }

  lemma ExecStays(s: State, b: bits)
    requires Inv(s) && (Stopped(s) || |b| < Need(s))
    ensures Exec(s, b) == (s, b)
  {
  }

  /** Suspending and resuming with more bits makes no difference. */
  lemma {:induction false} ExecAppend(s: State, a: bits, b: bits)
    requires Inv(s)
    ensures Exec(s, a + b) == Exec(Exec(s, a).0, Exec(s, a).1 + b)
    decreases |a|
  {
    if Stopped(s) || |a| < Need(s) {
      ExecStays(s, a);
    } else {
      ExecBoth(s, a, b);
      ExecAppend(Step(s, Value(a[..Need(s)])), a[Need(s)..], b);
    }
  }

  /** With the next field there already, more bits change nothing about it. */
  lemma ExecBoth(s: State, a: bits, b: bits)
    requires Inv(s) && !Stopped(s) && |a| >= Need(s)
    ensures var n, v := Need(s), Value(a[..Need(s)]);
            && v < Pow2(n) && Inv(Step(s, v))
            && Exec(s, a) == Exec(Step(s, v), a[n..]) && Exec(s, a + b) == Exec(Step(s, v), a[n..] + b)
  {
    var n, v := Need(s), Value(a[..Need(s)]);
    ExecNext(s, n, v, a, a[n..]);
    FieldApart(a, b, n);
    ExecNext(s, n, v, a + b, a[n..] + b);
  }

  lemma FieldApart(a: bits, b: bits, n: nat)
    requires n <= |a|
    ensures (a + b)[..n] == a[..n] && (a + b)[n..] == a[n..] + b
  {
  }

  lemma FieldFirst(f: bits, rest: bits)
    ensures (f + rest)[..|f|] == f && (f + rest)[|f|..] == rest
  {
  }

  /** One field. */
  lemma ExecField(s: State, n: nat, v: nat, rest: bits)
    requires Inv(s) && !Stopped(s) && n == Need(s) && v < Pow2(n)
    ensures Inv(Step(s, v)) && Exec(s, Field(n, v) + rest) == Exec(Step(s, v), rest)
  {
    ValueField(n, v);
    FieldFirst(Field(n, v), rest);
    ExecNext(s, n, v, Field(n, v) + rest, rest);
  }
}
