/**
 * The symbols of a block, read from the bit buffer through the limit, base and perm arrays and the move-to-front
 * window, with GET_MTF_VAL's group counters: a reader that can stop at any bit and go on later.
 */
module SymbolLoop {
  import opened Rotations
  import opened BitIO
  import opened Bits
  import opened Canonical
  import opened DecodeArrays
  import opened Mtf
  import Parser

  /** The arrays of every table, with its shortest length; a proof looks at table t by mentioning At(t). */
  ghost predicate AllTabled(limit: seq<array<int>>, base: seq<array<int>>, perm: seq<array<int>>, minLens: seq<int>, tables: seq<seq<int>>)
    reads limit, base, perm
  {
    && |limit| == |base| == |perm| == |minLens| == |tables|
    && forall t {:trigger At(t)} :: 0 <= t < |tables| ==> Tabled(limit[t][..], base[t][..], perm[t][..], tables[t]) && minLens[t] == MinLen(tables[t])
  }

  ghost predicate At(t: int) {
    true
  }

  lemma OneMoreTable(limit: seq<array<int>>, base: seq<array<int>>, perm: seq<array<int>>, minLens: seq<int>, tables: seq<seq<int>>,
                     x: array<int>, y: array<int>, z: array<int>, m: int, lens: seq<int>)
    requires AllTabled(limit, base, perm, minLens, tables) && Tabled(x[..], y[..], z[..], lens) && m == MinLen(lens)
    ensures AllTabled(limit + [x], base + [y], perm + [z], minLens + [m], tables + [lens])
  {
    forall t | 0 <= t < |tables| + 1
      ensures Tabled((limit + [x])[t][..], (base + [y])[t][..], (perm + [z])[t][..], (tables + [lens])[t])
      ensures (minLens + [m])[t] == MinLen((tables + [lens])[t])
    {
      assert At(t);
    }
  }

  ghost predicate Within(limit: seq<array<int>>, base: seq<array<int>>, perm: seq<array<int>>, all: set<object>) {
    (forall a :: a in limit ==> a in all) && (forall a :: a in base ==> a in all) && (forall a :: a in perm ==> a in all)
  }

  /** All tables of a block, in the arrays of all. */
  method MakeAll(tables: seq<seq<int>>, ghost alphaSize: nat)
    returns (limit: seq<array<int>>, base: seq<array<int>>, perm: seq<array<int>>, minLens: seq<int>, ghost all: set<object>)
    requires Parser.Tables(tables, alphaSize) && alphaSize <= MAX_ALPHA_SIZE
    ensures AllTabled(limit, base, perm, minLens, tables) && Within(limit, base, perm, all) && fresh(all)
  {
    limit, base, perm, minLens, all := [], [], [], [], {};
    for t := 0 to |tables|
      invariant AllTabled(limit, base, perm, minLens, tables[..t]) && Within(limit, base, perm, all) && fresh(all)
    {
      var m, x, y, z := MakeTables(tables[t]);
      OneMoreTable(limit, base, perm, minLens, tables[..t], x, y, z, m, tables[t]);
      assert tables[..t + 1] == tables[..t] + [tables[t]];
      limit, base, perm, minLens, all := limit + [x], base + [y], perm + [z], minLens + [m], all + {x, y, z};
    }
    assert tables[..|tables|] == tables;
  }

  /** From s with the bits b the machine comes to s' with b' left; a proof opens it by mentioning Seen(b). */
  ghost predicate Leads(s: Parser.State, b: bits, s': Parser.State, b': bits)
    requires Parser.Inv(s) && Parser.Inv(s')
  {
    forall c {:trigger Seen(c)} :: c == b ==> Parser.Exec(s, c) == Parser.Exec(s', b')
  }

  ghost predicate Seen(b: bits) {
    true
  }

  lemma LeadsOn(s: Parser.State, b: bits, s1: Parser.State, b1: bits, s2: Parser.State, b2: bits)
    requires Parser.Inv(s) && Parser.Inv(s1) && Parser.Inv(s2) && Leads(s, b, s1, b1) && Leads(s1, b1, s2, b2)
    ensures Leads(s, b, s2, b2)
  {
    assert Seen(b) && Seen(b1);
  }

  lemma LeadsField(s: Parser.State, n: nat, v: nat, all: bits, rest: bits)
    requires Parser.Inv(s) && !Parser.Stopped(s) && n == Parser.Need(s) && v < Pow2(n) && all == Field(n, v) + rest
    ensures Parser.Inv(Parser.Step(s, v)) && Leads(s, all, Parser.Step(s, v), rest)
  {
    Parser.ExecField(s, n, v, rest);
  }

  lemma NextIs(h: Parser.Head, book: Parser.Book, no: nat, pos: nat, v: Decoder, no': nat, pos': nat)
    requires Parser.InvBook(book, |v.list| + 2) && no < |book.selectors| && no' < |book.selectors|
    requires if pos > 0 then no' == no && pos' == pos - 1 else no' == no + 1 && pos' == Parser.GROUP_SIZE - 1
    ensures MinLen(Parser.Table(book, no')) >= 1
    ensures Parser.NextSymbol(h, book, no, pos, v) == Parser.Symbol(h, book, no', pos', v, MinLen(Parser.Table(book, no')), 0, false)
  {
  }

  lemma FirstIs(h: Parser.Head, book: Parser.Book, v: Decoder)
    requires Parser.InvBook(book, |v.list| + 2) && v.list != [] && |v.col| <= 100000 * h.size
    ensures var s := Parser.Symbol(h, book, 0, Parser.GROUP_SIZE - 1, v, MinLen(Parser.Table(book, 0)), 0, false);
            Parser.NextSymbol(h, book, -1, 0, v) == s && Parser.Inv(s)
  {
    Parser.NextSymbolInv(h, book, -1, 0, v);
  }

  lemma StepDecides(s: Parser.State, v: nat)
    requires s.Symbol? && Parser.Inv(s)
    ensures Parser.Step(s, v) == Parser.Decide(s.h, s.book, s.groupNo, s.groupPos, s.u, s.zn, Grown(s, v))
  {
  }

  lemma Selects(book: Parser.Book, alphaSize: nat, no: nat)
    requires Parser.InvBook(book, alphaSize) && no < |book.selectors|
    ensures 0 <= book.selectors[no] < |book.tables|
  {
  }

  /** The bits of the current code, with those just read. */
  function Grown(s: Parser.State, v: nat): nat
    requires s.Symbol?
  {
    if s.started then 2 * s.zvec + v else v
  }

  lemma GrownAbove(s: Parser.State, v: nat)
    requires s.Symbol? && Parser.Inv(s)
    ensures First(Parser.Table(s.book, s.groupNo), s.zn) <= Grown(s, v)
  {
    Parser.BitsSoFar(Parser.Table(s.book, s.groupNo), s.zn, s.zvec, s.started, v);
  }

  datatype Status = Starved | Next | Complete | Faulty

  ghost function Parts(x: SymbolUnit): set<object> {
    {x, x.win, x.win.mtfa, x.win.mtfbase, x.seqToUnseq, x.column}
  }

  class SymbolReader {
    const unit: SymbolUnit
    const limit: seq<array<int>>
    const base: seq<array<int>>
    const perm: seq<array<int>>
    const minLens: seq<int>
    const selectors: seq<int>
    const origPtr: nat
    const h: Parser.Head
    ghost const book: Parser.Book
    var groupNo: nat
    var groupPos: nat
    var zn: nat
    var zvec: nat
    var started: bool
    ghost var u: Decoder
    /** The reader, its unit and all their arrays. */
    ghost const repr: set<object>

    ghost predicate Owned() {
      && this in repr && unit in repr && unit.win in repr && unit.win.mtfa in repr && unit.win.mtfbase in repr
      && unit.seqToUnseq in repr && unit.column in repr && Within(limit, base, perm, repr)
    }

    /** The state of the machine that the reader stands for. */
    ghost function State(): Parser.State
      reads this
    {
      Parser.Symbol(h, book, groupNo, groupPos, u, zn, zvec, started)
    }

    /** What does not change: the tables are those of the book. */
    ghost predicate Fixed()
      reads limit, base, perm
    {
      && selectors == book.selectors && origPtr == h.origPtr && unit.column.Length == 100000 * h.size
      && AllTabled(limit, base, perm, minLens, book.tables)
      && unit.win.mtfbase !in limit && unit.win.mtfbase !in base && unit.win.mtfbase !in perm
    }

    ghost predicate Valid()
      reads this, repr
    {
      Owned() && Fixed() && unit.Stands(u) && |u.list| == unit.nInUse && Parser.Inv(State())
    }

    /** The first GET_MTF_VAL of a block, with its unit and its tables, which lie in the arrays of all. */
    constructor (h: Parser.Head, book: Parser.Book, x: SymbolUnit, l: seq<array<int>>, b: seq<array<int>>, p: seq<array<int>>, m: seq<int>,
                 ghost v: Decoder, ghost all: set<object>)
      requires x.Stands(v) && 0 < |v.list| == x.nInUse && v.col == [] && x.column.Length == 100000 * h.size
      requires Parser.InvBook(book, |v.list| + 2) && AllTabled(l, b, p, m, book.tables) && Within(l, b, p, all) && x.win.mtfbase !in all
      ensures Valid() && State() == Parser.NextSymbol(h, book, -1, 0, v) && repr == {this} + Parts(x) + all
    {
      FirstIs(h, book, v);
      assert At(book.selectors[0]);
      unit, limit, base, perm, minLens, selectors, origPtr := x, l, b, p, m, book.selectors, h.origPtr;
      this.h, this.book := h, book;
      repr := {this} + Parts(x) + all;
      groupNo, groupPos, zn, zvec, started := 0, Parser.GROUP_SIZE - 1, m[book.selectors[0]], 0, false;
      u := v;
    }

    /** The column so far. */
    ghost function Column(): seq<byte>
      reads unit, unit.column
    {
      if unit.nblock <= unit.column.Length then unit.column[..unit.nblock] else []
    }

    /** The state reached, given how the last step ended. */
    ghost function Reached(s: Status): Parser.State
      reads this, unit, unit.column
    {
      match s
      case Complete => Parser.Output(h, Column())
      case Faulty => Parser.Failed(Parser.DataError)
      case _ => State()
    }

    /** The next place of the group, or the next group. */
    method Turn() returns (ok: bool)
      requires groupNo < |selectors| && groupPos < Parser.GROUP_SIZE
      modifies this`groupNo, this`groupPos
      ensures if old(groupPos) > 0 then ok && groupNo == old(groupNo) && groupPos == old(groupPos) - 1
              else groupNo == old(groupNo) + 1 && ok == (groupNo < |selectors|) && (ok ==> groupPos == Parser.GROUP_SIZE - 1)
    {
      if groupPos == 0 {
        groupNo := groupNo + 1;
        if groupNo >= |selectors| {
          return false;
        }
        groupPos := Parser.GROUP_SIZE;
      }
      groupPos := groupPos - 1;
      ok := true;
    }

    lemma Shortest(t: nat)
      requires Fixed() && t < |book.tables|
      ensures t < |minLens| && book.tables[t] != [] && minLens[t] == MinLen(book.tables[t])
    {
      assert At(t);
    }

    /** No bits of a code have been read yet. */
    method Restart(ghost v: Decoder)
      requires groupNo < |selectors| && 0 <= selectors[groupNo] < |minLens| && minLens[selectors[groupNo]] >= 0
      modifies this`u, this`zn, this`zvec, this`started
      ensures State() == Parser.Symbol(h, book, groupNo, groupPos, v, minLens[selectors[groupNo]], 0, false) && u == v
    {
      u, zn, zvec, started := v, minLens[selectors[groupNo]], 0, false;
    }

    /** The opening of GET_MTF_VAL for the symbol after this one. */
    method NextSymbol(ghost v: Decoder) returns (s: Status)
      requires Fixed() && Parser.InvBook(book, |v.list| + 2) && groupNo < |selectors| && groupPos < Parser.GROUP_SIZE
      modifies this
      ensures (s == Next || s == Faulty) && Reached(s) == Parser.NextSymbol(h, book, old(groupNo), old(groupPos), v)
      ensures s == Next ==> u == v
    {
      ghost var no, pos := groupNo, groupPos;
      var ok := Turn();
      if !ok {
        return Faulty;
      }
      Selects(book, |v.list| + 2, groupNo);
      Shortest(selectors[groupNo]);
      NextIs(h, book, no, pos, v, groupNo, groupPos);
      Restart(v);
      s := Next;
    }

    /** What the unit needs to know to decide. */
    lemma Ready(v: nat)
      requires Valid()
      ensures groupNo < |selectors| && 0 <= selectors[groupNo] < |limit| == |base| == |perm|
      ensures var t, lens := selectors[groupNo], Parser.Table(book, groupNo);
              && Tabled(limit[t][..], base[t][..], perm[t][..], lens) && {limit[t], base[t], perm[t]} !! {unit.win.mtfbase}
              && MinLen(lens) <= zn && First(lens, zn) <= Grown(State(), v)
    {
      GrownAbove(State(), v);
      assert At(selectors[groupNo]);
    }

    /** Where the unit's answer leads. */
    ghost function After(o: Outcome, step: Step, zvec1: nat, w: Decoder): Parser.State
      requires groupNo < |book.selectors| && Parser.InvBook(book, |w.list| + 2)
      reads this, unit, unit.column
    {
      match step
      case Going =>
        if o.Longer? then Parser.Symbol(h, book, groupNo, groupPos, w, zn + 1, zvec1, true)
        else Parser.NextSymbol(h, book, groupNo, groupPos, w)
      case Ended => if h.origPtr >= unit.nblock then Parser.Failed(Parser.DataError) else Parser.Output(h, Column())
      case Broken => Parser.Failed(Parser.DataError)
    }

    /** What the unit makes of the bits of the current code, with the arrays of its table. */
    method Ask(zvec1: nat, lim: array<int>, bas: array<int>, per: array<int>) returns (o: Outcome, step: Step, ghost w: Decoder)
      requires unit.Stands(u) && 0 < |u.list| == unit.nInUse && unit.column.Length == 100000 * h.size
      requires groupNo < |book.selectors| && groupPos < Parser.GROUP_SIZE && Parser.InvBook(book, |u.list| + 2)
      requires Tabled(lim[..], bas[..], per[..], Parser.Table(book, groupNo)) && {lim, bas, per} !! {unit.win.mtfbase}
      requires MinLen(Parser.Table(book, groupNo)) <= zn && First(Parser.Table(book, groupNo), zn) <= zvec1
      modifies unit, unit.column, unit.win.mtfa, unit.win.mtfbase
      ensures |w.list| == |u.list| && (step == Going ==> unit.Stands(w))
      ensures After(o, step, zvec1, w) == Parser.Decide(h, book, groupNo, groupPos, u, zn, zvec1)
    {
      o, step, w := unit.Decide(lim, bas, per, zn, zvec1, h, book, groupNo, groupPos, u);
    }

    /** The same for a field that has just been read. */
    method AskWith(v: nat) returns (o: Outcome, step: Step, zvec1: nat, ghost w: Decoder)
      requires Valid()
      modifies unit, unit.column, unit.win.mtfa, unit.win.mtfbase
      ensures Fixed() && groupNo < |book.selectors| && groupPos < Parser.GROUP_SIZE && 0 < |u.list| == |w.list| == unit.nInUse
      ensures zvec1 == Grown(State(), v) && (step == Going ==> unit.Stands(w)) && Parser.InvBook(book, |u.list| + 2)
      ensures After(o, step, zvec1, w) == Parser.Decide(h, book, groupNo, groupPos, u, zn, zvec1)
    {
      Ready(v);
      var t := selectors[groupNo];
      zvec1 := if started then 2 * zvec + v else v;
      o, step, w := Ask(zvec1, limit[t], base[t], perm[t]);
    }

    /** The reader goes there. */
    method Settle(o: Outcome, step: Step, zvec1: nat, ghost w: Decoder) returns (s: Status)
      requires Fixed() && groupNo < |selectors| && groupPos < Parser.GROUP_SIZE && Parser.InvBook(book, |w.list| + 2)
      modifies this
      ensures s != Starved && Reached(s) == old(After(o, step, zvec1, w)) && (s == Next ==> step == Going && u == w)
    {
      match step
      case Going =>
        if o.Longer? {
          zn, zvec, started, u := zn + 1, zvec1, true, w;
          s := Next;
        } else {
          s := NextSymbol(w);
        }
      case Ended => s := if origPtr >= unit.nblock then Faulty else Complete;
      case Broken => s := Faulty;
    }

    /** What the machine does with a field. */
    method Decide(v: nat) returns (s: Status)
      requires Valid()
      modifies this, unit, unit.column, unit.win.mtfa, unit.win.mtfbase
      ensures s != Starved && Reached(s) == Parser.Step(old(State()), v)
      ensures Fixed() && (s == Next ==> unit.Stands(u) && |u.list| == unit.nInUse)
    {
      var o, step, zvec1; ghost var w;
      StepDecides(State(), v);
      o, step, zvec1, w := AskWith(v);
      s := Settle(o, step, zvec1, w);
    }

    /** How many bits the next GET_BITS asks for. */
    method Need() returns (n: nat)
      requires Valid()
      ensures n == Parser.Need(State())
    {
      Shortest(selectors[groupNo]);
      n := if started then 1 else minLens[selectors[groupNo]];
    }

    /** One field from the bit buffer and what follows from it. */
    method ReadOne(r: BitReader) returns (s: Status)
      requires Valid() && r.Valid()
      modifies this, r, unit, unit.column, unit.win.mtfa, unit.win.mtfbase
      ensures r.Valid() && (s == Starved || s == Next ==> Valid()) && Parser.Inv(Reached(s))
      ensures if s == Starved then State() == old(State()) && r.unread == old(r.unread) && |r.unread| < Parser.Need(State()) && r.input == []
              else |r.unread| < |old(r.unread)| && Leads(old(State()), old(r.unread), Reached(s), r.unread)
    {
      ghost var s0, all := State(), r.unread;
      var n := Need();
      var ok, v := r.Get(n);
      if !ok {
        return Starved;
      }
      LeadsField(s0, n, v, all, r.unread);
      s := Decide(v);
    }

    /** Reads on until the block is complete, a fault is found or the input is used up: what the machine does. */
    method Read(r: BitReader) returns (s: Status)
      requires Valid() && r.Valid()
      modifies this, r, unit, unit.column, unit.win.mtfa, unit.win.mtfbase
      ensures r.Valid() && s != Next && Parser.Inv(Reached(s)) && Leads(old(State()), old(r.unread), Reached(s), r.unread)
      ensures if s == Starved then Valid() && r.input == [] && |r.unread| < Parser.Need(State()) && |r.unread| <= |old(r.unread)|
              else |r.unread| < |old(r.unread)|
    {
      ghost var s0, all := State(), r.unread;
      s := Next;
      while s == Next
        invariant r.Valid() && (s == Starved || s == Next ==> Valid()) && Parser.Inv(Reached(s)) && Leads(s0, all, Reached(s), r.unread)
        invariant s == Starved ==> |r.unread| < Parser.Need(State()) && r.input == []
        invariant |r.unread| <= |all| && (s == Complete || s == Faulty ==> |r.unread| < |all|)
        decreases |r.unread|, s == Next
      {
        ghost var s1, b1 := State(), r.unread;
        s := ReadOne(r);
        if s != Starved { LeadsOn(s0, all, s1, b1, Reached(s), r.unread); }
      }
    }
  }

  /** The tables and the MTF init of a block whose bytes in use are the first count in maps. */
  method StartSymbols(h: Parser.Head, maps: array<byte>, count: nat, book: Parser.Book) returns (r: SymbolReader)
    requires 1 <= count <= maps.Length <= 256 && Parser.InvBook(book, count + 2)
    ensures fresh(r) && r.Valid() && r.State() == Parser.NextSymbol(h, book, -1, 0, Decoder(maps[..count], [], 0, 0, false))
    ensures forall o :: o in r.repr ==> o == maps || fresh(o)
  {
    var x := new SymbolUnit(maps, count, 100000 * h.size);
    assert forall o :: o in Parts(x) ==> o == maps || fresh(o);
    var l, b, p, m; ghost var all;
    l, b, p, m, all := MakeAll(book.tables, count + 2);
    r := new SymbolReader(h, book, x, l, b, p, m, Decoder(maps[..count], [], 0, 0, false), all);
  }
}
