/**
 * The symbol loop of BZ2_decompress on its arrays: the limit, base and perm tables, the sliding move-to-front window,
 * seqToUnseq and the column under construction. It does what the decoder's state machine does on values.
 */
module DecodeArrays {
  import opened Canonical
  import opened Mtf
  import MtfEncoder
  import opened MtfWindow
  import opened Rotations
  import Parser

  /** What BZ2_hbCreateDecodeTables leaves for a table of code lengths. */
  ghost predicate Tabled(limit: seq<int>, base: seq<int>, perm: seq<int>, lens: seq<int>) {
    && Lengths(lens, LONGEST) && |lens| <= MAX_ALPHA_SIZE && |limit| == |base| == |perm| == MAX_ALPHA_SIZE
    && perm[..|lens|] == Perm(lens)
    && (forall n :: 0 <= n < TABLE_LEN ==> limit[n] == Limit(lens, n))
    && forall n :: MinLen(lens) <= n <= MaxLen(lens) ==> base[n] == Base(lens, n)
  }

  /** The tables for one group of code lengths, with the minimum and maximum the source searches for. */
  method MakeTables(lens: seq<int>) returns (minLen: int, limit: array<int>, base: array<int>, perm: array<int>)
    requires Lengths(lens, LONGEST) && |lens| <= MAX_ALPHA_SIZE
    ensures fresh(limit) && fresh(base) && fresh(perm) && minLen == MinLen(lens) && Tabled(limit[..], base[..], perm[..], lens)
  {
    var maxLen;
    minLen, maxLen := MinMax(lens);
    limit, base, perm := new int[MAX_ALPHA_SIZE], new int[MAX_ALPHA_SIZE], new int[MAX_ALPHA_SIZE];
    CreateDecodeTables(limit, base, perm, lens, minLen, maxLen);
  }

  /** The decision of GET_MTF_VAL, read off the arrays. */
  method ReadCode(limit: array<int>, base: array<int>, perm: array<int>, zn: nat, zvec: nat, ghost lens: seq<int>) returns (o: Outcome)
    requires Tabled(limit[..], base[..], perm[..], lens) && MinLen(lens) <= zn && First(lens, zn) <= zvec
    ensures o == Classify(lens, zn, zvec) && (o.Decoded? ==> o.sym < |lens|)
  {
    DecodeStep(lens, zn, zvec);
    if zn > LONGEST {
      return Invalid;
    }
    if zvec > limit[zn] {
      return Longer;
    }
    var k := zvec - base[zn];
    if k < 0 || k >= MAX_ALPHA_SIZE {
      return Invalid;
    }
    assert perm[k] == perm[..|lens|][k];
    o := Decoded(perm[k]);
  }

  datatype Step = Going | Ended | Broken

  ghost predicate Opened(u: Decoder) {
    true
  }

  /** The state of the symbol loop; column[..nblock] is tt or ll16 so far. */
  class SymbolUnit {
    const win: Window
    const seqToUnseq: array<byte>
    const nInUse: nat
    const column: array<byte>
    var nblock: nat
    var es: int
    var n: nat
    var inRun: bool

    ghost predicate Valid()
      reads this, win, win.mtfa, win.mtfbase, seqToUnseq, column
    {
      && win.Valid() && 1 <= nInUse <= seqToUnseq.Length <= 256 && win.Shows(seqToUnseq[..nInUse]) && nblock <= column.Length
      && win.mtfa != seqToUnseq && win.mtfa != column && seqToUnseq != column
      && (inRun ==> -1 <= es && 1 <= n)
    }

    /** The unit stands for the decoder u of the specification. */
    ghost predicate Represents(u: Decoder)
      requires Valid()
      reads this, win, win.mtfa, win.mtfbase, seqToUnseq, column
    {
      && u.list == win.Shown(seqToUnseq[..nInUse]) && u.col == column[..nblock]
      && u.inRun == inRun && (inRun ==> u.es == es && u.n == n)
    }

    /** Valid and standing for u; a proof opens it by mentioning Opened(u). */
    ghost predicate Stands(u: Decoder)
      reads this, win, win.mtfa, win.mtfbase, seqToUnseq, column
    {
      forall d {:trigger Opened(d)} :: d == u ==> Valid() && Represents(d)
    }

    /** The MTF init, for the count bytes that makeMaps_d listed in maps, with room for max bytes. */
    constructor (maps: array<byte>, count: nat, max: nat)
      requires 1 <= count <= maps.Length <= 256
      ensures Stands(Decoder(maps[..count], [], 0, 0, false)) && column.Length == max && nInUse == count
      ensures seqToUnseq == maps && fresh(win) && fresh(win.mtfa) && fresh(win.mtfbase) && fresh(column)
    {
      var w := new Window();
      win, seqToUnseq, nInUse, column := w, maps, count, new byte[max];
      nblock, es, n, inRun := 0, 0, 0, false;
      new;
      InitiallyShown(seqToUnseq[..nInUse], win.List());
      assert Valid() && Represents(Decoder(seqToUnseq[..nInUse], [], 0, 0, false));
    }

    /** One run digit. */
    method TakeDigit(sym: int, ghost u: Decoder) returns (r: Step)
      requires Valid() && Represents(u) && (sym == 0 || sym == 1)
      modifies this`es, this`n, this`inRun
      ensures Valid()
      ensures match TakeSymbol(u, sym, column.Length) case More(v) => r == Going && Represents(v) case _ => r == Broken
    {
      if !inRun {
        es, n, inRun := -1, 1, true;
      }
      if n >= RUN_GUARD {
        return Broken;
      }
      es := es + (if sym == 0 then n else 2 * n);
      n := 2 * n;
      r := Going;
    }

    /** The byte at the front of the list. */
    method Front() returns (c: byte)
      requires Valid()
      ensures c == win.Shown(seqToUnseq[..nInUse])[0]
    {
      var rank := win.First();
      c := seqToUnseq[rank];
    }

    /** The bytes of a run, when its last digit has been read. */
    method FlushRun() returns (ok: bool)
      requires Valid()
      modifies this`nblock, this`es, this`inRun, column
      ensures Valid() && !inRun && win.List() == old(win.List())
      ensures var run := if old(inRun) && old(es) + 1 > 0 then old(es) + 1 else 0;
              && ok == !(run > 0 && old(nblock) + run > column.Length)
              && (ok ==> column[..nblock] == old(column[..nblock]) + Repeat(old(win.Shown(seqToUnseq[..nInUse])[0]), run))
    {
      ok := true;
      assert column[..nblock] + Repeat(win.Shown(seqToUnseq[..nInUse])[0], 0) == column[..nblock];
      if inRun {
        var uc := Front();
        ghost var done, run := 0, es + 1;
        es, inRun := es + 1, false;
        while es > 0
          invariant Valid() && !inRun && 0 <= done <= run && es == run - done && win.List() == old(win.List())
          invariant nblock == old(nblock) + done && column[..nblock] == old(column[..nblock]) + Repeat(uc, done)
        {
          if nblock >= column.Length {
            return false;
          }
          column[nblock] := uc;
          nblock, es, done := nblock + 1, es - 1, done + 1;
        }
      }
    }

    /** The end of the block, or a position of the list, with no run pending. */
    method TakePlain(sym: int, ghost u: Decoder) returns (r: Step)
      requires Valid() && Represents(u) && !inRun && 2 <= sym < nInUse + 2
      modifies this`nblock, column, win.mtfa, win.mtfbase
      ensures Valid()
      ensures match TakeSymbol(u, sym, column.Length)
              case More(v) => r == Going && Represents(v)
              case Done(col) => r == Ended && column[..nblock] == col
              case Corrupt => r == Broken
    {
      assert u.col + Repeat(u.list[0], 0) == u.col;
      if sym == nInUse + 1 {
        return Ended;
      }
      if nblock >= column.Length {
        return Broken;
      }
      var c := win.TakeByte(seqToUnseq[..nInUse], sym - 1);
      column[nblock] := c;
      nblock := nblock + 1;
      r := Going;
    }

    /** One symbol: what TakeSymbol does on values. */
    method Take(sym: int, ghost u: Decoder) returns (r: Step)
      requires Valid() && Represents(u) && 0 <= sym < nInUse + 2
      modifies this`nblock, this`es, this`n, this`inRun, column, win.mtfa, win.mtfbase
      ensures Valid()
      ensures match TakeSymbol(u, sym, column.Length)
              case More(v) => r == Going && Represents(v)
              case Done(col) => r == Ended && column[..nblock] == col
              case Corrupt => r == Broken
    {
      if sym == 0 || sym == 1 {
        r := TakeDigit(sym, u);
      } else {
        RunFirst(u, sym, column.Length);
        var ok := FlushRun();
        if ok {
          r := TakePlain(sym, Flushed(u));
        } else {
          r := Broken;
        }
      }
    }

    /**
     * What GET_MTF_VAL and the loop make of the zn bits in zvec: the state machine's own decision. It fails where the
     * unit breaks off, and where the caller, who knows the selectors and origPtr, finds none left or no such place.
     */
    method Decide(limit: array<int>, base: array<int>, perm: array<int>, zn: nat, zvec: nat,
                  ghost h: Parser.Head, ghost book: Parser.Book, ghost no: nat, ghost pos: nat, ghost u: Decoder)
      returns (o: Outcome, r: Step, ghost v: Decoder)
      requires Stands(u) && 0 < |u.list| == nInUse && column.Length == 100000 * h.size
      requires no < |book.selectors| && pos < Parser.GROUP_SIZE && Parser.InvBook(book, nInUse + 2)
      requires Tabled(limit[..], base[..], perm[..], Parser.Table(book, no))
      requires MinLen(Parser.Table(book, no)) <= zn && First(Parser.Table(book, no), zn) <= zvec
      requires {limit, base, perm} !! {win.mtfbase}
      modifies this`nblock, this`es, this`n, this`inRun, column, win.mtfa, win.mtfbase
      ensures nblock <= column.Length && |v.list| == nInUse && o == Classify(Parser.Table(book, no), zn, zvec) && (o.Invalid? ==> r == Broken) && (o.Longer? ==> r == Going)
      ensures var s := Parser.Decide(h, book, no, pos, u, zn, zvec);
              match r
              case Going =>
                Stands(v)
                && s == if o.Longer? then Parser.Symbol(h, book, no, pos, v, zn + 1, zvec, true) else Parser.NextSymbol(h, book, no, pos, v)
              case Ended => s == if h.origPtr >= nblock then Parser.Failed(Parser.DataError) else Parser.Output(h, column[..nblock])
              case Broken => s == Parser.Failed(Parser.DataError)
    {
      assert Opened(u);
      ghost var lens := Parser.Table(book, no);
      assert |lens| == nInUse + 2;
      o := ReadCode(limit, base, perm, zn, zvec, lens);
      Decided(h, book, no, pos, u, zn, zvec, o);
      v := u;
      match o
      case Invalid => r := Broken;
      case Longer => r := Going;
      case Decoded(sym) =>
        r := Take(sym, u);
        if r == Going { v := TakeSymbol(u, sym, column.Length).u; }
    }
  }

  /** What the state machine's decision is for each outcome. */
  lemma Decided(h: Parser.Head, book: Parser.Book, no: nat, pos: nat, u: Decoder, zn: nat, zvec: nat, o: Outcome)
    requires no < |book.selectors| && pos < Parser.GROUP_SIZE && u.list != [] && Parser.InvBook(book, |u.list| + 2)
    requires o == Classify(Parser.Table(book, no), zn, zvec) && (o.Decoded? ==> o.sym < |u.list| + 2)
    ensures o.Invalid? ==> Parser.Decide(h, book, no, pos, u, zn, zvec) == Parser.Failed(Parser.DataError)
    ensures o.Longer? ==> Parser.Decide(h, book, no, pos, u, zn, zvec) == Parser.Symbol(h, book, no, pos, u, zn + 1, zvec, true)
    ensures o.Decoded? ==> Parser.Decide(h, book, no, pos, u, zn, zvec) == Parser.Act(h, book, no, pos, u, o.sym)
  {
  }

  /** The decoder with its pending run written out. */
  ghost function Flushed(u: Decoder): Decoder
    requires u.list != []
  {
    u.(col := u.col + Repeat(u.list[0], if u.inRun && u.es + 1 > 0 then u.es + 1 else 0), inRun := false)
  }

  lemma RunFirst(u: Decoder, sym: int, max: nat)
    requires u.list != [] && 2 <= sym < |u.list| + 2
    ensures var run := if u.inRun && u.es + 1 > 0 then u.es + 1 else 0;
            if run > 0 && |u.col| + run > max then TakeSymbol(u, sym, max) == Corrupt
            else TakeSymbol(u, sym, max) == TakeSymbol(Flushed(u), sym, max)
  {
    var v := Flushed(u);
    assert v.col + Repeat(v.list[0], 0) == v.col;
  }

  lemma InitiallyShown(used: seq<byte>, w: seq<byte>)
    requires |used| <= |w| && forall k :: 0 <= k < |w| ==> w[k] == k
    ensures forall k :: 0 <= k < |used| ==> w[k] < |used|
    ensures MtfEncoder.Bytes(used, w[..|used|]) == used
  {
  }
}
