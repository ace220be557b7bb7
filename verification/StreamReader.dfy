/**
 * BZ2_decompress: fields read one after the other and, between the tables of a block and its end, symbols read
 * through the decoding tables and the move-to-front window.
 */
module StreamReader {
  import opened BitIO
  import opened Bits
  import opened Canonical
  import opened Mtf
  import opened Parser
  import opened Rotations
  import opened SymbolLoop

  lemma {:induction false} MappedNot(h: Head, inUse16: seq<bool>, inUse: seq<bool>)
    requires |inUse16| == 16 && |inUse| <= 256
    ensures !Mapped(h, inUse16, inUse).Symbol?
    decreases 256 - |inUse|
  {
    if |inUse| < 256 && |inUse| % 16 == 0 && !inUse16[|inUse| / 16] {
      MappedNot(h, inUse16, inUse + seq(16, _ => false));
    }
  }

  lemma NotYet(s: State, v: nat)
    requires Inv(s) && !s.Symbol? && !s.Coding2?
    ensures !Step(s, v).Symbol?
  {
    match s
    case Mapping1(h, m) =>
      if |m| == 15 { MappedNot(h, m + [v == 1], []); }
    case Mapping2(h, m, u) => MappedNot(h, m, u + [v == 1]);
    case _ =>
  }

  ghost predicate Fresh(n: State) {
    && n.Symbol? && 1 <= |n.u.list| <= 256 && InvBook(n.book, |n.u.list| + 2)
    && n == Parser.NextSymbol(n.h, n.book, -1, 0, Decoder(n.u.list, [], 0, 0, false))
  }

  lemma LastRow(h: Head, used: seq<byte>, n: nat, book: Book, row: seq<int>, curr: int, v: nat)
    requires InvCoding(h, used, n, book, row, curr) && Step(Coding2(h, used, n, book, row, curr), v).Symbol?
    ensures Fresh(Step(Coding2(h, used, n, book, row, curr), v))
  {
    RowEndInv(h, used, n, book, row, curr);
  }

  /** A block's symbols begin after its last table. */
  lemma Opening(s: State, v: nat)
    requires Inv(s) && !s.Symbol? && Step(s, v).Symbol?
    ensures Fresh(Step(s, v))
  {
    if s.Coding2? {
      LastRow(s.h, s.used, s.nGroups, s.book, s.row, s.curr, v);
    } else {
      NotYet(s, v);
    }
  }

  ghost predicate Looked(s: State) {
    true
  }

  class StreamReader {
    const reader: BitReader
    /** The machine's state, except while symbols are read. */
    var state: State
    var symbols: SymbolReader?

    ghost function At(): State
      reads this, symbols
    {
      if symbols == null then state else symbols.State()
    }

    /** What changes besides this object and its bit buffer. */
    ghost function Foot(): set<object>
      reads this`symbols
    {
      if symbols == null then {} else symbols.repr
    }

    /** The symbol reader, if there is one, is valid; a proof opens it by mentioning Looked(state). */
    ghost predicate Inside()
      reads this, symbols, Foot()
    {
      forall s {:trigger Looked(s)} :: s == state ==> symbols != null ==> symbols.Valid()
    }

    ghost predicate Valid()
      reads this, reader, symbols, Foot()
    {
      && reader.Valid() && Inside() && !state.Symbol? && this !in Foot() && reader !in Foot()
      && (symbols != null ==> !Stopped(state)) && Inv(At())
    }

    /** All input is read and it is not enough for the next field. */
    ghost predicate Starved()
      requires Inv(At())
      reads this, reader, symbols
    {
      reader.input == [] && !Stopped(state) && |reader.unread| < Need(At())
    }

    constructor ()
      ensures Valid() && state == At() == Magic(0) && symbols == null && fresh(reader) && reader.input == [] && reader.unread == []
    {
      reader := new BitReader();
      state, symbols := Magic(0), null;
    }

    /** The caller supplies the next input bytes. */
    method Supply(more: seq<byte>)
      requires Valid()
      modifies reader
      ensures Valid() && reader.input == old(reader.input) + more && reader.unread == old(reader.unread) + BytesToBits(more)
    {
      reader.Supply(more);
    }

    /** The symbols of a block are to be read. */
    method Begin(n: State)
      requires reader.Valid() && symbols == null && !Stopped(state) && !state.Symbol?
      requires Fresh(n)
      modifies this`symbols
      ensures Valid() && At() == n && fresh(Foot())
    {
      var list := n.u.list;
      var maps := new byte[|list|](i requires 0 <= i < |list| => list[i]);
      assert maps[..|list|] == list;
      symbols := StartSymbols(n.h, maps, |list|, n.book);
    }

    /** One GET_BITS and what the source does with it. */
    method ReadField() returns (ok: bool)
      requires Valid() && symbols == null && !Stopped(state)
      modifies this`state, this`symbols, reader
      ensures Valid() && fresh(Foot())
      ensures if ok then |reader.unread| < |old(reader.unread)| && Leads(old(state), old(reader.unread), At(), reader.unread)
              else Starved() && state == At() == old(state) && reader.unread == old(reader.unread)
    {
      var n := Need(state);
      ghost var s, all := state, reader.unread;
      var v;
      ok, v := reader.Get(n);
      if ok {
        LeadsField(s, n, v, all, reader.unread);
        var next := Step(state, v);
        if next.Symbol? {
          Opening(s, v);
          Begin(next);
        } else {
          state := next;
        }
      }
    }

    /** The symbols of the block, as far as the input goes. */
    method ReadSymbols() returns (ok: bool)
      requires Valid() && symbols != null
      modifies this`state, this`symbols, reader, Foot()
      ensures Valid() && Foot() <= old(Foot()) && Leads(old(At()), old(reader.unread), At(), reader.unread)
      ensures if ok then |reader.unread| < |old(reader.unread)| else Starved() && |reader.unread| <= |old(reader.unread)|
    {
      assert Looked(state);
      var r := symbols.Read(reader);
      ok := r != SymbolLoop.Starved;
      match r
      case Starved =>
      case Next =>
      case Complete =>
        state := Output(symbols.h, symbols.unit.column[..symbols.unit.nblock]);
        symbols := null;
      case Faulty =>
        state := Failed(DataError);
        symbols := null;
    }

    /** Reads on until a block is complete, the stream ends or is found corrupt, or the input is used up. */
    method Parse()
      requires Valid()
      modifies this`state, this`symbols, reader, Foot()
      ensures Valid() && fresh(Foot() - old(Foot())) && (Stopped(state) || Starved())
      ensures Leads(old(At()), old(reader.unread), At(), reader.unread) && |reader.unread| <= |old(reader.unread)|
      ensures Stopped(state) && !old(Stopped(state)) ==> |reader.unread| < |old(reader.unread)|
      ensures old(Stopped(state)) ==> state == old(state)
    {
      ghost var s0, all := At(), reader.unread;
      var more := true;
      while more && !Stopped(state)
        invariant Valid() && fresh(Foot() - old(Foot())) && (!more ==> Starved())
        invariant Leads(s0, all, At(), reader.unread) && |reader.unread| <= |all|
        invariant Stopped(state) && !old(Stopped(state)) ==> |reader.unread| < |all|
        invariant old(Stopped(state)) ==> state == old(state)
        decreases |reader.unread|, more
      {
        ghost var s1, b1 := At(), reader.unread;
        if symbols == null {
          more := ReadField();
        } else {
          more := ReadSymbols();
        }
        if more || s1.Symbol? { LeadsOn(s0, all, s1, b1, At(), reader.unread); }
      }
    }
  }
}
