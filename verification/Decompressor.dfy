/** BZ2_bzDecompress: decoding that can stop and go on at any input byte and any output byte. */
module Decompressor {
  import opened BitIO
  import opened Bits
  import opened BlockOutput
  import opened Crc
  import opened Decoding
  import opened InverseBwt
  import opened Mtf
  import opened Parser
  import opened Rotations
  import opened RunLength
  import StreamReader
  import SymbolLoop
  import Walker

  /** The return codes of BZ2_bzDecompress. */
  datatype Code = Ok | EndOfStream | SequenceError | Error(error: Parser.Error)

  /**
   * What the bits b decode to from state s completes what has been produced to the expected result. The quantifier
   * has one instance, which a proof opens by mentioning Exec(s, b).
   */
  ghost predicate Ahead(t: Tables, produced: seq<byte>, s: State, combined: word, b: bits, expected: Result)
    requires Inv(s)
  {
    forall c {:trigger Exec(s, c)} :: c == b ==> Then(produced, Decode(t, s, combined, c)) == expected
  }

  /** The same while a block is being written with u still to come; opened by mentioning AfterBlock. */
  ghost predicate AheadOut(t: Tables, produced: seq<byte>, h: Head, u: Undone, crc: word, combined: word, b: bits, expected: Result) {
    forall c {:trigger AfterBlock(t, h, u, crc, combined, c)} :: c == b ==> Then(produced, AfterBlock(t, h, u, crc, combined, c)) == expected
  }

  /** Reading on, with the bits still to be supplied behind those that are there. */
  lemma AheadLeads(t: Tables, produced: seq<byte>, s: State, b: bits, s': State, b': bits, combined: word, future: bits, expected: Result)
    requires Inv(s) && Inv(s') && SymbolLoop.Leads(s, b, s', b') && Ahead(t, produced, s, combined, b + future, expected)
    ensures Ahead(t, produced, s', combined, b' + future, expected)
  {
    assert SymbolLoop.Seen(b);
    ExecAppend(s, b, future);
    ExecAppend(s', b', future);
    DecodeSame(t, s, b + future, s', b' + future, combined);
  }

  lemma DecodeSame(t: Tables, s: State, b: bits, s': State, b': bits, combined: word)
    requires Inv(s) && Inv(s') && Exec(s, b) == Exec(s', b')
    ensures Decode(t, s, combined, b) == Decode(t, s', combined, b')
  {
  }

  lemma AheadOpened(t: Tables, produced: seq<byte>, h: Head, col: seq<byte>, combined: word, b: bits, ch: byte, expected: Result)
    requires Inv(Output(h, col)) && Ahead(t, produced, Output(h, col), combined, b, expected)
    ensures AheadOut(t, produced, h, Remaining(Text(t, h, col), |col|, 0, ch, 0), INIT, combined, b, expected)
  {
    var x := Exec(Output(h, col), b);
    DecodeOutput(t, h, col, combined, b, ch);
  }

  lemma AheadWritten(t: Tables, produced: seq<byte>, h: Head, out: seq<byte>, u: Undone, crc: word, combined: word, b: bits, expected: Result)
    requires AheadOut(t, produced, h, Prepend(out, u), crc, combined, b, expected)
    ensures AheadOut(t, produced + out, h, u, Over(t.crc, crc, out), combined, b, expected)
  {
    var x := AfterBlock(t, h, Prepend(out, u), crc, combined, b);
    AfterSome(t, h, out, u, crc, combined, b);
    ThenThen(produced, out, AfterBlock(t, h, u, Over(t.crc, crc, out), combined, b));
  }

  lemma AheadClosed(t: Tables, produced: seq<byte>, h: Head, w: seq<byte>, n: nat, ch: byte, crc: word, combined: word, b: bits, expected: Result)
    requires |w| == n + 2 && AheadOut(t, produced, h, Remaining(w, n, n, ch, 0), crc, combined, b, expected)
    ensures Final(crc) == h.crc ==> Ahead(t, produced, BlockHeader(h.size, 0), Combine(combined, Final(crc)), b, expected)
    ensures Final(crc) != h.crc ==> Ahead(t, produced, Failed(DataError), combined, b, expected)
  {
    var x := AfterBlock(t, h, Remaining(w, n, n, ch, 0), crc, combined, b);
    BlockClosed(t, h, w, n, ch, crc, combined, b);
    DecodeFailed(t, DataError, combined, b);
  }

  lemma AheadCorrupt(t: Tables, produced: seq<byte>, h: Head, crc: word, combined: word, b: bits, expected: Result)
    requires AheadOut(t, produced, h, Undone([], false), crc, combined, b, expected)
    ensures Ahead(t, produced, Failed(DataError), combined, b, expected)
  {
    var x := AfterBlock(t, h, Undone([], false), crc, combined, b);
    DecodeFailed(t, DataError, combined, b);
  }

  lemma AheadEnd(t: Tables, produced: seq<byte>, s: State, combined: word, b: bits, expected: Result)
    requires Inv(s) && Ahead(t, produced, s, combined, b, expected)
    ensures s.Idle? ==> expected == Result(produced, if combined == s.crc then StreamEnd else Bad(DataError))
    ensures s.Failed? ==> expected == Result(produced, Bad(s.error))
    ensures !Stopped(s) && |b| < Need(s) ==> expected == Result(produced, NeedMore)
  {
    var x := Exec(s, b);
    assert produced + [] == produced;
    if s.Idle? {
      DecodeIdle(t, s.crc, combined, b);
    } else if s.Failed? {
      DecodeFailed(t, s.error, combined, b);
    } else if !Stopped(s) && |b| < Need(s) {
      DecodeStarved(t, s, combined, b);
    }
  }

  /** A block that has been read and not begun to be written. */
  lemma DecodeOutput(t: Tables, h: Head, col: seq<byte>, combined: word, b: bits, ch: byte)
    requires Inv(Output(h, col))
    ensures Decode(t, Output(h, col), combined, b) == AfterBlock(t, h, Remaining(Text(t, h, col), |col|, 0, ch, 0), INIT, combined, b)
  {
    PrependNone(UnRle(Text(t, h, col), |col|, 0));
  }

  lemma DecodeFailed(t: Tables, e: Parser.Error, combined: word, b: bits)
    ensures Decode(t, Failed(e), combined, b) == Result([], Bad(e))
  {
  }

  /** Without enough bits for the next field, all bits there are decode to nothing yet. */
  lemma DecodeStarved(t: Tables, s: State, combined: word, b: bits)
    requires Inv(s) && !Stopped(s) && |b| < Need(s)
    ensures Decode(t, s, combined, b) == Result([], NeedMore)
  {
  }

  lemma DecodeIdle(t: Tables, crc: nat, combined: word, b: bits)
    ensures Decode(t, Idle(crc), combined, b) == Result([], if combined == crc then StreamEnd else Bad(DataError))
  {
  }

  /** The walker meets the bytes of the text. */
  lemma WalkerText(t: Tables, h: Head, col: seq<byte>, w: Walker.Walker)
    requires h.origPtr < |col| && w.Valid() && w.col == col && w.orig == h.origPtr && w.randomised == h.randomised && w.g == t.gaps
    ensures forall i {:trigger w.TextAt(i)} :: 0 <= i < |col| + 2 ==> Text(t, h, col)[i] == w.TextAt(i)
  {
    Walker.UndoesTInverse(w.q, col);
    forall i | 0 <= i < |col| + 2
      ensures Text(t, h, col)[i] == w.TextAt(i)
    {
      WalkIter(col, w.q, w.q[h.origPtr], |col| + 2, i);
    }
  }

  lemma BlockClosed(t: Tables, h: Head, w: seq<byte>, n: nat, ch: byte, crc: word, combined: word, b: bits)
    requires |w| == n + 2
    ensures AfterBlock(t, h, Remaining(w, n, n, ch, 0), crc, combined, b)
         == if Final(crc) == h.crc then Decode(t, BlockHeader(h.size, 0), Combine(combined, Final(crc)), b) else Result([], Bad(DataError))
  {
    var u := Remaining(w, n, n, ch, 0);
    assert u == Undone([], true) by { assert Repeat(ch, 0) + [] == []; }
    ThenNone(Decode(t, BlockHeader(h.size, 0), Combine(combined, Final(crc)), b));
  }

  class Decompressor {
    const small: bool
    const t: Tables
    const front: StreamReader.StreamReader
    var combined: word
    var block: BlockOutput?
    /** The bits that will still be supplied, what has been written, and what the whole stream decodes to. */
    ghost var future: bits
    ghost var produced: seq<byte>
    ghost const expected: Result

    /** What the rest of the input decodes to from the parser's state completes the expected result. */
    ghost predicate Reading()
      reads this, front, front.reader, front.symbols, front.Foot()
    {
      front.Valid() && this !in front.Foot() && Ahead(t, produced, front.At(), combined, front.reader.unread + future, expected)
    }

    /** The same while a block is being written. */
    ghost predicate Emitting()
      reads this, front, front.reader, front.symbols, front.Foot(), block,
            if block != null then {block.src, block.src.tt, block.src.ll16, block.src.ll4, block.src.cftab} else {}
    {
      && front.Valid() && this !in front.Foot() && front.state.Output? && block != null && block.Valid() && block.t == t.crc
      && AheadOut(t, produced, front.state.h, block.Rem(), block.crc, combined, front.reader.unread + future, expected)
    }

    /** What changes besides this object's fields. */
    ghost function Foot(): set<object>
      reads this`block, front`symbols
    {
      {front, front.reader} + front.Foot() + if block != null then {block, block.src} else {}
    }

    /** BZ2_bzDecompressInit. */
    constructor (small: bool, t: Tables, ghost stream: bits)
      ensures Reading() && !front.state.Output? && !front.state.Idle? && fresh(Foot()) && future == stream && produced == [] && block == null
      ensures this.t == t && this.small == small && front.reader.input == [] && expected == Decode(t, Magic(0), 0, stream)
    {
      this.small, this.t := small, t;
      front := new StreamReader.StreamReader();
      combined, block := 0, null;
      future, produced, expected := stream, [], Decode(t, Magic(0), 0, stream);
      new;
      ThenNone(expected);
      assert front.reader.unread + stream == stream;
    }

    /** BZ2_decompress. */
    method Parse()
      requires Reading()
      modifies front, front.reader, front.Foot()
      ensures Reading() && (Stopped(front.state) || front.Starved()) && fresh(front.Foot() - old(front.Foot()))
      ensures |front.reader.unread| <= |old(front.reader.unread)|
      ensures Stopped(front.state) && !old(Stopped(front.state)) ==> |front.reader.unread| < |old(front.reader.unread)|
      ensures old(Stopped(front.state)) ==> front.state == old(front.state)
    {
      ghost var s, b := front.At(), front.reader.unread;
      front.Parse();
      AheadLeads(t, produced, s, b, front.At(), front.reader.unread, combined, future, expected);
    }

    /** Sets up the output of a block that has just been read. */
    method Open()
      requires Reading() && front.state.Output?
      modifies this`block
      ensures Emitting() && fresh(block) && fresh(block.src)
    {
      var h, col := front.state.h, front.state.col;
      var w := Walker.Start(col, h.origPtr, small, h.randomised, t.gaps);
      WalkerText(t, h, col, w);
      block := new BlockOutput(w, |col|, t.crc, Text(t, h, col));
      AheadOpened(t, produced, h, col, combined, front.reader.unread + future, block.ch, expected);
    }

    /** The caller supplies the next input bytes. */
    method Supply(more: seq<byte>, ghost rest: bits)
      requires Valid() && future == BytesToBits(more) + rest
      modifies this`future, front.reader
      ensures Valid() && future == rest && front.reader.input == old(front.reader.input) + more && Foot() == old(Foot())
    {
      Regrouped(front.reader.unread, BytesToBits(more), rest);
      front.Supply(more);
      future := rest;
    }

    ghost predicate Valid()
      reads this, front, front.reader, front.symbols, front.Foot(), block,
            if block != null then {block.src, block.src.tt, block.src.ll16, block.src.ll4, block.src.cftab} else {}
    {
      match front.state
      case Output(_, _) => Emitting()
      case _ => Reading()
    }

    method Write(room: nat) returns (out: seq<byte>, corrupt: bool)
      requires Emitting()
      modifies this`produced, block, block.src
      ensures Emitting() && produced == old(produced) + out && |out| <= room
      ensures !corrupt ==> |out| == room || block.Finished()
      ensures corrupt ==> block.Rem() == Undone([], false)
    {
      ghost var c := block.crc;
      out, corrupt := block.Emit(room);
      AheadWritten(t, produced, front.state.h, out, block.Rem(), c, combined, front.reader.unread + future, expected);
      produced := produced + out;
    }

    /** The checksum test at the end of a block. */
    method CloseBlock() returns (good: bool)
      requires Emitting() && block.Finished()
      modifies front`state, this`combined
      ensures Reading() && (if good then front.state.BlockHeader? else front.state == Failed(DataError))
    {
      var h := front.state.h;
      AheadClosed(t, produced, h, block.w, block.n, block.ch, block.crc, combined, front.reader.unread + future, expected);
      good := Final(block.crc) == h.crc;
      if good {
        combined := Combine(combined, Final(block.crc));
        front.state := BlockHeader(h.size, 0);
      } else {
        front.state := Failed(DataError);
      }
    }

    method GiveUp()
      requires Emitting() && block.Rem() == Undone([], false)
      modifies front`state
      ensures Reading() && front.state == Failed(DataError)
    {
      AheadCorrupt(t, produced, front.state.h, block.crc, combined, front.reader.unread + future, expected);
      front.state := Failed(DataError);
    }

    /** Writes more of the current block and closes it when it is complete; done says that the call must return code. */
    method FinishBlock(room: nat) returns (out: seq<byte>, done: bool, code: Code)
      requires Emitting()
      modifies front`state, this`combined, this`produced, block, block.src
      ensures produced == old(produced) + out && |out| <= room
      ensures done && code == Ok ==> |out| == room && Emitting()
      ensures done && code != Ok ==> code == Error(DataError) && front.state == Failed(DataError) && Reading()
      ensures !done ==> Reading() && front.state.BlockHeader?
    {
      done, code := false, Ok;
      var corrupt;
      out, corrupt := Write(room);
      if corrupt {
        GiveUp();
        done, code := true, Error(DataError);
      } else if block.used == block.n + 1 && block.len == 0 {
        var good := CloseBlock();
        if !good { done, code := true, Error(DataError); }
      } else {
        done := true;
      }
    }

    /** What a state without output means for the caller. */
    method Verdict() returns (code: Code)
      requires Reading() && !front.state.Output? && (Stopped(front.state) || front.Starved())
      ensures code == EndOfStream ==> front.state.Idle? && expected == Result(produced, StreamEnd)
      ensures code.Error? ==> Stopped(front.state) && expected == Result(produced, Bad(code.error))
      ensures code == Ok ==> !front.state.Idle? && front.reader.input == [] && (future == [] ==> expected == Result(produced, NeedMore))
      ensures code != SequenceError
    {
      AheadEnd(t, produced, front.At(), combined, front.reader.unread + future, expected);
      code := Ok;
      if front.state.Idle? {
        code := if combined == front.state.crc then EndOfStream else Error(DataError);
      } else if front.state.Failed? {
        code := Error(front.state.error);
      }
    }

    /** Reads on, up to the next block if the input allows. */
    method Advance() returns (code: Code)
      requires Reading() && !front.state.Output?
      modifies this`block, front, front.reader, front.Foot()
      ensures if front.state.Output? then Emitting() && fresh(block) && fresh(block.src) else Reading() && block == old(block)
      ensures fresh(front.Foot() - old(front.Foot()))
      ensures front.state.Output? ==> code == Ok && |front.reader.unread| < |old(front.reader.unread)|
      ensures code == EndOfStream ==> front.state.Idle? && expected == Result(produced, StreamEnd)
      ensures code.Error? ==> expected == Result(produced, Bad(code.error))
      ensures code == Ok ==> front.state.Output? || (!front.state.Idle? && front.reader.input == [] && (future == [] ==> expected == Result(produced, NeedMore)))
      ensures code != SequenceError
    {
      Parse();
      if front.state.Output? {
        Open();
        code := Ok;
      } else {
        code := Verdict();
      }
    }

    /** What a return code tells of the stream. */
    ghost predicate Told(code: Code, full: bool)
      reads this, front, front.reader
    {
      match code
      case EndOfStream => front.state.Idle? && expected == Result(produced, StreamEnd)
      case Error(e) => expected == Result(produced, Bad(e))
      case Ok => !front.state.Idle? && (full || (front.reader.input == [] && (future == [] ==> expected == Result(produced, NeedMore))))
      case SequenceError => false
    }

    /** The rest of the current block, as far as there is room; done says that the call must return. */
    method Resume(room: nat) returns (out: seq<byte>, done: bool, code: Code)
      requires Emitting()
      modifies front`state, this`combined, this`produced, block, block.src
      ensures produced == old(produced) + out && |out| <= room
      ensures if done then Valid() && Told(code, |out| == room) else Reading() && front.state.BlockHeader?
      ensures Foot() == old(Foot()) && front.Foot() == old(front.Foot()) && front.reader.unread == old(front.reader.unread)
    {
      out, done, code := FinishBlock(room);
      if done && code != Ok {
        code := Verdict();
      }
    }

    /** On to the next block; done says that there is none yet. */
    method Proceed() returns (done: bool, code: Code)
      requires Reading() && !front.state.Output?
      modifies this`block, front, front.reader, front.Foot()
      ensures Valid() && forall o :: o in Foot() ==> o in old(Foot()) || fresh(o)
      ensures done ==> Told(code, false) && Told(code, true)
      ensures !done ==> front.state.Output? && |front.reader.unread| < |old(front.reader.unread)|
    {
      code := Advance();
      done := !front.state.Output?;
    }

    /** One round of BZ2_bzDecompress: the rest of the current block, then on to the next. */
    method Round(room: nat) returns (out: seq<byte>, done: bool, code: Code)
      requires Valid() && !front.state.Idle?
      modifies this`combined, this`produced, this`block, Foot()
      ensures Valid() && produced == old(produced) + out && |out| <= room
      ensures forall o :: o in Foot() ==> o in old(Foot()) || fresh(o)
      ensures if done then Told(code, |out| == room) else front.state.Output? && |front.reader.unread| < |old(front.reader.unread)|
    {
      out, done, code := [], false, Ok;
      if front.state.Output? {
        out, done, code := Resume(room);
      }
      if !done {
        done, code := Proceed();
      }
    }

    /** The rounds of one call; each round of the source's endless loop is one activation. */
    method Rounds(room: nat) returns (out: seq<byte>, code: Code)
      requires Valid() && !front.state.Idle?
      modifies this`combined, this`produced, this`block, Foot()
      ensures Valid() && produced == old(produced) + out && |out| <= room && Told(code, |out| == room)
      ensures forall o :: o in Foot() ==> o in old(Foot()) || fresh(o)
      decreases |front.reader.unread|
    {
      ghost var start := produced;
      var done;
      out, done, code := Round(room);
      if !done {
        var more;
        more, code := Rounds(room - |out|);
        Regrouped(start, out, more);
        out := out + more;
      }
    }

    /**
     * BZ2_bzDecompress with room bytes of output. However the input arrives and the output is taken,
     * what has been written so far is the beginning of what the stream decodes to, and a final verdict
     * is the stream's.
     */
    method Decompress(room: nat) returns (out: seq<byte>, code: Code)
      requires Valid()
      modifies this`combined, this`produced, this`block, Foot()
      ensures Valid() && produced == old(produced) + out && |out| <= room
      ensures forall o :: o in Foot() ==> o in old(Foot()) || fresh(o)
      ensures if old(front.state.Idle?) then code == SequenceError else Told(code, |out| == room)
    {
      if front.state.Idle? {
        out, code := [], SequenceError;
      } else {
        out, code := Rounds(room);
      }
    }
  }
}
