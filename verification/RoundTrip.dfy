/** Losslessness: what any run of compression calls has consumed, any run of decompression calls gives back. */
module RoundTrip {
  import opened Bits
  import opened Decoding
  import opened Rotations
  import A = Archive
  import BitIO
  import C = Compressor
  import Crc
  import D = Decompressor
  import Format
  import Parser
  import Randomise

  /** A finished compressor has handed out a stream that decodes to the bytes it consumed. */
  lemma StreamComplete(c: C.Compressor, g: Randomise.gaps)
    requires c.Valid() && c.mode == C.Idle
    ensures Decode(Tables(c.arch.t, g), Parser.Magic(0), 0, BytesToBits(c.Sent())) == Result(c.fed, StreamEnd)
  {
    var a := c.arch;
    var earlier := BytesToBits(a.before);
    assert a.w.zbits[..c.pos] == a.w.zbits;
    assert A.Sound(a.t, a.size, a.parcels);
    A.StreamDecodes(Tables(a.t, g), a.size, a.parcels, a.stage.pad);
    assert c.fed == a.text + [];
  }

  /**
   * After a flush that is over, the bytes handed out and the bits that do not fill the writer's buffer, at most 32,
   * decode to all that was taken. The bytes alone need not: a flush does not pad the last bits.
   */
  lemma FlushedDecodes(c: C.Compressor, g: Randomise.gaps)
    requires c.Valid() && c.Flushed()
    ensures |c.arch.w.written| <= 32
    ensures Decode(Tables(c.arch.t, g), Parser.Magic(0), 0, BytesToBits(c.Sent()) + c.arch.w.written) == Result(c.fed, NeedMore)
  {
    var a := c.arch;
    var earlier := BytesToBits(a.before);
    assert a.w.zbits[..c.pos] == [];
    assert a.before + [] == a.before;
    assert A.Sound(a.t, a.size, a.parcels);
    A.OpenDecodes(Tables(a.t, g), a.size, a.parcels);
  }

  /** The first four bytes of every stream: "BZh" and the level. */
  predicate Opens(s: seq<byte>, size: Parser.level) {
    |s| >= 4 && s[0] == 0x42 && s[1] == 0x5a && s[2] == 0x68 && s[3] == 0x30 + size
  }

  /** All bytes of the stream of nothing: the end's magic number and a checksum of zero follow. */
  predicate OfNothing(s: seq<byte>, size: Parser.level) {
    && |s| == 14 && Opens(s, size) && s[4] == 0x17 && s[5] == 0x72 && s[6] == 0x45 && s[7] == 0x38 && s[8] == 0x50 && s[9] == 0x90
    && s[10] == 0 && s[11] == 0 && s[12] == 0 && s[13] == 0
  }

  lemma StreamIs(c: C.Compressor)
    requires c.Valid() && c.mode == C.Idle
    ensures var a := c.arch;
            && a.size == c.size && a.stage.Closed? && a.stage.pad < 8 && A.Sound(a.t, a.size, a.parcels)
            && BytesToBits(c.Sent()) == A.StreamBits(a.t, a.size, a.parcels, a.stage.pad) && c.fed == A.PartsText(a.parcels)
  {
    var a := c.arch;
    var earlier := BytesToBits(a.before);
    assert a.w.zbits[..c.pos] == a.w.zbits;
    assert A.Sound(a.t, a.size, a.parcels);
    assert c.fed == a.text + [];
  }

  lemma StreamBytes(c: C.Compressor)
    requires c.Valid() && c.mode == C.Idle
    ensures Opens(c.Sent(), c.size) && (c.fed == [] ==> OfNothing(c.Sent(), c.size))
  {
    StreamIs(c);
    BytesOf(c.arch.t, c.size, c.arch.parcels, c.arch.stage.pad, c.Sent());
  }

  lemma BytesOf(t: Crc.Checksum, size: Parser.level, ps: seq<A.Parcel>, pad: nat, sent: seq<byte>)
    requires A.Sound(t, size, ps) && BytesToBits(sent) == A.StreamBits(t, size, ps, pad) && pad < 8
    ensures Opens(sent, size) && (A.PartsText(ps) == [] ==> OfNothing(sent, size))
  {
    var four, m := [0x42, 0x5a, 0x68, 0x30 + size], [0x17, 0x72, 0x45, 0x38, 0x50, 0x90];
    FirstBytes(t, size, ps, pad, sent, four, m);
    if A.PartsText(ps) == [] {
      A.NoParts(t, size, ps);
      EmptyBytes(t, size, pad, sent, four, m);
    }
  }

  lemma FirstBytes(t: Crc.Checksum, size: Parser.level, ps: seq<A.Parcel>, pad: nat, sent: seq<byte>, four: seq<int>, m: seq<int>)
    requires A.Sound(t, size, ps) && BytesToBits(sent) == A.StreamBits(t, size, ps, pad)
    requires four == [0x42, 0x5a, 0x68, 0x30 + size] && A.EndMagic(m)
    ensures Opens(sent, size)
  {
    A.StreamFrame(t, size, ps, pad, four, m);
    Format.OctetsAreBytes(four);
    BytesToBitsConcat(sent[..4], sent[4..]);
    assert sent == sent[..4] + sent[4..];
    assert BytesToBits(sent[..4]) == BytesToBits(sent)[..32] == BytesToBits(four);
    SameBytes(sent[..4], four);
  }

  lemma NoChecksum(m: seq<int>, ten: seq<int>)
    requires A.EndMagic(m) && |ten| == 10 && ten[..6] == m && ten[6] == ten[7] == ten[8] == ten[9] == 0
    ensures m + Format.WordBytes(0) == ten
  {
  }

  lemma EmptyBytes(t: Crc.Checksum, size: Parser.level, pad: nat, sent: seq<byte>, four: seq<int>, m: seq<int>)
    requires pad < 8 && BytesToBits(sent) == A.StreamBits(t, size, [], pad)
    requires four == [0x42, 0x5a, 0x68, 0x30 + size] && A.EndMagic(m)
    ensures OfNothing(sent, size)
  {
    var ten := m + [0, 0, 0, 0];
    A.StreamFrame(t, size, [], pad, four, m);
    NoChecksum(m, ten);
    Format.OctetsAreBytes(four);
    Format.OctetsAreBytes(ten);
    BytesToBitsConcat(four, ten);
    Padless(BytesToBits(four), BytesToBits(ten), pad, sent);
    SameBytes(sent, four + ten);
    Nothing(sent, size, four, m);
  }

  lemma Nothing(sent: seq<byte>, size: Parser.level, four: seq<int>, m: seq<int>)
    requires four == [0x42, 0x5a, 0x68, 0x30 + size] && A.EndMagic(m) && sent == four + (m + [0, 0, 0, 0])
    ensures OfNothing(sent, size)
  {
  }

  lemma Padless(a: bits, b: bits, pad: nat, sent: seq<byte>)
    requires pad < 8 && |a| == 32 && |b| == 80 && BytesToBits(sent) == a + ([] + (b + BitIO.Zeros(pad)))
    ensures BytesToBits(sent) == a + b
  {
    assert 8 * |sent| == 112 + pad;
  }

  /** One call of BZ2_bzCompress, and one of BZ2_bzDecompress with some more of the stream. */
  datatype Call = Call(action: C.Action, avail: seq<byte>, room: nat)
  datatype Cut = Cut(bytes: nat, room: nat)

  /** Any sequence of calls; ended says that one of them returned BZ_STREAM_END. */
  method CompressAll(size: Parser.level, t: Tables, workFactor: int, calls: seq<Call>) returns (consumed: seq<byte>, stream: seq<byte>, ended: bool)
    requires 0 <= workFactor <= 250
    ensures ended ==> Decode(t, Parser.Magic(0), 0, BytesToBits(stream)) == Result(consumed, StreamEnd)
    ensures ended ==> Opens(stream, size) && (consumed == [] ==> OfNothing(stream, size))
  {
    var c := new C.Compressor(size, t.crc, workFactor);
    consumed, stream, ended := [], [], false;
    for i := 0 to |calls|
      invariant c.Valid() && c.Poised() && c.arch.t == t.crc && c.size == size && fresh(c) && fresh(c.arch) && fresh(c.arch.w) && fresh(c.buf)
      invariant consumed == c.fed && stream == c.Sent() && (ended ==> c.mode == C.Idle)
    {
      var taken, written, code := c.Compress(calls[i].action, calls[i].avail, calls[i].room);
      consumed := consumed + calls[i].avail[..taken];
      stream := stream + written;
      if code == C.StreamEnd { ended := true; }
    }
    if ended {
      StreamComplete(c, t.gaps);
      StreamBytes(c);
    }
  }

  lemma StreamOf(c: C.Compressor, t: Tables, data: seq<byte>, stream: seq<byte>)
    requires c.Valid() && c.mode == C.Idle && c.arch.t == t.crc && c.fed == data && c.Sent() == stream
    ensures Decode(t, Parser.Magic(0), 0, BytesToBits(stream)) == Result(data, StreamEnd)
  {
    StreamComplete(c, t.gaps);
  }

  lemma FedMore(fed: seq<byte>, data: seq<byte>, taken: nat)
    requires taken <= |data|
    ensures fed + data[..taken] + data[taken..] == fed + data
  {
    Regrouped(fed, data[..taken], data[taken..]);
    assert data[..taken] + data[taken..] == data;
  }

  /** One BZ_FINISH call with some room. */
  method FinishSome(c: C.Compressor, data: seq<byte>, room: nat) returns (left: seq<byte>, out: seq<byte>, done: bool)
    requires c.Valid() && c.Poised() && room > 0 && (c.mode == C.Running || (c.mode == C.Finishing && c.expected == |data|))
    modifies c, c.arch, c.arch.w, c.buf
    ensures c.Valid() && c.Poised() && c.fed + left == old(c.fed) + data && c.Sent() == old(c.Sent()) + out
    ensures if done then c.mode == C.Idle && left == [] else
              && c.mode == C.Finishing && c.expected == |left| && |out| == room
              && C.Closer(old(c.Measure(|data|, c.output, c.flushed)), old(c.Left()), c.Measure(|left|, c.output, c.flushed), c.Left())
  {
    var taken, written, code := c.Compress(C.BzFinish, data, room);
    left, out, done := data[taken..], written, code == C.StreamEnd;
    FedMore(old(c.fed), data, taken);
  }

  /** BZ_FINISH again and again, with any room for each call: it comes to an end, with all data consumed. */
  method FinishAll(c: C.Compressor, data: seq<byte>, rooms: nat -> nat) returns (stream: seq<byte>)
    requires c.Valid() && c.Poised() && c.mode == C.Running && forall k :: rooms(k) > 0
    modifies c, c.arch, c.arch.w, c.buf
    ensures c.Valid() && c.mode == C.Idle && c.fed == old(c.fed) + data && c.Sent() == old(c.Sent()) + stream
  {
    var left, done, k := data, false, 0;
    stream := [];
    while !done
      invariant c.Valid() && c.Poised() && c.fed + left == old(c.fed) + data && c.Sent() == old(c.Sent()) + stream && 0 <= k
      invariant if done then c.mode == C.Idle && left == [] else c.mode == C.Running || (c.mode == C.Finishing && c.expected == |left|)
      decreases !done, c.Measure(|left|, c.output, c.flushed), c.Left()
    {
      var out;
      left, out, done := FinishSome(c, left, rooms(k));
      Regrouped(old(c.Sent()), stream, out);
      stream, k := stream + out, k + 1;
    }
    assert c.fed + [] == c.fed;
  }

  /** One BZ_FLUSH call with some room. */
  method FlushSome(c: C.Compressor, data: seq<byte>, room: nat) returns (left: seq<byte>, out: seq<byte>, done: bool)
    requires c.Valid() && c.Poised() && room > 0 && (c.mode == C.Running || (c.mode == C.Flushing && c.expected == |data|))
    modifies c, c.arch, c.arch.w, c.buf
    ensures c.Valid() && c.Poised() && c.fed + left == old(c.fed) + data && c.Sent() == old(c.Sent()) + out
    ensures if done then c.Flushed() && left == [] else
              && c.mode == C.Flushing && c.expected == |left| && |out| == room
              && C.Closer(old(c.Measure(|data|, c.output, c.flushed)), old(c.Left()), c.Measure(|left|, c.output, c.flushed), c.Left())
  {
    var taken, written, code := c.Compress(C.BzFlush, data, room);
    left, out, done := data[taken..], written, code == C.RunOk;
    FedMore(old(c.fed), data, taken);
  }

  /**
   * BZ_FLUSH again and again, with any room for each call: it comes to an end, with all data consumed, and what has been
   * handed out since the stream began, with the bits still in the writer, decodes to all of it.
   */
  method FlushAll(c: C.Compressor, data: seq<byte>, rooms: nat -> nat, ghost g: Randomise.gaps) returns (stream: seq<byte>)
    requires c.Valid() && c.Poised() && c.mode == C.Running && forall k :: rooms(k) > 0
    modifies c, c.arch, c.arch.w, c.buf
    ensures c.Valid() && c.Poised() && c.Flushed() && c.fed == old(c.fed) + data && c.Sent() == old(c.Sent()) + stream
    ensures |c.arch.w.written| <= 32
    ensures Decode(Tables(c.arch.t, g), Parser.Magic(0), 0, BytesToBits(c.Sent()) + c.arch.w.written) == Result(c.fed, NeedMore)
  {
    var left, done, k := data, false, 0;
    stream := [];
    while !done
      invariant c.Valid() && c.Poised() && c.fed + left == old(c.fed) + data && c.Sent() == old(c.Sent()) + stream && 0 <= k
      invariant if done then c.Flushed() && left == [] else c.mode == C.Running || (c.mode == C.Flushing && c.expected == |left|)
      decreases !done, c.Measure(|left|, c.output, c.flushed), c.Left()
    {
      var out;
      left, out, done := FlushSome(c, left, rooms(k));
      Regrouped(old(c.Sent()), stream, out);
      stream, k := stream + out, k + 1;
    }
    assert c.fed + [] == c.fed;
    FlushedDecodes(c, g);
  }

  /** Every sequence of bytes has a stream, and the calls that make it come to an end. */
  method CompressFully(size: Parser.level, t: Tables, workFactor: int, data: seq<byte>, rooms: nat -> nat) returns (stream: seq<byte>)
    requires 0 <= workFactor <= 250 && forall k :: rooms(k) > 0
    ensures Decode(t, Parser.Magic(0), 0, BytesToBits(stream)) == Result(data, StreamEnd)
  {
    var c := new C.Compressor(size, t.crc, workFactor);
    stream := FinishAll(c, data, rooms);
    assert [] + stream == stream && [] + data == data;
    StreamOf(c, t, data, stream);
  }

  lemma NextCut(stream: seq<byte>, n: nat)
    requires n <= |stream|
    ensures BytesToBits(stream) == BytesToBits(stream[..n]) + BytesToBits(stream[n..])
  {
    assert stream == stream[..n] + stream[n..];
    BytesToBitsConcat(stream[..n], stream[n..]);
  }

  /** One call with some more input. */
  method Hand(d: D.Decompressor, more: seq<byte>, ghost rest: bits, room: nat) returns (out: seq<byte>, code: D.Code)
    requires d.Valid() && !d.front.state.Idle? && d.future == BytesToBits(more) + rest
    modifies d, d.Foot()
    ensures d.Valid() && d.future == rest && d.produced == old(d.produced) + out && |out| <= room
    ensures forall o :: o in d.Foot() ==> o in old(d.Foot()) || fresh(o)
    ensures d.Told(code, |out| == room)
  {
    d.Supply(more, rest);
    out, code := d.Decompress(room);
  }

  /** One call with the next bytes of the stream, as many as there are. */
  method Feed(d: D.Decompressor, stream: seq<byte>, cut: Cut) returns (out: seq<byte>, left: seq<byte>, full: bool, code: D.Code)
    requires d.Valid() && !d.front.state.Idle? && d.future == BytesToBits(stream)
    modifies d, d.Foot()
    ensures d.Valid() && d.future == BytesToBits(left) && d.produced == old(d.produced) + out
    ensures forall o :: o in d.Foot() ==> o in old(d.Foot()) || fresh(o)
    ensures |out| <= cut.room && full == (|out| == cut.room) && d.Told(code, full)
    ensures left == if cut.bytes <= |stream| then stream[cut.bytes..] else []
  {
    var n := if cut.bytes <= |stream| then cut.bytes else |stream|;
    left := stream[n..];
    NextCut(stream, n);
    out, code := Hand(d, stream[..n], BytesToBits(left), cut.room);
    full := |out| == cut.room;
  }

  /** What a decompressor has written begins what the stream decodes to. */
  lemma Beginning(d: D.Decompressor)
    requires d.Valid()
    ensures d.produced <= d.expected.out
  {
    var b := d.front.reader.unread + d.future;
    if d.front.state.Output? {
      var rest := AfterBlock(d.t, d.front.state.h, d.block.Rem(), d.block.crc, d.combined, b);
    } else {
      var rest := Parser.Exec(d.front.At(), b);
    }
  }

  /** Calls with the stream cut anywhere and any room for each, up to the first that does not return BZ_OK. */
  method Drain(d: D.Decompressor, stream: seq<byte>, cuts: seq<Cut>) returns (out: seq<byte>, left: seq<byte>, full: bool, code: D.Code)
    requires d.Valid() && !d.front.state.Idle? && d.future == BytesToBits(stream)
    modifies d, d.Foot()
    ensures d.Valid() && d.future == BytesToBits(left) && d.produced == old(d.produced) + out && d.Told(code, full)
    decreases |cuts|
  {
    out, left, full, code := [], stream, true, D.Ok;
    if cuts != [] {
      out, left, full, code := Feed(d, stream, cuts[0]);
      if code == D.Ok {
        var more;
        more, left, full, code := Drain(d, left, cuts[1..]);
        Regrouped(old(d.produced), out, more);
        out := out + more;
      }
    }
  }

  /**
   * left is the part of the stream that was not handed over and full says that the last call used all its
   * room: with the whole stream handed over and room to spare, the calls have given their verdict.
   */
  method DecompressAll(small: bool, t: Tables, stream: seq<byte>, cuts: seq<Cut>) returns (out: seq<byte>, left: seq<byte>, full: bool, code: D.Code)
    ensures out <= Decode(t, Parser.Magic(0), 0, BytesToBits(stream)).out && code != D.SequenceError
    ensures code == D.EndOfStream ==> Decode(t, Parser.Magic(0), 0, BytesToBits(stream)) == Result(out, StreamEnd)
    ensures code.Error? ==> Decode(t, Parser.Magic(0), 0, BytesToBits(stream)) == Result(out, Bad(code.error))
    ensures code == D.Ok && left == [] && !full ==> Decode(t, Parser.Magic(0), 0, BytesToBits(stream)) == Result(out, NeedMore)
  {
    var d := new D.Decompressor(small, t, BytesToBits(stream));
    out, left, full, code := Drain(d, stream, cuts);
    Beginning(d);
  }

  /** The small and the fast decoder, each with its own cuts and room, write the same bytes and come to the same verdict. */
  method SmallAsFast(t: Tables, stream: seq<byte>, cuts: seq<Cut>, cuts': seq<Cut>) returns (out: seq<byte>, code: D.Code, out': seq<byte>, code': D.Code)
    ensures out <= out' || out' <= out
    ensures code != D.Ok && code' != D.Ok ==> out == out' && code == code'
  {
    var left, full;
    out, left, full, code := DecompressAll(false, t, stream, cuts);
    out', left, full, code' := DecompressAll(true, t, stream, cuts');
  }

  /**
   * Whatever calls produced the stream and whatever calls read it back, in either decoding mode: the decoder
   * never reports an error, what it has written begins what was compressed, and once it has all the stream
   * and room to spare it has given back every byte and says so.
   */
  method RoundTrip(size: Parser.level, t: Tables, workFactor: int, calls: seq<Call>, small: bool, cuts: seq<Cut>)
    returns (consumed: seq<byte>, ended: bool, out: seq<byte>, left: seq<byte>, full: bool, code: D.Code)
    requires 0 <= workFactor <= 250
    ensures ended ==> out <= consumed && !code.Error?
    ensures ended && code == D.EndOfStream ==> out == consumed
    ensures ended && left == [] && !full ==> code == D.EndOfStream
  {
    var stream;
    consumed, stream, ended := CompressAll(size, t, workFactor, calls);
    out, left, full, code := DecompressAll(small, t, stream, cuts);
  }

  /** What a return code says of a stream that has been handed over, with room to spare. */
  function Meaning(code: D.Code): Status {
    match code
    case EndOfStream => StreamEnd
    case Error(e) => Bad(e)
    case _ => NeedMore
  }

  lemma CodeMeans(d: D.Decompressor, code: D.Code, full: bool)
    requires d.Told(code, full) && d.future == BytesToBits([])
    ensures !full ==> d.expected == Result(d.produced, Meaning(code))
  {
    assert BytesToBits([]) == [];
  }

  method FeedOnce(d: D.Decompressor, stream: seq<byte>, room: nat) returns (out: seq<byte>, code: D.Code)
    requires d.Valid() && !d.front.state.Idle? && d.future == BytesToBits(stream) && d.produced == []
    modifies d, d.Foot()
    ensures out <= d.expected.out && (|out| < room ==> d.expected == Result(out, Meaning(code)))
  {
    var left, full;
    out, left, full, code := Feed(d, stream, Cut(|stream|, room));
    Beginning(d);
    CodeMeans(d, code, full);
  }

  /** One call with the whole stream: with room to spare it gives the verdict. */
  method DecompressOnce(small: bool, t: Tables, stream: seq<byte>, room: nat) returns (out: seq<byte>, code: D.Code)
    ensures |out| < room ==> Decode(t, Parser.Magic(0), 0, BytesToBits(stream)) == Result(out, Meaning(code))
    ensures out <= Decode(t, Parser.Magic(0), 0, BytesToBits(stream)).out
  {
    var d := new D.Decompressor(small, t, BytesToBits(stream));
    out, code := FeedOnce(d, stream, room);
  }

  /** Both directions with nothing left open: any data comes back, in one call that has room to spare. */
  method Restored(size: Parser.level, t: Tables, workFactor: int, data: seq<byte>, rooms: nat -> nat, small: bool) returns (out: seq<byte>, code: D.Code)
    requires 0 <= workFactor <= 250 && forall k :: rooms(k) > 0
    ensures out == data && code == D.EndOfStream
  {
    var stream := CompressFully(size, t, workFactor, data, rooms);
    out, code := DecompressOnce(small, t, stream, |data| + 1);
  }
}
