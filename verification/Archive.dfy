/** BZ2_compressBlock over a whole stream: the header before the first block, the trailer after the last. */
module Archive {
  import opened Alphabet
  import opened BitIO
  import opened Bits
  import opened BlockEncoder
  import opened Crc
  import opened Decoding
  import opened Format
  import opened Parser
  import opened Rotations
  import opened RunLength
  import opened Sender
  import opened Space

  /** A block that has been written, with the runs it holds and their sorted rotations. */
  datatype Parcel = Parcel(b: Block, rs: seq<Run>, p: seq<int>)

  ghost predicate Sound(t: Checksum, size: level, ps: seq<Parcel>) {
    forall i :: 0 <= i < |ps| ==> Encodes(t, size, ps[i].b, ps[i].rs, ps[i].p)
  }

  ghost function PartsBits(t: Checksum, size: level, ps: seq<Parcel>): bits
    requires Sound(t, size, ps)
  {
    if ps == [] then [] else PartsBits(t, size, ps[..|ps| - 1]) + BlockBits(ps[|ps| - 1].b)
  }

  ghost function PartsText(ps: seq<Parcel>): seq<byte> {
    if ps == [] then [] else PartsText(ps[..|ps| - 1]) + ExpandedAll(ps[|ps| - 1].rs)
  }

  ghost function PartsCrc(t: Checksum, size: level, ps: seq<Parcel>): word
    requires Sound(t, size, ps)
  {
    if ps == [] then 0 else Combine(PartsCrc(t, size, ps[..|ps| - 1]), ps[|ps| - 1].b.crc)
  }

  ghost function Checksums(t: Checksum, size: level, ps: seq<Parcel>): (s: seq<word>)
    requires Sound(t, size, ps)
  {
    if ps == [] then [] else Checksums(t, size, ps[..|ps| - 1]) + [ps[|ps| - 1].b.crc]
  }

  /** The checksum of a stream is what its blocks' checksums combine to, first block first. */
  lemma {:induction false} PartsCrcIs(t: Checksum, size: level, ps: seq<Parcel>)
    requires Sound(t, size, ps)
    ensures PartsCrc(t, size, ps) == CombineAll(0, Checksums(t, size, ps))
    decreases |ps|
  {
    if ps != [] {
      var init, c := ps[..|ps| - 1], ps[|ps| - 1].b.crc;
      PartsCrcIs(t, size, init);
      CombineSplit(0, Checksums(t, size, init), [c]);
      CombineOne(CombineAll(0, Checksums(t, size, init)), c);
    }
  }

  /** The blocks of a stream decode, one after the other, to their texts. */
  lemma {:induction false} PartsDecode(t: Tables, size: level, ps: seq<Parcel>, rest: bits)
    requires Sound(t.crc, size, ps)
    ensures Decode(t, BlockHeader(size, 0), 0, PartsBits(t.crc, size, ps) + rest)
         == Then(PartsText(ps), Decode(t, BlockHeader(size, 0), PartsCrc(t.crc, size, ps), rest))
    decreases |ps|
  {
    if ps == [] {
      assert [] + rest == rest;
      ThenNone(Decode(t, BlockHeader(size, 0), 0, rest));
    } else {
      var init, last := ps[..|ps| - 1], ps[|ps| - 1];
      var c := PartsCrc(t.crc, size, init);
      PartsDecode(t, size, init, BlockBits(last.b) + rest);
      BlockDecodes(t, size, last.b, last.rs, last.p, c, rest);
      Regrouped(PartsBits(t.crc, size, init), BlockBits(last.b), rest);
      ThenThen(PartsText(init), ExpandedAll(last.rs), Decode(t, BlockHeader(size, 0), Combine(c, last.b.crc), rest));
    }
  }

  /** The bits of a complete stream. */
  ghost function StreamBits(t: Checksum, size: level, ps: seq<Parcel>, pad: nat): bits
    requires Sound(t, size, ps)
  {
    HeaderBits(size) + (PartsBits(t, size, ps) + (TrailerBits(PartsCrc(t, size, ps)) + Zeros(pad)))
  }

  lemma BodyDecodes(t: Tables, size: level, ps: seq<Parcel>, pad: nat)
    requires Sound(t.crc, size, ps)
    ensures Decode(t, BlockHeader(size, 0), 0, PartsBits(t.crc, size, ps) + (TrailerBits(PartsCrc(t.crc, size, ps)) + Zeros(pad)))
         == Result(PartsText(ps), StreamEnd)
  {
    var c := PartsCrc(t.crc, size, ps);
    TrailerDecodes(t, size, c, Zeros(pad));
    BodyThen(t, size, ps, TrailerBits(c) + Zeros(pad));
  }

  lemma BodyThen(t: Tables, size: level, ps: seq<Parcel>, tail: bits)
    requires Sound(t.crc, size, ps) && Decode(t, BlockHeader(size, 0), PartsCrc(t.crc, size, ps), tail) == Result([], StreamEnd)
    ensures Decode(t, BlockHeader(size, 0), 0, PartsBits(t.crc, size, ps) + tail) == Result(PartsText(ps), StreamEnd)
  {
    PartsDecode(t, size, ps, tail);
    assert PartsText(ps) + [] == PartsText(ps);
  }

  /** A complete stream is accepted, with every checksum right, and decodes to the text of its blocks. */
  lemma StreamDecodes(t: Tables, size: level, ps: seq<Parcel>, pad: nat)
    requires Sound(t.crc, size, ps)
    ensures Decode(t, Magic(0), 0, StreamBits(t.crc, size, ps, pad)) == Result(PartsText(ps), StreamEnd)
  {
    BodyDecodes(t, size, ps, pad);
    HeaderDecodes(t, size, PartsBits(t.crc, size, ps) + (TrailerBits(PartsCrc(t.crc, size, ps)) + Zeros(pad)));
  }

  /** Before the trailer the blocks decode to their texts, and the decoder waits for more. */
  lemma OpenDecodes(t: Tables, size: level, ps: seq<Parcel>)
    requires Sound(t.crc, size, ps)
    ensures Decode(t, Magic(0), 0, BitsAt(t.crc, size, ps, Open)) == Result(PartsText(ps), NeedMore)
  {
    var c := PartsCrc(t.crc, size, ps);
    HeaderDecodes(t, size, PartsBits(t.crc, size, ps));
    PartsDecode(t, size, ps, []);
    assert PartsBits(t.crc, size, ps) + [] == PartsBits(t.crc, size, ps);
    ExecStays(BlockHeader(size, 0), []);
    assert Decode(t, BlockHeader(size, 0), c, []) == Result([], NeedMore);
    assert PartsText(ps) + [] == PartsText(ps);
  }

  // What the bytes of a stream are, in figures

  /** The magic number of a block and of the end. */
  ghost predicate BlockMagic(m: seq<int>) {
    m == [0x31, 0x41, 0x59, 0x26, 0x53, 0x59]
  }

  ghost predicate EndMagic(m: seq<int>) {
    m == [0x17, 0x72, 0x45, 0x38, 0x50, 0x90]
  }

  lemma HeadStarts(b: Block, m: seq<int>)
    requires WellFormed(b) && BlockMagic(m)
    ensures Octets(m + WordBytes(b.crc)) <= BlockBits(b)
  {
  }

  lemma SoundPrefix(t: Checksum, size: level, ps: seq<Parcel>, j: nat)
    requires Sound(t, size, ps) && j <= |ps|
    ensures Sound(t, size, ps[..j])
  {
  }

  lemma {:induction false} PartsPrefix(t: Checksum, size: level, ps: seq<Parcel>, j: nat)
    requires Sound(t, size, ps) && j <= |ps| && Sound(t, size, ps[..j])
    ensures PartsBits(t, size, ps[..j]) <= PartsBits(t, size, ps)
    decreases |ps|
  {
    if j < |ps| {
      var init := ps[..|ps| - 1];
      assert init[..j] == ps[..j];
      SoundPrefix(t, size, ps, |ps| - 1);
      PartsPrefix(t, size, init, j);
      Extends([], PartsBits(t, size, ps[..j]), PartsBits(t, size, init), BlockBits(ps[|ps| - 1].b));
    } else {
      assert ps[..j] == ps;
    }
  }

  lemma PartLast(t: Checksum, size: level, qs: seq<Parcel>, head: bits)
    requires Sound(t, size, qs) && qs != [] && Sound(t, size, qs[..|qs| - 1]) && head <= BlockBits(qs[|qs| - 1].b)
    ensures PartsBits(t, size, qs[..|qs| - 1]) + head <= PartsBits(t, size, qs)
  {
    Extends(PartsBits(t, size, qs[..|qs| - 1]), head, BlockBits(qs[|qs| - 1].b), []);
  }

  lemma PartStarts(t: Checksum, size: level, ps: seq<Parcel>, i: nat, head: bits)
    requires Sound(t, size, ps) && i < |ps| && head <= BlockBits(ps[i].b)
    ensures Sound(t, size, ps[..i]) && PartsBits(t, size, ps[..i]) + head <= PartsBits(t, size, ps)
  {
    SoundPrefix(t, size, ps, i);
    SoundPrefix(t, size, ps, i + 1);
    var qs := ps[..i + 1];
    assert qs[..i] == ps[..i] && qs[i] == ps[i];
    PartLast(t, size, qs, head);
    PartsPrefix(t, size, ps, i + 1);
  }

  /** Where block i begins come the six bytes of its magic number and its checksum, most significant byte first. */
  lemma BlockStarts(t: Checksum, size: level, ps: seq<Parcel>, i: nat, m: seq<int>, head: bits)
    requires Sound(t, size, ps) && i < |ps| && BlockMagic(m) && head == Octets(m + WordBytes(ps[i].b.crc))
    ensures Sound(t, size, ps[..i]) && PartsBits(t, size, ps[..i]) + head <= PartsBits(t, size, ps)
  {
    HeadStarts(ps[i].b, m);
    PartStarts(t, size, ps, i, head);
  }

  lemma Extends(a: bits, b: bits, c: bits, d: bits)
    requires b <= c
    ensures a + b <= a + c && b <= c + d
  {
  }

  /** The whole stream: four bytes, the blocks, six bytes and the combined checksum. */
  lemma StreamFrame(t: Checksum, size: level, ps: seq<Parcel>, pad: nat, four: seq<int>, m: seq<int>)
    requires Sound(t, size, ps) && four == [0x42, 0x5a, 0x68, 0x30 + size] && EndMagic(m)
    ensures StreamBits(t, size, ps, pad)
         == Octets(four) + (PartsBits(t, size, ps) + (Octets(m + WordBytes(PartsCrc(t, size, ps))) + Zeros(pad)))
  {
  }

  lemma NoParts(t: Checksum, size: level, ps: seq<Parcel>)
    requires Sound(t, size, ps) && PartsText(ps) == []
    ensures ps == []
  {
    if ps != [] {
      var q := ps[|ps| - 1];
      assert Encodes(t, size, q.b, q.rs, q.p);
      SomeText(q.rs);
    }
  }

  lemma SomeText(rs: seq<Run>)
    requires Runs(rs) && StoredAll(rs) != []
    ensures ExpandedAll(rs) != []
  {
  }

  /** Nothing written; header and blocks written; trailer and padding written too. */
  datatype Stage = Fresh | Open | Closed(pad: nat)

  /** The bits written at each stage. */
  ghost function BitsAt(t: Checksum, size: level, ps: seq<Parcel>, stage: Stage): bits
    requires Sound(t, size, ps)
  {
    match stage
    case Fresh => []
    case Open => HeaderBits(size) + PartsBits(t, size, ps)
    case Closed(pad) => StreamBits(t, size, ps, pad)
  }

  lemma OneMore(t: Checksum, size: level, ps: seq<Parcel>, q: Parcel)
    requires Sound(t, size, ps) && Encodes(t, size, q.b, q.rs, q.p)
    ensures Sound(t, size, ps + [q]) && PartsText(ps + [q]) == PartsText(ps) + ExpandedAll(q.rs)
    ensures PartsCrc(t, size, ps + [q]) == Combine(PartsCrc(t, size, ps), q.b.crc)
    ensures PartsBits(t, size, ps + [q]) == PartsBits(t, size, ps) + BlockBits(q.b)
  {
    assert (ps + [q])[..|ps|] == ps;
  }

  lemma OneMoreBits(t: Checksum, size: level, ps: seq<Parcel>, q: Parcel)
    requires Sound(t, size, ps) && Encodes(t, size, q.b, q.rs, q.p) && Sound(t, size, ps + [q])
    ensures BitsAt(t, size, ps + [q], Open) == BitsAt(t, size, ps, Open) + BlockBits(q.b)
  {
    OneMore(t, size, ps, q);
    Regrouped(HeaderBits(size), PartsBits(t, size, ps), BlockBits(q.b));
  }

  lemma Closing(t: Checksum, size: level, ps: seq<Parcel>, pad: nat)
    requires Sound(t, size, ps)
    ensures BitsAt(t, size, ps, Open) + TrailerBits(PartsCrc(t, size, ps)) + Zeros(pad) == BitsAt(t, size, ps, Closed(pad))
  {
    FourParts(HeaderBits(size), PartsBits(t, size, ps), TrailerBits(PartsCrc(t, size, ps)), Zeros(pad));
  }

  lemma TrailerLength(crc: nat)
    ensures |TrailerBits(crc)| == 80
  {
    OctetsLength(END_MAGIC + WordBytes(crc));
  }

  lemma FourParts(a: bits, b: bits, c: bits, d: bits)
    ensures a + b + c + d == a + (b + (c + d))
  {
  }

  /**
   * The checksum, the text and the bits are those of the blocks written. The quantifier has one instance, which a
   * proof opens by mentioning Sound(t, size, ps); elsewhere the predicate stays a name.
   */
  ghost predicate Books(t: Checksum, size: level, ps: seq<Parcel>, crc: word, all: bits, stage: Stage, text: seq<byte>) {
    forall q {:trigger Sound(t, size, q)} :: q == ps ==>
      Sound(t, size, q) && crc == PartsCrc(t, size, q) && all == BitsAt(t, size, q, stage) && text == PartsText(q)
  }

  lemma NoBooks(t: Checksum, size: level)
    ensures Books(t, size, [], 0, [], Fresh, []) && Books(t, size, [], 0, HeaderBits(size), Open, [])
  {
    assert Sound(t, size, []);
    assert HeaderBits(size) + [] == HeaderBits(size);
  }

  lemma NothingYet(t: Checksum, size: level, crc: word, all: bits, text: seq<byte>)
    requires Books(t, size, [], crc, all, Fresh, text)
    ensures crc == 0 && all == [] && text == []
  {
    assert Sound(t, size, []);
  }

  lemma WithOneMore(t: Checksum, size: level, ps: seq<Parcel>, q: Parcel) returns (r: seq<Parcel>)
    requires Sound(t, size, ps) && Encodes(t, size, q.b, q.rs, q.p)
    ensures Sound(t, size, r) && PartsText(r) == PartsText(ps) + ExpandedAll(q.rs)
    ensures PartsCrc(t, size, r) == Combine(PartsCrc(t, size, ps), q.b.crc)
    ensures BitsAt(t, size, r, Open) == BitsAt(t, size, ps, Open) + BlockBits(q.b)
  {
    r := ps + [q];
    OneMore(t, size, ps, q);
    OneMoreBits(t, size, ps, q);
  }

  /** A new block keeps all that is known of the blocks written. */
  lemma Added(t: Checksum, size: level, ps: seq<Parcel>, crc: word, all: bits, text: seq<byte>, q: Parcel) returns (r: seq<Parcel>)
    requires Books(t, size, ps, crc, all, Open, text) && Encodes(t, size, q.b, q.rs, q.p)
    ensures Books(t, size, r, Combine(crc, q.b.crc), all + BlockBits(q.b), Open, text + ExpandedAll(q.rs))
  {
    assert Sound(t, size, ps);
    r := WithOneMore(t, size, ps, q);
  }

  lemma Ended(t: Checksum, size: level, ps: seq<Parcel>, crc: word, all: bits, text: seq<byte>, pad: nat)
    requires Books(t, size, ps, crc, all, Open, text)
    ensures Books(t, size, ps, crc, all + TrailerBits(crc) + Zeros(pad), Closed(pad), text)
  {
    assert Sound(t, size, ps);
    Closing(t, size, ps, pad);
  }

  /** Encodes and writes a block; r are the blocks written so far and this one. */
  method WriteBlock(w: BitWriter, stored: seq<byte>, inUse: usage, crc: word, workFactor: int, ghost t: Checksum, ghost size: level,
                    ghost rs: seq<Run>, ghost ps: seq<Parcel>, ghost combined: word, ghost all: bits, ghost text: seq<byte>)
    returns (ghost part: bits, ghost r: seq<Parcel>)
    requires w.Valid() && Runs(rs) && stored == StoredAll(rs) && 0 < |stored| <= 100000 * size && 1 <= workFactor <= 250
    requires (forall x :: x in stored ==> inUse[x]) && crc == OfBlock(t, ExpandedAll(rs))
    requires Books(t, size, ps, combined, all, Open, text)
    modifies w
    ensures w.Valid() && w.written == old(w.written) + part && |part| <= MostBits(|stored|)
    ensures Books(t, size, r, Combine(combined, crc), all + part, Open, text + ExpandedAll(rs))
  {
    var b; ghost var p;
    b, p := Encode(stored, inUse, crc, workFactor, t, size, rs);
    MostIsEnough(b, |stored|);
    r := Added(t, size, ps, combined, all, text, Parcel(b, rs, p));
    part := BlockBits(b);
    SendBlock(w, b);
  }

  class Archive {
    const size: level
    const t: Checksum
    const workFactor: int
    const w: BitWriter
    var blockNo: nat
    var combined: word
    /** The blocks written so far and what they decode to, the bytes of earlier blocks, and all bits written. */
    ghost var parcels: seq<Parcel>
    ghost var text: seq<byte>
    ghost var before: seq<byte>
    ghost var stage: Stage
    ghost var all: bits

    /** The bytes and the buffered bits are the bits written. */
    ghost predicate Framed()
      reads this, w
    {
      match stage
      case Closed(pad) => pad < 8 && BytesToBits(before + w.zbits) == all
      case _ => w.Valid() && BytesToBits(before) + w.written == all
    }

    ghost predicate Valid()
      reads this, w
    {
      match stage
      case Fresh => Framed() && Booked() && parcels == []
      case _ => Framed() && Booked()
    }

    ghost predicate Booked()
      reads this
    {
      blockNo >= 1 && 1 <= workFactor <= 250 && Books(t, size, parcels, combined, all, stage, text)
    }

    constructor (size: level, t: Checksum, workFactor: int)
      requires 1 <= workFactor <= 250
      ensures Valid() && stage == Fresh && blockNo == 1 && parcels == [] && text == [] && before == [] && fresh(w) && w.zbits == []
      ensures this.size == size && this.t == t
    {
      this.size, this.t, this.workFactor := size, t, workFactor;
      w := new BitWriter();
      blockNo, combined := 1, 0;
      parcels, text, before, stage, all := [], [], [], Fresh, [];
      new;
      NoBooks(t, size);
    }

    /** Bits went to the writer. */
    ghost method Account(was: bits, part: bits)
      requires !stage.Closed? && w.Valid() && BytesToBits(before) + was == all && w.written == was + part
      modifies this`all
      ensures Framed() && all == old(all) + part
    {
      Regrouped(BytesToBits(before), was, part);
      all := all + part;
    }

    method TakeAll()
      requires Framed() && !stage.Closed?
      modifies this`before, w
      ensures Framed() && w.zbits == [] && before == old(before + w.zbits)
    {
      ghost var z := w.zbits;
      w.Restart();
      Taken(before, z, w.written);
      before := before + z;
    }

    method PutTrailer(crc: nat)
      requires Framed() && stage == Open
      modifies this`all, w
      ensures Framed() && all == old(all) + TrailerBits(crc) && |w.written| == old(|w.written|) + 80
    {
      ghost var was := w.written;
      SendTrailer(w, crc);
      TrailerLength(crc);
      Account(was, TrailerBits(crc));
    }

    method Close() returns (ghost z: nat)
      requires Framed() && stage == Open
      modifies this`all, this`stage, w
      ensures Framed() && stage == Closed(z) && z < 8 && all == old(all) + Zeros(z) && old(|w.written|) <= 8 * |w.zbits| <= old(|w.written|) + 7
    {
      ghost var mid := w.written;
      z := w.Finish();
      BytesToBitsConcat(before, w.zbits);
      Regrouped(BytesToBits(before), mid, Zeros(z));
      all := all + Zeros(z);
      stage := Closed(z);
    }

    /** prepare_new_block: the bytes of the last block have all been taken. */
    method NextBlock()
      requires Valid() && stage == Open
      modifies this`blockNo, this`before, w
      ensures Valid() && blockNo == old(blockNo) + 1 && w.zbits == [] && before == old(before + w.zbits)
    {
      TakeAll();
      blockNo := blockNo + 1;
    }

    method PushHeader()
      requires Framed() && stage == Fresh && all == []
      modifies this`stage, this`all, w
      ensures Framed() && stage == Open && all == HeaderBits(size) && |w.written| == old(|w.written|) + 32
    {
      ghost var was := w.written;
      PutOctets(w, [0x42, 0x5a, 0x68, 0x30 + size]);
      OctetsLength([0x42, 0x5a, 0x68, 0x30 + size]);
      Account(was, HeaderBits(size));
      assert [] + HeaderBits(size) == HeaderBits(size);
      stage := Open;
    }

    method SendHeader()
      requires Valid() && stage == Fresh
      modifies this`stage, this`all, w
      ensures Valid() && stage == Open && |w.written| == old(|w.written|) + 32
    {
      NothingYet(t, size, combined, all, text);
      NoBooks(t, size);
      PushHeader();
    }

    method AddBlock(stored: seq<byte>, inUse: usage, crc: word, ghost rs: seq<Run>)
      requires Valid() && stage == Open && Runs(rs) && stored == StoredAll(rs) && 0 < |stored| <= 100000 * size - 10
      requires (forall x :: x in stored ==> inUse[x]) && crc == OfBlock(t, ExpandedAll(rs))
      modifies this`combined, this`parcels, this`text, this`all, w
      ensures Valid() && text == old(text) + ExpandedAll(rs)
      ensures |w.written| <= old(|w.written|) + MostBits(|stored|)
    {
      ghost var was := w.written;
      ghost var part, r := WriteBlock(w, stored, inUse, crc, workFactor, t, size, rs, parcels, combined, all, text);
      Account(was, part);
      combined := Combine(combined, crc);
      parcels, text := r, text + ExpandedAll(rs);
    }

    method CloseStream(crc: nat) returns (ghost z: nat)
      requires Framed() && stage == Open
      modifies this`stage, this`all, w
      ensures Framed() && stage == Closed(z) && all == old(all) + TrailerBits(crc) + Zeros(z)
      ensures 80 <= 8 * |w.zbits| <= old(|w.written|) + 80 + 7
    {
      PutTrailer(crc);
      z := Close();
    }

    method End()
      requires Valid() && stage == Open
      modifies this`stage, this`all, w
      ensures Valid() && stage.Closed? && 80 <= 8 * |w.zbits| <= old(|w.written|) + 80 + 7
    {
      ghost var was := all;
      ghost var z := CloseStream(combined);
      Ended(t, size, parcels, combined, was, text, z);
    }

    method AddAny(stored: seq<byte>, inUse: usage, crc: word, ghost rs: seq<Run>)
      requires Valid() && stage == Open && Runs(rs) && stored == StoredAll(rs) && |stored| <= 100000 * size - 10
      requires (forall x :: x in stored ==> inUse[x]) && crc == Over(t, INIT, ExpandedAll(rs))
      modifies this`combined, this`parcels, this`text, this`all, w
      ensures Valid() && text == old(text) + ExpandedAll(rs)
      ensures |w.written| <= old(|w.written|) + MostBits(|stored|)
    {
      if |stored| > 0 {
        AddBlock(stored, inUse, Final(crc), rs);
      } else {
        NothingStored(rs);
        assert text + [] == text;
      }
    }

    /**
     * BZ2_compressBlock. Afterwards the stream holds the runs of this block too, and the block and its
     * compressed bytes fit arr2 together.
     */
    method CompressBlock(stored: seq<byte>, inUse: usage, crc: word, last: bool, ghost rs: seq<Run>)
      requires Valid() && !stage.Closed? && w.zbits == [] && (stage.Fresh? <==> blockNo == 1)
      requires Runs(rs) && stored == StoredAll(rs) && |stored| <= 100000 * size - 10
      requires (forall x :: x in stored ==> inUse[x]) && crc == Over(t, INIT, ExpandedAll(rs))
      modifies this`combined, this`parcels, this`text, this`all, this`stage, w
      ensures Valid() && (if last then stage.Closed? && w.zbits != [] else stage == Open)
      ensures text == old(text) + ExpandedAll(rs)
      ensures |stored| + |w.zbits| <= 4 * (100000 * size + 34)
    {
      if blockNo == 1 {
        SendHeader();
      }
      AddAny(stored, inUse, crc, rs);
      if last {
        End();
      }
      EnoughSpace(size, |stored|, |w.zbits|);
    }
  }

  lemma NothingStored(rs: seq<Run>)
    requires (forall i :: 0 <= i < |rs| ==> 1 <= rs[i].len <= 255) && StoredAll(rs) == []
    ensures ExpandedAll(rs) == []
  {
  }

  lemma Taken(before: seq<byte>, z: seq<byte>, tail: bits)
    ensures BytesToBits(before) + (BytesToBits(z) + tail) == BytesToBits(before + z) + tail
  {
    BytesToBitsConcat(before, z);
    Regrouped(BytesToBits(before), BytesToBits(z), tail);
  }
}
