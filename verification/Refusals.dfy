/** Which streams the decompressor refuses at their signatures: exactly those whose bytes there are wrong. */
module Refusals {
  import opened Bits
  import opened Crc
  import opened Decoding
  import opened Format
  import opened FormatParsed
  import opened Mtf
  import opened Parser
  import opened Rotations
  import RunLength

  /** A runner stops where it has to, and for want of bits. */
  ghost predicate Halting(e: Runner) {
    forall s: State, b: bits {:trigger e(s, b)} :: Inv(s) && (Stopped(s) || |b| < Need(s)) ==> e(s, b) == (s, b)
  }

  lemma RunHalting()
    ensures Halting(Run())
  {
  }

  lemma TakesByte(e: Runner, s: State, v: nat, b: bits, rest: bits)
    requires Lawful(e) && Inv(s) && ByteWise(s) && v < 256 && b == Field(8, v) + rest
    ensures e(s, b) == e(StepHeader(s, v), rest)
  {
    ReadsByte(e, s, v);
  }

  // The stream's own signature

  /** No stream has the byte v at place j of its first four. */
  predicate Wrong(j: nat, v: byte) {
    match j
    case 0 => v != 0x42
    case 1 => v != 0x5a
    case 2 => v != 0x68
    case 3 => v < 0x31 || v > 0x39
    case _ => false
  }

  /** Some byte of s, which starts at place k, is wrong. */
  ghost predicate Unsigned(k: nat, s: seq<byte>) {
    exists i :: 0 <= i < |s| && Wrong(k + i, s[i])
  }

  lemma UnsignedNext(k: nat, s: seq<byte>)
    requires s != []
    ensures Unsigned(k, s) <==> Wrong(k, s[0]) || Unsigned(k + 1, s[1..])
  {
    if Wrong(k, s[0]) {
      assert Wrong(k + 0, s[0]);
    }
    if Unsigned(k + 1, s[1..]) {
      var i :| 0 <= i < |s[1..]| && Wrong(k + 1 + i, s[1..][i]);
      assert Wrong(k + (i + 1), s[i + 1]);
    }
    if Unsigned(k, s) && !Wrong(k, s[0]) {
      var i :| 0 <= i < |s| && Wrong(k + i, s[i]);
      assert Wrong(k + 1 + (i - 1), s[1..][i - 1]);
    }
  }

  lemma SignatureStep(k: nat, v: byte)
    requires k < 4
    ensures StepHeader(Magic(k), v) == if Wrong(k, v) then Failed(MagicError) else if k < 3 then Magic(k + 1) else BlockHeader(v as int - 0x30, 0)
    ensures !Wrong(3, v) ==> 0x31 <= v <= 0x39
  {
  }

  lemma {:induction false} SignatureWrong(e: Runner, k: nat, s: seq<byte>)
    requires k < 4 && Lawful(e) && Halting(e) && Unsigned(k, s)
    ensures e(Magic(k), Octets(s)).0 == Failed(MagicError)
    decreases |s|
  {
    UnsignedNext(k, s);
    SignatureStep(k, s[0]);
    TakesByte(e, Magic(k), s[0], Octets(s), Octets(s[1..]));
    if !Wrong(k, s[0]) {
      NoMore(s[1..]);
      SignatureWrong(e, k + 1, s[1..]);
    }
  }

  lemma {:induction false} SignatureShort(e: Runner, k: nat, s: seq<byte>)
    requires k + |s| < 4 && Lawful(e) && Halting(e) && !Unsigned(k, s)
    ensures e(Magic(k), Octets(s)).0 == Magic(k + |s|)
    decreases |s|
  {
    if s != [] {
      UnsignedNext(k, s);
      SignatureStep(k, s[0]);
      TakesByte(e, Magic(k), s[0], Octets(s), Octets(s[1..]));
      SignatureShort(e, k + 1, s[1..]);
    }
  }

  /** Four right bytes are a stream's header. */
  lemma Signed(s: seq<byte>) returns (size: level)
    requires |s| >= 4 && !Unsigned(0, s)
    ensures Octets(s) == HeaderBits(size) + Octets(s[4..])
  {
    assert !Wrong(0 + 0, s[0]) && !Wrong(0 + 1, s[1]) && !Wrong(0 + 2, s[2]) && !Wrong(0 + 3, s[3]);
    size := s[3] as int - 0x30;
    assert s == s[..4] + s[4..];
    assert s[..4] == [0x42, 0x5a, 0x68, 0x30 + size];
    OctetsConcat(s[..4], s[4..]);
  }

  lemma NoMore(s: seq<byte>)
    ensures !Unsigned(4, s)
  {
  }

  // Nothing else is reported as a wrong signature

  predicate PastSignature(s: State) {
    !s.Magic? && s != Failed(MagicError)
  }

  lemma StepPast(s: State, v: nat)
    requires Inv(s) && PastSignature(s)
    ensures PastSignature(Step(s, v))
  {
    if s.Symbol? {
      DecidePast(s.h, s.book, s.groupNo, s.groupPos, s.u, s.zn, if s.started then 2 * s.zvec + v else v);
    } else if InTables(s) {
      TablesPast(s, v);
    }
  }

  lemma DecidePast(h: Head, book: Book, no: nat, pos: nat, u: Decoder, zn: nat, zvec: nat)
    requires no < |book.selectors| && pos < GROUP_SIZE && u.list != [] && InvBook(book, |u.list| + 2)
    ensures PastSignature(Decide(h, book, no, pos, u, zn, zvec))
  {
  }

  lemma TablesPast(s: State, v: nat)
    requires Inv(s) && PastSignature(s)
    ensures PastSignature(StepTables(s, v))
  {
    match s
    case Mapping1(h, m) =>
      if |m| == 15 { MappedPast(h, m + [v == 1], []); }
    case Mapping2(h, m, u) => MappedPast(h, m, u + [v == 1]);
    case _ =>
  }

  lemma {:induction false} MappedPast(h: Head, inUse16: seq<bool>, inUse: seq<bool>)
    requires |inUse16| == 16 && |inUse| <= 256
    ensures PastSignature(Mapped(h, inUse16, inUse))
    decreases 256 - |inUse|
  {
    if |inUse| < 256 && |inUse| % 16 == 0 && !inUse16[|inUse| / 16] {
      MappedPast(h, inUse16, inUse + seq(16, _ => false));
    }
  }

  lemma {:induction false} ExecPast(s: State, b: bits)
    requires Inv(s) && PastSignature(s)
    ensures PastSignature(Exec(s, b).0)
    decreases |b|
  {
    if !Stopped(s) && |b| >= Need(s) {
      var n := Need(s);
      StepInv(s, Value(b[..n]));
      StepPast(s, Value(b[..n]));
      ExecPast(Step(s, Value(b[..n])), b[n..]);
    }
  }

  lemma {:induction false} DecodePast(t: Tables, s: State, combined: word, b: bits)
    requires Inv(s) && PastSignature(s)
    ensures Decode(t, s, combined, b).status != Bad(MagicError)
    decreases |b|, if s.Output? then 2 else 0
  {
    ExecPast(s, b);
    ExecShrinks(s, b);
    var (r, rest) := Exec(s, b);
    if r.Output? {
      AfterPast(t, r.h, RunLength.UnRle(Text(t, r.h, r.col), |r.col|, 0), INIT, combined, rest);
    }
  }

  lemma {:induction false} AfterPast(t: Tables, h: Head, u: RunLength.Undone, crc: word, combined: word, b: bits)
    ensures AfterBlock(t, h, u, crc, combined, b).status != Bad(MagicError)
    decreases |b|, 1
  {
    DecodePast(t, BlockHeader(h.size, 0), Combine(combined, Final(Over(t.crc, crc, u.out))), b);
  }

  lemma StoppedDecode(t: Tables, s: State, b: bits, combined: word)
    requires Inv(s)
    ensures Run()(s, b).0 == Failed(MagicError) ==> Decode(t, s, combined, b).status == Bad(MagicError)
    ensures Run()(s, b).0.Magic? ==> Decode(t, s, combined, b).status == NeedMore
  {
  }

  /** BZ_DATA_ERROR_MAGIC exactly when one of the first four bytes is wrong, whatever else there is. */
  lemma SignatureExact(t: Tables, s: seq<byte>)
    ensures Decode(t, Magic(0), 0, BytesToBits(s)).status == Bad(MagicError) <==> Unsigned(0, s)
  {
    OctetsAreBytes(s);
    RunLawful();
    RunHalting();
    if Unsigned(0, s) {
      SignatureWrong(Run(), 0, s);
      StoppedDecode(t, Magic(0), Octets(s), 0);
    } else if |s| < 4 {
      SignatureShort(Run(), 0, s);
      StoppedDecode(t, Magic(0), Octets(s), 0);
    } else {
      SignedDecode(t, s);
    }
  }

  lemma SignedDecode(t: Tables, s: seq<byte>)
    requires |s| >= 4 && !Unsigned(0, s)
    ensures Decode(t, Magic(0), 0, Octets(s)).status != Bad(MagicError)
  {
    var size := Signed(s);
    HeaderDecodes(t, size, Octets(s[4..]));
    DecodePast(t, BlockHeader(size, 0), 0, Octets(s[4..]));
  }

  // A block's signature and the end's

  lemma {:induction false} BlockSignature(e: Runner, size: level, k: nat, s: seq<byte>, m: seq<int>, rest: bits)
    requires k < 6 && |s| == 6 - k && m == BLOCK_MAGIC && (k == 0 ==> s[0] != 0x17) && Lawful(e) && Halting(e)
    ensures s == m[k..] ==> e(BlockHeader(size, k), Octets(s) + rest) == e(BlockCrc(size, 0, 0), rest)
    ensures s != m[k..] ==> e(BlockHeader(size, k), Octets(s) + rest).0 == Failed(DataError)
    decreases |s|
  {
    var tail := Octets(s[1..]) + rest;
    assert Octets(s) + rest == Field(8, s[0]) + tail;
    TakesByte(e, BlockHeader(size, k), s[0], Octets(s) + rest, tail);
    assert s == [s[0]] + s[1..] && m[k..] == [m[k]] + m[k + 1..];
    if s[0] == m[k] {
      if k < 5 {
        BlockSignature(e, size, k + 1, s[1..], m, rest);
      } else {
        assert s[1..] == [] && tail == rest;
      }
    }
  }

  lemma {:induction false} EndSignature(e: Runner, size: level, k: nat, s: seq<byte>, m: seq<int>, rest: bits)
    requires 1 <= k < 6 && |s| == 6 - k && m == END_MAGIC && Lawful(e) && Halting(e)
    ensures s == m[k..] ==> e(EndHeader(size, k), Octets(s) + rest) == e(StreamCrc(size, 0, 0), rest)
    ensures s != m[k..] ==> e(EndHeader(size, k), Octets(s) + rest).0 == Failed(DataError)
    decreases |s|
  {
    var tail := Octets(s[1..]) + rest;
    assert Octets(s) + rest == Field(8, s[0]) + tail;
    TakesByte(e, EndHeader(size, k), s[0], Octets(s) + rest, tail);
    assert s == [s[0]] + s[1..] && m[k..] == [m[k]] + m[k + 1..];
    if s[0] == m[k] {
      if k < 5 {
        EndSignature(e, size, k + 1, s[1..], m, rest);
      } else {
        assert s[1..] == [] && tail == rest;
      }
    }
  }

  predicate IsBlock(s: seq<byte>) {
    |s| == 6 && s[0] == 0x31 && s[1] == 0x41 && s[2] == 0x59 && s[3] == 0x26 && s[4] == 0x53 && s[5] == 0x59
  }

  predicate IsEnd(s: seq<byte>) {
    |s| == 6 && s[0] == 0x17 && s[1] == 0x72 && s[2] == 0x45 && s[3] == 0x38 && s[4] == 0x50 && s[5] == 0x90
  }

  lemma AsMagic(s: seq<byte>)
    requires |s| == 6
    ensures IsBlock(s) <==> s == BLOCK_MAGIC[0..]
    ensures IsEnd(s) <==> s[0] == 0x17 && s[1..] == END_MAGIC[1..]
  {
    if s[1..] == END_MAGIC[1..] {
      assert s[1..][0] == s[1] && s[1..][1] == s[2] && s[1..][2] == s[3] && s[1..][3] == s[4] && s[1..][4] == s[5];
    }
  }

  /** After the header and after every block: the six bytes of a block, the six bytes of the end, or an error. */
  lemma SignatureChoice(size: level, s: seq<byte>, rest: bits)
    requires |s| == 6
    ensures IsBlock(s) ==> Exec(BlockHeader(size, 0), Octets(s) + rest) == Exec(BlockCrc(size, 0, 0), rest)
    ensures IsEnd(s) ==> Exec(BlockHeader(size, 0), Octets(s) + rest) == Exec(StreamCrc(size, 0, 0), rest)
    ensures !IsBlock(s) && !IsEnd(s) ==> Exec(BlockHeader(size, 0), Octets(s) + rest).0 == Failed(DataError)
  {
    RunLawful();
    RunHalting();
    AsMagic(s);
    SignatureOf(Run(), size, s, BLOCK_MAGIC, END_MAGIC, rest);
  }

  lemma SignatureOf(e: Runner, size: level, s: seq<byte>, m: seq<int>, z: seq<int>, rest: bits)
    requires |s| == 6 && Lawful(e) && Halting(e) && m == BLOCK_MAGIC && z == END_MAGIC
    ensures s[0] != 0x17 && s == m[0..] ==> e(BlockHeader(size, 0), Octets(s) + rest) == e(BlockCrc(size, 0, 0), rest)
    ensures s[0] != 0x17 && s != m[0..] ==> e(BlockHeader(size, 0), Octets(s) + rest).0 == Failed(DataError)
    ensures s[0] == 0x17 && s[1..] == z[1..] ==> e(BlockHeader(size, 0), Octets(s) + rest) == e(StreamCrc(size, 0, 0), rest)
    ensures s[0] == 0x17 && s[1..] != z[1..] ==> e(BlockHeader(size, 0), Octets(s) + rest).0 == Failed(DataError)
  {
    if s[0] == 0x17 {
      var tail := Octets(s[1..]) + rest;
      assert Octets(s) + rest == Field(8, s[0]) + tail;
      TakesByte(e, BlockHeader(size, 0), s[0], Octets(s) + rest, tail);
      EndSignature(e, size, 1, s[1..], z, rest);
    } else {
      BlockSignature(e, size, 0, s, m, rest);
    }
  }
}
