/** What a decompressor makes of a whole stream of bits, however it is fed. */
module Decoding {
  import opened Alphabet
  import opened Bits
  import opened BlockParsed
  import opened BurrowsWheeler
  import opened Crc
  import opened Format
  import opened FormatParsed
  import opened Mtf
  import opened Parser
  import opened Randomise
  import opened Rotations
  import opened RunLength

  datatype Status = StreamEnd | Bad(error: Error) | NeedMore

  datatype Result = Result(out: seq<byte>, status: Status)

  function Then(out: seq<byte>, r: Result): Result {
    Result(out + r.out, r.status)
  }

  /** The tables that both sides share. */
  datatype Tables = Tables(crc: Checksum, gaps: gaps)

  /** The bytes that a block's walk meets; two more than the block, for the decoder to look ahead. */
  ghost function Text(t: Tables, h: Head, col: seq<byte>): (w: seq<byte>)
    requires h.origPtr < |col|
    ensures |w| == |col| + 2
  {
    Unmask(t.gaps, h.randomised, Walk(col, TInverse(col)[h.origPtr], |col| + 2))
  }

  /** A block's last output u, whether its checksum is right, and what follows it. */
  function Close(u: Undone, good: bool, next: Result): Result {
    if u.ok && good then Then(u.out, next) else Result(u.out, Bad(DataError))
  }

  /** From an open block with u still to come and crc over what came before. */
  ghost function AfterBlock(t: Tables, h: Head, u: Undone, crc: word, combined: word, b: bits): Result
    decreases |b|, 1
  {
    var c := Final(Over(t.crc, crc, u.out));
    Close(u, c == h.crc, Decode(t, BlockHeader(h.size, 0), Combine(combined, c), b))
  }

  ghost function Decode(t: Tables, s: State, combined: word, b: bits): Result
    requires Inv(s)
    decreases |b|, if s.Output? then 2 else 0
  {
    ExecShrinks(s, b);
    var (r, rest) := Exec(s, b);
    match r
    case Output(h, col) => AfterBlock(t, h, UnRle(Text(t, h, col), |col|, 0), INIT, combined, rest)
    case Idle(crc) => Result([], if combined == crc then StreamEnd else Bad(DataError))
    case Failed(e) => Result([], Bad(e))
    case _ => Result([], NeedMore)
  }

  lemma ThenThen(a: seq<byte>, b: seq<byte>, r: Result)
    ensures Then(a, Then(b, r)) == Then(a + b, r)
  {
    assert a + (b + r.out) == a + b + r.out;
  }

  lemma ThenNone(r: Result)
    ensures Then([], r) == r
  {
    assert [] + r.out == r.out;
  }

  lemma CloseSome(out: seq<byte>, u: Undone, good: bool, next: Result)
    ensures Close(Prepend(out, u), good, next) == Then(out, Close(u, good, next))
  {
    ThenThen(out, u.out, next);
  }

  /** Output that has been taken leaves the rest of the block's meaning unchanged. */
  lemma AfterSome(t: Tables, h: Head, out: seq<byte>, u: Undone, crc: word, combined: word, b: bits)
    ensures AfterBlock(t, h, Prepend(out, u), crc, combined, b) == Then(out, AfterBlock(t, h, u, Over(t.crc, crc, out), combined, b))
  {
    OverConcat(t.crc, crc, out, u.out);
    var c := Final(Over(t.crc, crc, out + u.out));
    CloseSome(out, u, c == h.crc, Decode(t, BlockHeader(h.size, 0), Combine(combined, c), b));
  }

  /** Running the parser. */
  ghost function Run(): Runner {
    (s: State, b: bits) => if Inv(s) then Exec(s, b) else (s, b)
  }

  lemma RunLawful()
    ensures Lawful(Run())
  {
    var e := Run();
    forall s: State, n: nat, v: nat, rest: bits | Inv(s) && !Stopped(s) && n == Need(s) && v < Pow2(n)
      ensures e(s, Field(n, v) + rest) == e(Step(s, v), rest)
    {
      ExecField(s, n, v, rest);
    }
  }

  lemma {:induction false} WalkPrefix(col: seq<byte>, t: int, m: nat, k: nat)
    requires 0 <= t < |col| && k <= m
    ensures Walk(col, t, m)[..k] == Walk(col, t, k)
    decreases k
  {
    if k > 0 {
      WalkPrefix(col, TInverse(col)[t], m - 1, k - 1);
      assert Walk(col, t, m)[..k] == [col[t]] + Walk(col, TInverse(col)[t], m - 1)[..k - 1];
    }
  }

  /** A block of the compressor's: its runs, their sorted rotations and what is sent for them. */
  ghost predicate Encodes(t: Checksum, size: level, b: Block, rs: seq<Run>, p: seq<int>) {
    && Runs(rs) && 0 < |StoredAll(rs)| <= 100000 * size && WellFormed(b)
    && var s := StoredAll(rs);
       && RotationSorted(s, p) && b.origPtr < |s| && p[b.origPtr] == 0
       && b.crc == OfBlock(t, ExpandedAll(rs))
       && (forall x :: x in LastColumn(s, p) ==> x in Used(b.inUse, 256))
       && b.syms == Symbols(Used(b.inUse, 256), LastColumn(s, p), 0)
  }

  /** The decoder's text of the last column begins with the block itself. */
  lemma TextIsBlock(t: Tables, h: Head, s: seq<byte>, p: seq<int>)
    requires RotationSorted(s, p) && h.origPtr < |s| && p[h.origPtr] == 0 && !h.randomised
    ensures Text(t, h, LastColumn(s, p))[..|s|] == s
  {
    var col := LastColumn(s, p);
    UnsortLastColumn(s, p, h.origPtr);
    WalkPrefix(col, TInverse(col)[h.origPtr], |s| + 2, |s|);
  }

  lemma BlockExpands(t: Tables, size: level, b: Block, rs: seq<Run>, p: seq<int>)
    requires Encodes(t.crc, size, b, rs, p)
    ensures var s := StoredAll(rs);
            var h := Head(size, b.crc, false, b.origPtr);
            UnRle(Text(t, h, LastColumn(s, p)), |s|, 0) == Undone(ExpandedAll(rs), true)
  {
    var h := Head(size, b.crc, false, b.origPtr);
    TextIsBlock(t, h, StoredAll(rs), p);
    RoundTripRuns(Text(t, h, LastColumn(StoredAll(rs), p)), rs);
  }

  lemma BlockReached(size: level, b: Block, col: seq<byte>, rest: bits)
    requires WellFormed(b) && b.origPtr < |col| <= 100000 * size
    requires (forall x :: x in col ==> x in Used(b.inUse, 256)) && b.syms == Symbols(Used(b.inUse, 256), col, 0)
    ensures Exec(BlockHeader(size, 0), BlockBits(b) + rest) == (Output(Head(size, b.crc, false, b.origPtr), col), rest)
  {
    var e := Run();
    RunLawful();
    BlockRead(e, size, b, col);
    assert e(BlockHeader(size, 0), BlockBits(b) + rest) == e(Output(Head(size, b.crc, false, b.origPtr), col), rest);
  }

  /** An encoded block decodes to the bytes of its runs, and its checksum is accepted. */
  lemma BlockDecodes(t: Tables, size: level, b: Block, rs: seq<Run>, p: seq<int>, combined: word, rest: bits)
    requires Encodes(t.crc, size, b, rs, p)
    ensures Decode(t, BlockHeader(size, 0), combined, BlockBits(b) + rest)
         == Then(ExpandedAll(rs), Decode(t, BlockHeader(size, 0), Combine(combined, b.crc), rest))
  {
    var s := StoredAll(rs);
    BlockReached(size, b, LastColumn(s, p), rest);
    BlockExpands(t, size, b, rs, p);
  }

  lemma TrailerDecodes(t: Tables, size: level, combined: word, rest: bits)
    ensures Decode(t, BlockHeader(size, 0), combined, TrailerBits(combined) + rest) == Result([], StreamEnd)
  {
    var e := Run();
    RunLawful();
    TrailerParsed(e, size, combined);
    assert e(BlockHeader(size, 0), TrailerBits(combined) + rest) == e(Idle(combined), rest);
  }

  lemma HeaderDecodes(t: Tables, size: level, rest: bits)
    ensures Decode(t, Magic(0), 0, HeaderBits(size) + rest) == Decode(t, BlockHeader(size, 0), 0, rest)
  {
    var e := Run();
    RunLawful();
    HeaderParsed(e, size);
    assert e(Magic(0), HeaderBits(size) + rest) == e(BlockHeader(size, 0), rest);
  }
}
