/**
 * The bit stream: the compressor's buffer `bsBuff`/`bsLive` with the bytes it has
 * released, and the decompressor's buffer with the input it has not yet read.
 */
module BitIO {
  import opened Bits
  import opened Rotations

  const WORD: nat := 0x1_0000_0000
  const TOP: nat := 0x100_0000

  function Zeros(n: nat): (b: bits)
    ensures |b| == n
  {
    seq(n, _ => false)
  }

  lemma {:induction false} ValueZeros(n: nat)
    ensures Value(Zeros(n)) == 0
  {
    if n > 0 {
      ValueZeros(n - 1);
      assert Zeros(n)[..n - 1] == Zeros(n - 1);
    }
  }

  lemma ZerosConcat(m: nat, n: nat)
    ensures Zeros(m) + Zeros(n) == Zeros(m + n)
  {
  }

  lemma ByteShift(v: nat)
    ensures ShiftLeft(v, 8) == 256 * v
  {
    ShiftLeftAdd(v, 4, 4);
    ShiftFour(v);
    ShiftFour(16 * v);
  }

  lemma ShiftFour(v: nat)
    ensures ShiftLeft(v, 4) == 16 * v
  {
    ShiftLeftAdd(v, 2, 2);
    assert ShiftLeft(v, 2) == 4 * v;
    assert ShiftLeft(4 * v, 2) == 16 * v;
  }

  lemma TopShift(v: nat)
    ensures ShiftLeft(v, 24) == TOP * v
  {
    ShiftLeftAdd(v, 8, 16);
    ShiftLeftAdd(256 * v, 8, 8);
    ByteShift(v);
    ByteShift(256 * v);
    ByteShift(65536 * v);
  }

  lemma SplitByte(v: nat, h: nat, l: nat)
    requires h < 256 && l < TOP && v == TOP * h + l
    ensures v < WORD && v / TOP == h && v * 256 % WORD == l * 256
  {
  }

  /** The top byte of a 32-bit buffer is its first eight bits; shifting left by eight drops them. */
  lemma TopByte(a: bits, b: bits)
    requires |a| == 8 && |b| == 24
    ensures Value(a + b) < WORD && Value(a + b) / TOP == Value(a) < 256
    ensures Value(a + b) * 256 % WORD == Value(b) * 256 && Value(b) < TOP
  {
    SmallPowers();
    TopShift(Value(a));
    ValueConcat(a, b);
    SplitByte(Value(a + b), Value(a), Value(b));
  }

  lemma OneByte(b: byte)
    ensures BytesToBits([b]) == Field(8, b)
  {
    assert [b][..0] == [];
    assert [] + Field(8, b) == Field(8, b);
  }

  lemma ByteOf(s: seq<byte>, h: bits)
    requires |h| == 8 && Value(h) < 256
    ensures BytesToBits(s + [Value(h)]) == BytesToBits(s) + h
  {
    var b: byte := Value(h);
    FieldValue(h);
    BytesToBitsConcat(s, [b]);
    OneByte(b);
  }

  lemma AppendByte(s: seq<byte>, tail: bits)
    requires |tail| >= 8 && Value(tail[..8]) < 256
    ensures BytesToBits(s + [Value(tail[..8])]) + tail[8..] == BytesToBits(s) + tail
  {
    ByteOf(s, tail[..8]);
    Regrouped(BytesToBits(s), tail[..8], tail[8..]);
    assert tail == tail[..8] + tail[8..];
  }

  /** The left-justified buffer that holds the bits of tail. */
  ghost function Justified(tail: bits): bits
    requires |tail| <= 32
  {
    tail + Zeros(32 - |tail|)
  }

  lemma Shifted(a: bits, m: nat)
    ensures Value(a + Zeros(m)) == ShiftLeft(Value(a), m)
  {
    ValueConcat(a, Zeros(m));
    ValueZeros(m);
  }

  lemma JustifiedSplit(tail: bits) returns (b: bits)
    requires 8 <= |tail| <= 32
    ensures |b| == 24 && Justified(tail) == tail[..8] + b && Justified(tail[8..]) == b + Zeros(8)
  {
    b := tail[8..] + Zeros(32 - |tail|);
    ZerosConcat(32 - |tail|, 8);
    assert tail == tail[..8] + tail[8..];
  }

  lemma DropByte(tail: bits)
    requires 8 <= |tail| <= 32
    ensures Value(Justified(tail)) < WORD && Value(Justified(tail)) / TOP == Value(tail[..8]) < 256
    ensures Value(Justified(tail)) * 256 % WORD == Value(Justified(tail[8..]))
  {
    var b := JustifiedSplit(tail);
    TopByte(tail[..8], b);
    ByteShift(Value(b));
    Shifted(b, 8);
  }

  /** Or-ing a value into the free low part of the buffer appends its bits. */
  lemma Append(tail: bits, f: bits, k: nat)
    ensures Value(tail + Zeros(|f| + k)) + ShiftLeft(Value(f), k) == Value(tail + (f + Zeros(k)))
  {
    Shifted(tail, |f| + k);
    ValueConcat(tail, f + Zeros(k));
    Shifted(f, k);
  }

  lemma JustifiedAppend(tail: bits, f: bits)
    requires |tail| + |f| <= 32
    ensures Justified(tail + f) == tail + (f + Zeros(32 - |tail| - |f|))
  {
  }

  lemma Padded(tail: bits, t: bits)
    requires 0 < |tail| < 8 && t == tail + Zeros(8 - |tail|)
    ensures |t| == 8 && Justified(t) == Justified(tail) && t[..8] == t && t[8..] == []
  {
    ZerosConcat(8 - |tail|, 24);
  }

  lemma PadByteIs(s: seq<byte>, tail: bits)
    requires 0 < |tail| < 8
    ensures Value(Justified(tail)) / TOP < 256
    ensures BytesToBits(s + [Value(Justified(tail)) / TOP]) == BytesToBits(s) + tail + Zeros(8 - |tail|)
  {
    var t := tail + Zeros(8 - |tail|);
    Padded(tail, t);
    DropByte(t);
    ByteOf(s, t);
    Regrouped(BytesToBits(s), tail, Zeros(8 - |tail|));
  }

  class BitWriter {
    var buff: nat
    var live: int
    var zbits: seq<byte>
    /** The bits in the buffer, and all bits written. */
    ghost var tail: bits
    ghost var written: bits

    /** The buffer holds the bits that do not fill a byte, left-justified. */
    ghost predicate Packed()
      reads this
    {
      0 <= live <= 32 && |tail| == live && buff == Value(Justified(tail)) && written == BytesToBits(zbits) + tail
    }

    /** Packed, to be opened by a proof that mentions BytesToBits(zbits). */
    ghost predicate Valid()
      reads this
    {
      && 0 <= live <= 32 && |written| == 8 * |zbits| + live
      && forall z {:trigger BytesToBits(z)} :: z == zbits ==> Packed()
    }

    constructor ()
      ensures Valid() && zbits == [] && written == []
    {
      buff, live, zbits, tail, written := 0, 0, [], [], [];
      new;
      ValueZeros(32);
      assert tail + Zeros(32) == Zeros(32);
      assert BytesToBits([]) + tail == [];
    }

    /** The bytes of an earlier block have been taken; bits that do not fill a byte stay. */
    method Restart()
      requires Valid()
      modifies this`zbits, this`written
      ensures Valid() && zbits == [] && old(written) == BytesToBits(old(zbits)) + written
    {
      ghost var taken := BytesToBits(zbits);
      zbits, written := [], tail;
      assert BytesToBits([]) + tail == tail;
    }

    method FlushByte()
      requires Packed() && live >= 8
      modifies this`buff, this`live, this`zbits, this`tail
      ensures Packed() && live == old(live) - 8 && |zbits| == old(|zbits|) + 1
    {
      DropByte(tail);
      AppendByte(zbits, tail);
      zbits := zbits + [buff / TOP];
      buff := buff * 256 % WORD;
      live := live - 8;
      tail := tail[8..];
    }

    method OrIn(n: nat, v: nat)
      requires Packed() && live + n <= 32 && v < Pow2(n)
      modifies this`buff, this`live, this`tail, this`written
      ensures Packed() && live == old(live) + n && written == old(written) + Field(n, v)
    {
      ValueField(n, v);
      Append(tail, Field(n, v), 32 - live - n);
      JustifiedAppend(tail, Field(n, v));
      Regrouped(BytesToBits(zbits), tail, Field(n, v));
      buff := buff + ShiftLeft(v, 32 - live - n);
      live := live + n;
      tail, written := tail + Field(n, v), written + Field(n, v);
    }

    method FlushBytes()
      requires Packed()
      modifies this`buff, this`live, this`zbits, this`tail
      ensures Packed() && live < 8 && |zbits| >= old(|zbits|)
    {
      while live >= 8
        invariant Packed() && |zbits| >= old(|zbits|)
        decreases live
      {
        FlushByte();
      }
    }

    /** Appends the low n bits of v, most significant first. */
    method Put(n: nat, v: nat)
      requires Valid() && n <= 24 && v < Pow2(n)
      modifies this
      ensures Valid() && written == old(written) + Field(n, v) && |zbits| >= old(|zbits|)
    {
      ghost var bytes := BytesToBits(zbits);
      FlushBytes();
      OrIn(n, v);
    }

    /** Releases the last bits, padded with zeros to a whole byte. */
    method Finish() returns (ghost pad: nat)
      requires Valid()
      modifies this
      ensures pad < 8 && BytesToBits(zbits) == old(written) + Zeros(pad) && |zbits| >= old(|zbits|)
    {
      ghost var bytes := BytesToBits(zbits);
      pad := 0;
      while live > 0
        invariant |zbits| >= old(|zbits|) && pad < 8
        invariant live >= 0 ==> Packed() && pad == 0 && written == old(written)
        invariant live < 0 ==> BytesToBits(zbits) == old(written) + Zeros(pad)
      {
        if live >= 8 {
          FlushByte();
        } else {
          pad := PadByte();
        }
      }
      if live == 0 {
        assert tail == [];
        assert BytesToBits(zbits) + [] + Zeros(0) == BytesToBits(zbits);
      }
    }

    method PadByte() returns (ghost pad: nat)
      requires Packed() && 0 < live < 8
      modifies this`buff, this`live, this`zbits
      ensures pad < 8 && live < 0 && |zbits| == old(|zbits|) + 1 && BytesToBits(zbits) == old(written) + Zeros(pad)
    {
      pad := 8 - live;
      PadByteIs(zbits, tail);
      zbits := zbits + [buff / TOP];
      buff := buff * 256 % WORD;
      live := live - 8;
    }
  }

  /** The decompressor's side: `input` is what next_in still points at. */
  class BitReader {
    var buff: nat
    var live: nat
    var input: seq<byte>
    /** The buffer's 32 bits, of which the last live ones are still to be handed out, and all bits to be handed out. */
    ghost var word: bits
    ghost var unread: bits

    ghost predicate Loaded()
      reads this
    {
      live <= 32 == |word| && buff == Value(word) && unread == word[32 - live..] + BytesToBits(input)
    }

    /** Loaded, to be opened by a proof that mentions BytesToBits(input). */
    ghost predicate Valid()
      reads this
    {
      forall s {:trigger BytesToBits(s)} :: s == input ==> Loaded()
    }

    constructor ()
      ensures Valid() && input == [] && unread == []
    {
      buff, live, input, word, unread := 0, 0, [], Zeros(32), [];
      new;
      ValueZeros(32);
      assert word[32..] + BytesToBits([]) == [];
    }

    /** The caller supplies more input. */
    method Supply(more: seq<byte>)
      requires Valid()
      modifies this`input, this`unread
      ensures Valid() && input == old(input) + more && unread == old(unread) + BytesToBits(more)
    {
      BytesToBitsConcat(input, more);
      Regrouped(word[32 - live..], BytesToBits(input), BytesToBits(more));
      input, unread := input + more, unread + BytesToBits(more);
    }

    method FetchByte()
      requires Loaded() && live <= 24 && input != []
      modifies this`buff, this`live, this`input, this`word
      ensures Loaded() && live == old(live) + 8 && input == old(input)[1..]
    {
      word := Fetched(word, live, input);
      buff := buff * 256 % WORD + input[0];
      live := live + 8;
      input := input[1..];
    }

    method Take(n: nat) returns (v: nat)
      requires Loaded() && n <= live
      modifies this`live, this`unread
      ensures Loaded() && v < Pow2(n) && old(unread) == Field(n, v) + unread
    {
      TakeTop(word, live, n);
      v := Low(High(buff, live - n), n);
      Regrouped(Field(n, v), word[32 - (live - n)..], BytesToBits(input));
      live := live - n;
      unread := word[32 - live..] + BytesToBits(input);
    }

    /** GET_BITS: the next n bits as a number, or not enough input, in which case nothing is lost. */
    method Get(n: nat) returns (ok: bool, v: nat)
      requires Valid() && 1 <= n <= 24
      modifies this
      ensures Valid()
      ensures ok <==> old(|unread|) >= n
      ensures ok ==> v < Pow2(n) && old(unread) == Field(n, v) + unread
      ensures !ok ==> input == [] && unread == old(unread)
    {
      ghost var bytes := BytesToBits(input);
      while live < n && input != []
        invariant Loaded() && unread == old(unread)
        decreases |input|
      {
        FetchByte();
      }
      ok, v := live >= n, 0;
      if ok {
        v := Take(n);
      }
    }
  }

  /** Shifting a byte into the buffer keeps its last 24 bits and appends the byte's. */
  lemma ShiftIn(word: bits, b: byte)
    requires |word| == 32
    ensures Value(word) * 256 % WORD + b == Value(word[8..] + Field(8, b))
  {
    assert word == word[..8] + word[8..];
    TopByte(word[..8], word[8..]);
    SmallPowers();
    ByteShift(Value(word[8..]));
    ValueField(8, b);
    ValueConcat(word[8..], Field(8, b));
  }

  lemma FirstByte(input: seq<byte>)
    requires input != []
    ensures BytesToBits(input) == Field(8, input[0]) + BytesToBits(input[1..])
  {
    assert input == [input[0]] + input[1..];
    BytesToBitsConcat([input[0]], input[1..]);
    OneByte(input[0]);
  }

  lemma Refill(word: bits, live: nat, input: seq<byte>)
    requires |word| == 32 && live <= 24 && input != []
    ensures word[32 - live..] + BytesToBits(input)
         == (word[8..] + Field(8, input[0]))[24 - live..] + BytesToBits(input[1..])
  {
    FirstByte(input);
    var f := Field(8, input[0]);
    assert (word[8..] + f)[24 - live..] == word[32 - live..] + f;
    Regrouped(word[32 - live..], f, BytesToBits(input[1..]));
  }

  lemma Fetched(word: bits, live: nat, input: seq<byte>) returns (next: bits)
    requires |word| == 32 && live <= 24 && input != []
    ensures |next| == 32 && Value(next) == Value(word) * 256 % WORD + input[0]
    ensures next[24 - live..] + BytesToBits(input[1..]) == word[32 - live..] + BytesToBits(input)
  {
    ShiftIn(word, input[0]);
    Refill(word, live, input);
    next := word[8..] + Field(8, input[0]);
  }

  lemma TakeTop(word: bits, live: nat, n: nat)
    requires |word| == 32 && n <= live <= 32
    ensures var v := Low(High(Value(word), live - n), n);
            v < Pow2(n) && word[32 - live..] == Field(n, v) + word[32 - (live - n)..]
  {
    var a, b, c := word[..32 - live], word[32 - live..32 - live + n], word[32 - live + n..];
    assert a + b + c == word;
    Extract(a, b, c);
    FieldValue(b);
    assert word[32 - live..] == b + c;
  }
}
