/** XdmcpWrap and XdmcpUnwrap: the block cipher chained over messages of any length. */
module Chaining {
  import opened Des

  /** Two D_ENCRYPT steps change the halves in turn; two rounds of the cipher exchange them twice. */
  method TwoSteps(f: Mixer, k: Key, k': Key, p: Pair) returns (q: Pair)
    ensures q == Round(f, k', Round(f, k, p))
  {
    var l, r := p.l, p.r;
    l := l ^ f(r, k);
    assert Pair(r, l) == Round(f, k, p);
    r := r ^ f(l, k');
    q := Pair(l, r);
  }

  method Encipher(f: Mixer, s: schedule, p: Pair) returns (q: Pair)
    ensures q == Rounds(f, Keys(s), p)
  {
    ghost var ks := Keys(s);
    q := p;
    var i := 0;
    ghost var j := 0;
    assert ks[0..] == ks;
    while i < 32
      invariant 0 <= j <= 8 && i == 4 * j && Rounds(f, ks[2 * j..], q) == Rounds(f, ks, p)
    {
      var k, k' := Key(s[i], s[i + 1]), Key(s[i + 2], s[i + 3]);
      TwoRounds(f, ks, 2 * j, k, k', q);
      q := TwoSteps(f, k, k', q);
      i, j := i + 4, j + 1;
    }
  }

  lemma ReversedKey(s: schedule, m: nat)
    requires m < 16
    ensures Reversed(Keys(s))[m] == Key(s[30 - 2 * m], s[31 - 2 * m])
  {
  }

  method Decipher(f: Mixer, s: schedule, p: Pair) returns (q: Pair)
    ensures q == Rounds(f, Reversed(Keys(s)), p)
  {
    ghost var ks := Reversed(Keys(s));
    q := p;
    var i := 30;
    ghost var j := 0;
    assert ks[0..] == ks;
    while i >= 0
      invariant 0 <= j <= 8 && i == 30 - 4 * j && Rounds(f, ks[2 * j..], q) == Rounds(f, ks, p)
    {
      var k, k' := Key(s[i], s[i + 1]), Key(s[i - 2], s[i - 1]);
      ReversedKey(s, 2 * j);
      ReversedKey(s, 2 * j + 1);
      TwoRounds(f, ks, 2 * j, k, k', q);
      q := TwoSteps(f, k, k', q);
      i, j := i - 4, j + 1;
    }
  }

  function Order(s: schedule, encrypt: bool): seq<Key> {
    if encrypt then Keys(s) else Reversed(Keys(s))
  }

  type Coder = cblock -> cblock

  function Coding(b: boxes, s: schedule, encrypt: bool): Coder {
    x => Cipher(Tabled(b), Order(s, encrypt), x)
  }

  /** _XdmcpAuthDoIt on eight bytes. */
  method DoIt(b: boxes, s: schedule, input: cblock, encrypt: bool) returns (output: cblock)
    ensures output == Coding(b, s, encrypt)(input)
  {
    var p := Load(input);
    var l, r := p.l, p.r;
    r, l := Higher(r, l, Nibbles), Lower(r, l, Nibbles);
    l, r := Higher(l, r, Halves), Lower(l, r, Halves);
    r, l := Higher(r, l, Pairs), Lower(r, l, Pairs);
    l, r := Higher(l, r, Octets), Lower(l, r, Octets);
    r, l := Higher(r, l, Single), Lower(r, l, Single);
    assert Pair(l, r) == Initial(p);
    var q;
    if encrypt {
      q := Encipher(Tabled(b), s, Pair(r, l));
    } else {
      q := Decipher(Tabled(b), s, Pair(r, l));
    }
    l, r := q.l, q.r;
    r, l := Higher(r, l, Single), Lower(r, l, Single);
    l, r := Higher(l, r, Octets), Lower(l, r, Octets);
    r, l := Higher(r, l, Pairs), Lower(r, l, Pairs);
    l, r := Higher(l, r, Halves), Lower(l, r, Halves);
    r, l := Higher(r, l, Nibbles), Lower(r, l, Nibbles);
    assert Pair(l, r) == Final(q);
    output := Store(Pair(l, r));
  }

  /** c is the half that follows a and x. */
  predicate Rung(f: Mixer, k: Key, a: card32, x: card32, c: card32) {
    Round(f, k, Pair(a, x)) == Pair(x, c)
  }

  /** It is the one before last plus what the round function makes of the last. */
  lemma RungIs(f: Mixer, k: Key, a: card32, x: card32, c: card32, d: card32)
    requires d == f(x, k)
    ensures Rung(f, k, a, x, c) <==> c == a ^ d
  {
    var q := Round(f, k, Pair(a, x));
    assert q.l == x && q.r == a ^ d;
    Same(q, x, c);
  }

  lemma Same(q: Pair, x: card32, c: card32)
    requires q.l == x
    ensures q == Pair(x, c) <==> q.r == c
  {
  }

  /** The halves that the rounds go through, each from the two before it. */
  lemma {:induction false} RoundsLadder(f: Mixer, ks: seq<Key>, p: Pair) returns (h: seq<card32>)
    ensures |h| == |ks| + 2 && h[0] == p.l && h[1] == p.r && Rounds(f, ks, p) == Pair(h[|ks|], h[|ks| + 1])
    ensures forall i :: 0 <= i < |ks| ==> Rung(f, ks[i], h[i], h[i + 1], h[i + 2])
    decreases |ks|
  {
    if ks == [] {
      h := [p.l, p.r];
    } else {
      var q := Round(f, ks[0], p);
      var g := RoundsLadder(f, ks[1..], q);
      h := [p.l] + g;
      assert q == Pair(p.r, q.r);
      forall i | 0 <= i < |ks|
        ensures Rung(f, ks[i], h[i], h[i + 1], h[i + 2])
      {
        if i > 0 {
          assert Rung(f, ks[1..][i - 1], g[i - 1], g[i - 1 + 1], g[i - 1 + 2]);
        }
      }
    }
  }

  /** The key of a round, forwards or backwards. */
  function KeyAt(s: schedule, encrypt: bool, i: nat): Key
    requires i < 16
  {
    if encrypt then Key(s[2 * i], s[2 * i + 1]) else Key(s[30 - 2 * i], s[31 - 2 * i])
  }

  lemma OrderAt(s: schedule, encrypt: bool, i: nat)
    requires i < 16
    ensures |Order(s, encrypt)| == 16 && Order(s, encrypt)[i] == KeyAt(s, encrypt, i)
  {
    ReversedKey(s, i);
  }

  /**
   * The cipher as FIPS 46-3 writes it: the halves of the permuted block, then each half from the two before it, sixteen
   * times; the last two, exchanged, are the permuted output.
   */
  lemma CodingIs(b: boxes, s: schedule, encrypt: bool, x: cblock) returns (h: seq<card32>)
    ensures |h| == 18 && Initial(Load(x)) == Pair(h[1], h[0]) && Initial(Load(Coding(b, s, encrypt)(x))) == Pair(h[16], h[17])
    ensures forall i :: 0 <= i < 16 ==> Rung(Tabled(b), KeyAt(s, encrypt, i), h[i], h[i + 1], h[i + 2])
  {
    h := CipherIs(Tabled(b), Order(s, encrypt), x);
    forall i | 0 <= i < 16
      ensures Rung(Tabled(b), KeyAt(s, encrypt, i), h[i], h[i + 1], h[i + 2])
    {
      OrderAt(s, encrypt, i);
    }
  }

  lemma CipherIs(f: Mixer, ks: seq<Key>, x: cblock) returns (h: seq<card32>)
    ensures |h| == |ks| + 2 && Initial(Load(x)) == Pair(h[1], h[0]) && Initial(Load(Cipher(f, ks, x))) == Pair(h[|ks|], h[|ks| + 1])
    ensures forall i :: 0 <= i < |ks| ==> Rung(f, ks[i], h[i], h[i + 1], h[i + 2])
  {
    var p := Swap(Initial(Load(x)));
    h := RoundsLadder(f, ks, p);
    LoadStore(Final(Rounds(f, ks, p)));
    InitialFinal(Rounds(f, ks, p));
  }

  /** The second coder undoes the first. */
  ghost predicate Undoes(d: Coder, e: Coder) {
    forall x: cblock :: d(e(x)) == x
  }

  lemma CodingUndone(b: boxes, s: schedule, encrypt: bool)
    ensures Undoes(Coding(b, s, !encrypt), Coding(b, s, encrypt))
  {
    forall x: cblock
      ensures Coding(b, s, !encrypt)(Coding(b, s, encrypt)(x)) == x
    {
      if encrypt {
        Deciphered(Tabled(b), Keys(s), x);
      } else {
        Enciphered(Tabled(b), Keys(s), x);
      }
    }
  }

  // Cipher block chaining

  type message = m: seq<octet> | |m| % 8 == 0

  const ZERO: cblock := [0, 0, 0, 0, 0, 0, 0, 0]

  function Xor(x: cblock, y: cblock): cblock {
    seq(8, i requires 0 <= i < 8 => x[i] ^ y[i])
  }

  lemma XorUndone(x: cblock, y: cblock)
    ensures Xor(x, Xor(x, y)) == y
  {
  }

  function Chained(e: Coder, previous: cblock, m: message): (c: message)
    ensures |c| == |m|
    decreases |m|
  {
    if m == [] then [] else
      var first := e(Xor(previous, m[..8]));
      first + Chained(e, first, m[8..])
  }

  function Unchained(d: Coder, previous: cblock, c: message): (m: message)
    ensures |m| == |c|
    decreases |c|
  {
    if c == [] then [] else Xor(previous, d(c[..8])) + Unchained(d, c[..8], c[8..])
  }

  /** Unchaining undoes chaining, and chaining unchaining, for every message. */
  lemma {:induction false} ChainUndone(e: Coder, d: Coder, previous: cblock, m: message)
    requires Undoes(d, e)
    ensures Unchained(d, previous, Chained(e, previous, m)) == m
    decreases |m|
  {
    if m != [] {
      var first := e(Xor(previous, m[..8]));
      ChainUndone(e, d, first, m[8..]);
      XorUndone(previous, m[..8]);
    }
  }

  lemma {:induction false} UnchainUndone(e: Coder, d: Coder, previous: cblock, c: message)
    requires Undoes(e, d)
    ensures Chained(e, previous, Unchained(d, previous, c)) == c
    decreases |c|
  {
    if c != [] {
      var first := Xor(previous, d(c[..8]));
      UnchainUndone(e, d, c[..8], c[8..]);
      XorUndone(previous, d(c[..8]));
      assert (first + Unchained(d, c[..8], c[8..]))[..8] == first;
    }
  }

  /** The block before position j. */
  function Before(first: cblock, m: message, j: nat): cblock
    requires j <= |m| && j % 8 == 0
  {
    if j == 0 then first else m[j - 8..j]
  }

  lemma Behind(first: cblock, c: message, m: message, j: nat)
    requires 8 <= j < |m| && j % 8 == 0 && |c| + 8 == |m|
    ensures (first + c)[j..j + 8] == c[j - 8..j] && m[j..j + 8] == m[8..][j - 8..j]
    ensures (first + c)[j - 8..j] == if j == 8 then first else c[j - 16..j - 8]
  {
  }

  lemma {:induction false} ChainedAt(e: Coder, previous: cblock, m: message, j: nat)
    requires j < |m| && j % 8 == 0
    ensures var c := Chained(e, previous, m); c[j..j + 8] == e(Xor(Before(previous, c, j), m[j..j + 8]))
    decreases |m|
  {
    if j > 0 {
      var first := e(Xor(previous, m[..8]));
      ChainedAt(e, first, m[8..], j - 8);
      Behind(first, Chained(e, first, m[8..]), m, j);
    }
  }

  lemma {:induction false} UnchainedAt(d: Coder, previous: cblock, c: message, j: nat)
    requires j < |c| && j % 8 == 0
    ensures Unchained(d, previous, c)[j..j + 8] == Xor(Before(previous, c, j), d(c[j..j + 8]))
    decreases |c|
  {
    if j > 0 {
      UnchainedAt(d, c[..8], c[8..], j - 8);
      assert c[j..j + 8] == c[8..][j - 8..j];
      if j > 8 {
        assert c[j - 8..j] == c[8..][j - 16..j - 8];
      }
    }
  }

  // The arrays of XdmcpWrap and XdmcpUnwrap, which may be the same one

  /** A message filled up with zeros to whole blocks. */
  function Padded(m: seq<octet>): (p: message)
    ensures m <= p && |p| < |m| + 8 && forall i :: |m| <= i < |p| ==> p[i] == 0
  {
    m + seq((8 - |m| % 8) % 8, _ => 0)
  }

  function Length(bytes: int): nat {
    if bytes < 0 then 0 else bytes
  }

  /** The bytes of whole blocks. */
  function Whole(bytes: int): nat {
    Length(bytes) - Length(bytes) % 8
  }

  /** l2c of both halves into eight bytes of an array. */
  method Put(a: array<octet>, j: nat, x: cblock)
    requires j + 8 <= a.Length
    modifies a
    ensures a[..] == old(a[..j]) + x + old(a[j + 8..])
    ensures forall i :: j + 8 <= i < a.Length ==> a[i] == old(a[i])
  {
    for i := 0 to 8
      invariant a[..j] == old(a[..j]) && a[j..j + i] == x[..i] && a[j + 8..] == old(a[j + 8..])
    {
      a[j + i] := x[i];
    }
    assert a[..] == a[..j] + a[j..j + 8] + a[j + 8..];
  }

  /** The block to encipher: what is left of the message, or zeros, added to the ciphertext before it. */
  method Mix(input: array<octet>, output: array<octet>, j: nat, bytes: int) returns (t: cblock)
    requires j < bytes <= input.Length && j <= output.Length && (j == 0 || 8 <= j)
    ensures forall i :: 0 <= i < 8 ==> t[i] == (if j == 0 then 0 else output[j - 8 + i]) ^ (if j + i < bytes then input[j + i] else 0)
  {
    var tmp := new octet[8];
    var len := if bytes - j < 8 then bytes - j else 8;
    var i := 0;
    while i < len
      invariant 0 <= i <= len && fresh(tmp)
      invariant forall k :: 0 <= k < i ==> tmp[k] == (if j == 0 then 0 else output[j - 8 + k]) ^ input[j + k]
    {
      if j == 0 {
        tmp[i] := input[i];
      } else {
        tmp[i] := input[j + i] ^ output[j - 8 + i];
      }
      i := i + 1;
    }
    while i < 8
      invariant len <= i <= 8 && fresh(tmp)
      invariant forall k :: 0 <= k < len ==> tmp[k] == (if j == 0 then 0 else output[j - 8 + k]) ^ input[j + k]
      invariant forall k :: len <= k < i ==> tmp[k] == (if j == 0 then 0 else output[j - 8 + k])
    {
      if j == 0 {
        tmp[i] := 0;
      } else {
        tmp[i] := 0 ^ output[j - 8 + i];
      }
      i := i + 1;
    }
    t := tmp[..];
  }

  /** e is what the schedule makes of a block. The quantifier has one instance, opened by a proof that mentions Keys(s), as Code does. */
  ghost predicate Codes(b: boxes, s: schedule, encrypt: bool, e: Coder) {
    forall s': schedule {:trigger Keys(s')} :: s' == s ==> e == Coding(b, s', encrypt)
  }

  method Code(b: boxes, s: schedule, x: cblock, encrypt: bool, ghost e: Coder) returns (y: cblock)
    requires Codes(b, s, encrypt, e)
    ensures y == e(x)
  {
    y := DoIt(b, s, x, encrypt);
    ghost var ks := Keys(s);
  }

  lemma ChainInput(c: message, m: message, output: seq<octet>, j: nat, t: cblock)
    requires j + 8 <= |m| == |c| <= |output| && j % 8 == 0 && output[..j] == c[..j]
    requires forall i :: 0 <= i < 8 ==> t[i] == (if j == 0 then 0 else output[j - 8 + i]) ^ m[j + i]
    ensures t == Xor(Before(ZERO, c, j), m[j..j + 8])
  {
    forall i | 0 <= i < 8
      ensures t[i] == Before(ZERO, c, j)[i] ^ m[j..j + 8][i]
    {
      if j > 0 {
        assert output[..j][j - 8 + i] == c[..j][j - 8 + i];
      }
    }
  }

  /** One round of XdmcpWrap's loop, which leaves the rest of the input alone. */
  method WrapBlock(b: boxes, s: schedule, input: array<octet>, output: array<octet>, j: nat, bytes: int, ghost e: Coder, ghost m: message, ghost c: message)
    requires Codes(b, s, true, e) && j < bytes <= input.Length && j % 8 == 0 && j + 8 <= |m| <= output.Length
    requires c == Chained(e, ZERO, m) && output[..j] == c[..j]
    requires forall i :: j <= i < |m| ==> m[i] == if i < bytes then input[i] else 0
    modifies output
    ensures output[..] == old(output[..j]) + c[j..j + 8] + old(output[j + 8..])
    ensures forall i :: j + 8 <= i < |m| ==> m[i] == if i < bytes then input[i] else 0
  {
    var t := Mix(input, output, j, bytes);
    ChainInput(c, m, output[..], j, t);
    ChainedAt(e, ZERO, m, j);
    var x := Code(b, s, t, true, e);
    Put(output, j, x);
  }

  lemma OneMoreBlock(was: seq<octet>, now: seq<octet>, before: seq<octet>, c: seq<octet>, j: nat)
    requires j + 8 <= |c| <= |was| == |now| == |before|
    requires was[..j] == c[..j] && was[j..] == before[j..] && now == was[..j] + c[j..j + 8] + was[j + 8..]
    ensures now[..j + 8] == c[..j + 8] && now[j + 8..] == before[j + 8..]
  {
    assert now[j + 8..] == was[j + 8..] == was[j..][8..];
    assert before[j + 8..] == before[j..][8..];
  }

  method WrapBlocks(b: boxes, s: schedule, input: array<octet>, output: array<octet>, bytes: int, ghost e: Coder, ghost m: message)
    requires Codes(b, s, true, e) && bytes <= input.Length && Length(bytes) <= |m| < Length(bytes) + 8 && |m| <= output.Length
    requires forall i :: 0 <= i < |m| ==> m[i] == if i < bytes then input[i] else 0
    modifies output
    ensures output[..] == Chained(e, ZERO, m) + old(output[|m|..])
  {
    ghost var c := Chained(e, ZERO, m);
    var j := 0;
    while j < bytes
      invariant 0 <= j <= |m| && j % 8 == 0
      invariant output[..j] == c[..j] && output[j..] == old(output[j..])
      invariant forall i :: j <= i < |m| ==> m[i] == if i < bytes then input[i] else 0
    {
      ghost var was := output[..];
      assert j + 8 <= |m|;
      WrapBlock(b, s, input, output, j, bytes, e, m, c);
      OneMoreBlock(was, output[..], old(output[..]), c, j);
      j := j + 8;
    }
    assert j == |m| && c[..j] == c;
    assert output[..] == output[..j] + output[j..];
  }

  /** XdmcpWrap after the key setup: the output is the chained encipherment of the message filled up with zeros. */
  method Wrap(b: boxes, s: schedule, input: array<octet>, output: array<octet>, bytes: int)
    requires bytes <= input.Length && |Padded(input[..Length(bytes)])| <= output.Length
    modifies output
    ensures var c := Chained(Coding(b, s, true), ZERO, Padded(old(input[..Length(bytes)])));
            output[..] == c + old(output[|c|..])
  {
    WrapBlocks(b, s, input, output, bytes, Coding(b, s, true), Padded(input[..Length(bytes)]));
  }

  /** The two saved ciphertext blocks of XdmcpUnwrap. */
  function Saved(blocks: array2<octet>, k: nat): cblock
    requires k < blocks.Length0 && blocks.Length1 == 8
    reads blocks
  {
    seq(8, i requires 0 <= i < 8 reads blocks => blocks[k, i])
  }

  method Save(blocks: array2<octet>, k: nat, input: array<octet>, j: nat)
    requires k < blocks.Length0 == 2 && blocks.Length1 == 8 && j + 8 <= input.Length
    modifies blocks
    ensures Saved(blocks, k) == input[j..j + 8] && Saved(blocks, 1 - k) == old(Saved(blocks, 1 - k))
  {
    for i := 0 to 8
      invariant forall x :: 0 <= x < i ==> blocks[k, x] == input[j + x]
      invariant Saved(blocks, 1 - k) == old(Saved(blocks, 1 - k))
    {
      blocks[k, i] := input[j + i];
    }
  }

  /** One round of XdmcpUnwrap's loop. */
  method UnwrapBlock(b: boxes, s: schedule, input: array<octet>, output: array<octet>, blocks: array2<octet>, k: nat, j: nat,
                     ghost d: Coder, ghost c: message, ghost m: message)
    returns (k': nat)
    requires Codes(b, s, false, d) && k < blocks.Length0 == 2 && blocks.Length1 == 8 && j % 8 == 0
    requires j + 8 <= |c| <= input.Length && |c| <= output.Length && m == Unchained(d, ZERO, c)
    requires (forall i :: j <= i < |c| ==> input[i] == c[i]) && (j > 0 ==> Saved(blocks, 1 - k) == c[j - 8..j])
    modifies output, blocks
    ensures output[..] == old(output[..j]) + m[j..j + 8] + old(output[j + 8..])
    ensures k' == 1 - k && Saved(blocks, k) == c[j..j + 8]
    ensures forall i :: j + 8 <= i < |c| ==> input[i] == c[i]
  {
    Save(blocks, k, input, j);
    assert input[j..j + 8] == c[j..j + 8];
    var x := Code(b, s, input[j..j + 8], false, d);
    k' := if k == 0 then 1 else 0;
    UnchainedAt(d, ZERO, c, j);
    if j == 0 {
      Put(output, j, x);
    } else {
      Put(output, j, Xor(Saved(blocks, k'), x));
    }
  }

  method UnwrapBlocks(b: boxes, s: schedule, input: array<octet>, output: array<octet>, bytes: int, ghost d: Coder, ghost c: message)
    requires Codes(b, s, false, d) && bytes <= input.Length && Whole(bytes) <= output.Length && c == input[..Whole(bytes)]
    modifies output
    ensures output[..] == Unchained(d, ZERO, c) + old(output[Whole(bytes)..])
  {
    ghost var m := Unchained(d, ZERO, c);
    var blocks := new octet[2, 8];
    var j, k := 0, 0;
    while j < bytes
      invariant 0 <= j <= |c| && j % 8 == 0 && 0 <= k < 2 && (j > 0 ==> Saved(blocks, 1 - k) == c[j - 8..j])
      invariant output[..j] == m[..j] && output[j..] == old(output[j..])
      invariant forall i :: j <= i < |c| ==> input[i] == c[i]
    {
      if bytes - j < 8 { break; }
      ghost var was := output[..];
      k := UnwrapBlock(b, s, input, output, blocks, k, j, d, c, m);
      OneMoreBlock(was, output[..], old(output[..]), m, j);
      j := j + 8;
    }
    assert j == |c|;
  }

  /** XdmcpUnwrap after the key setup: every whole block is deciphered and unchained, a rest is left alone. */
  method Unwrap(b: boxes, s: schedule, input: array<octet>, output: array<octet>, bytes: int)
    requires bytes <= input.Length && Whole(bytes) <= output.Length
    modifies output
    ensures output[..] == Unchained(Coding(b, s, false), ZERO, old(input[..Whole(bytes)])) + old(output[Whole(bytes)..])
  {
    UnwrapBlocks(b, s, input, output, bytes, Coding(b, s, false), input[..Whole(bytes)]);
  }

  /** A wrapped message unwraps to itself filled up with zeros, for every key schedule; all in one buffer if the caller likes. */
  method WrapUnwrap(b: boxes, s: schedule, input: array<octet>, wrapped: array<octet>, output: array<octet>, bytes: int)
    requires bytes <= input.Length && |Padded(input[..Length(bytes)])| <= wrapped.Length
    requires |Padded(input[..Length(bytes)])| <= output.Length
    modifies wrapped, output
    ensures Padded(old(input[..Length(bytes)])) <= output[..]
  {
    ghost var m := Padded(input[..Length(bytes)]);
    var n := |Padded(input[..Length(bytes)])|;
    Wrap(b, s, input, wrapped, bytes);
    Unwrap(b, s, wrapped, output, n);
    CodingUndone(b, s, true);
    ChainUndone(Coding(b, s, true), Coding(b, s, false), ZERO, m);
    assert Whole(n) == n;
  }
}
