/** Bit strings, most significant bit first, and the numbers they stand for. */
module Bits {

  type bits = seq<bool>

  lemma Regrouped<T>(a: seq<T>, b: seq<T>, c: seq<T>)
    ensures a + b + c == a + (b + c)
  {
  }

  function Pow2(n: nat): (p: nat)
    ensures p >= 1
  {
    if n == 0 then 1 else 2 * Pow2(n - 1)
  }

  /** The low n bits of v. */
  function Field(n: nat, v: nat): (b: bits)
    ensures |b| == n
  {
    if n == 0 then [] else Field(n - 1, v / 2) + [v % 2 == 1]
  }

  function Value(b: bits): (v: nat)
    ensures v < Pow2(|b|)
  {
    if b == [] then 0 else 2 * Value(b[..|b| - 1]) + (if b[|b| - 1] then 1 else 0)
  }

  lemma {:induction false} ValueField(n: nat, v: nat)
    requires v < Pow2(n)
    ensures Value(Field(n, v)) == v
    decreases n
  {
    if n > 0 {
      ValueField(n - 1, v / 2);
      assert Field(n, v)[..n - 1] == Field(n - 1, v / 2);
    }
  }

  lemma {:induction false} FieldValue(b: bits)
    ensures Field(|b|, Value(b)) == b
    decreases |b|
  {
    if b != [] {
      FieldValue(b[..|b| - 1]);
    }
  }

  lemma {:induction false} Pow2Add(m: nat, n: nat)
    ensures Pow2(m + n) == Pow2(m) * Pow2(n)
    decreases n
  {
    if n > 0 {
      Pow2Add(m, n - 1);
      assert Pow2(m) * (2 * Pow2(n - 1)) == 2 * (Pow2(m) * Pow2(n - 1));
    }
  }

  lemma {:induction false} Pow2Mono(m: nat, n: nat)
    requires m <= n
    ensures Pow2(m) <= Pow2(n)
    decreases n
  {
    if m < n {
      Pow2Mono(m, n - 1);
    }
  }

  /** v << n, without loss. */
  function ShiftLeft(v: nat, n: nat): nat
    decreases n
  {
    if n == 0 then v else ShiftLeft(2 * v, n - 1)
  }

  /** v >> n: v without its low n bits. */
  function High(v: nat, n: nat): nat
    decreases n
  {
    if n == 0 then v else High(v / 2, n - 1)
  }

  /** v & ((1 << n) - 1): the low n bits of v. */
  function Low(v: nat, n: nat): (r: nat)
    ensures r < Pow2(n)
    decreases n
  {
    if n == 0 then 0 else 2 * Low(v / 2, n - 1) + v % 2
  }

  lemma {:induction false} ShiftLeftAdd(v: nat, m: nat, n: nat)
    ensures ShiftLeft(v, m + n) == ShiftLeft(ShiftLeft(v, m), n)
    decreases m
  {
    if m > 0 {
      ShiftLeftAdd(2 * v, m - 1, n);
    }
  }

  lemma {:induction false} ShiftLeftStep(v: nat, n: nat)
    ensures ShiftLeft(2 * v, n) == 2 * ShiftLeft(v, n)
    decreases n
  {
    if n > 0 {
      ShiftLeftStep(2 * v, n - 1);
    }
  }

  lemma {:induction false} ValueConcat(a: bits, b: bits)
    ensures Value(a + b) == ShiftLeft(Value(a), |b|) + Value(b)
    decreases |b|
  {
    if b == [] {
      assert a + b == a;
    } else {
      var c := b[..|b| - 1];
      ValueConcat(a, c);
      assert (a + b)[..|a + b| - 1] == a + c;
      ShiftLeftStep(Value(a), |c|);
    }
  }

  lemma {:induction false} HighConcat(a: bits, b: bits)
    ensures High(Value(a + b), |b|) == Value(a)
    decreases |b|
  {
    if b == [] {
      assert a + b == a;
    } else {
      HighConcat(a, b[..|b| - 1]);
      assert (a + b)[..|a + b| - 1] == a + b[..|b| - 1];
    }
  }

  lemma {:induction false} LowConcat(a: bits, b: bits)
    ensures Low(Value(a + b), |b|) == Value(b)
    decreases |b|
  {
    if b != [] {
      LowConcat(a, b[..|b| - 1]);
      assert (a + b)[..|a + b| - 1] == a + b[..|b| - 1];
    }
  }

  /** Shifting and masking select the middle of a bit string. */
  lemma Extract(a: bits, b: bits, c: bits)
    ensures Low(High(Value(a + b + c), |c|), |b|) == Value(b)
  {
    HighConcat(a + b, c);
    LowConcat(a, b);
  }

  /** A field is the concatenation of its high and low parts. */
  lemma {:induction false} FieldSplit(m: nat, n: nat, v: nat)
    ensures Field(m + n, v) == Field(m, High(v, n)) + Field(n, v)
    decreases n
  {
    if n > 0 {
      FieldSplit(m, n - 1, v / 2);
      assert Field(m, High(v, n)) + Field(n - 1, v / 2) + [v % 2 == 1] == Field(m, High(v, n)) + (Field(n - 1, v / 2) + [v % 2 == 1]);
    }
  }

  /** The bits of a byte sequence. */
  function BytesToBits(s: seq<int>): (b: bits)
    requires forall i :: 0 <= i < |s| ==> 0 <= s[i] < 256
    ensures |b| == 8 * |s|
  {
    if s == [] then [] else BytesToBits(s[..|s| - 1]) + Field(8, s[|s| - 1])
  }

  lemma {:induction false} BytesToBitsConcat(s: seq<int>, t: seq<int>)
    requires forall i :: 0 <= i < |s| ==> 0 <= s[i] < 256
    requires forall i :: 0 <= i < |t| ==> 0 <= t[i] < 256
    ensures BytesToBits(s + t) == BytesToBits(s) + BytesToBits(t)
    decreases |t|
  {
    if t == [] {
      assert s + t == s;
    } else {
      var u := t[..|t| - 1];
      BytesToBitsConcat(s, u);
      assert (s + t)[..|s + t| - 1] == s + u;
      assert BytesToBits(s) + BytesToBits(u) + Field(8, t[|t| - 1]) == BytesToBits(s) + (BytesToBits(u) + Field(8, t[|t| - 1]));
    }
  }

  /** Different bytes have different bits. */
  lemma {:induction false} SameBytes(s: seq<int>, t: seq<int>)
    requires (forall i :: 0 <= i < |s| ==> 0 <= s[i] < 256) && forall i :: 0 <= i < |t| ==> 0 <= t[i] < 256
    requires BytesToBits(s) == BytesToBits(t)
    ensures s == t
    decreases |s|
  {
    if s != [] {
      var u, v := s[..|s| - 1], t[..|t| - 1];
      var x, y := s[|s| - 1], t[|t| - 1];
      assert BytesToBits(u) == BytesToBits(s)[..8 * |u|] && BytesToBits(v) == BytesToBits(t)[..8 * |v|];
      assert Field(8, x) == BytesToBits(s)[8 * |u|..] && Field(8, y) == BytesToBits(t)[8 * |v|..];
      SmallPowers();
      ValueField(8, x);
      ValueField(8, y);
      SameBytes(u, v);
      assert s == u + [x] && t == v + [y];
    }
  }

  lemma SmallPowers()
    ensures Pow2(1) == 2 && Pow2(8) == 256 && Pow2(16) == 65536 && Pow2(24) == 0x100_0000 && Pow2(32) == 0x1_0000_0000
  {
    assert Pow2(4) == 16;
    Pow2Add(4, 4);
    Pow2Add(8, 8);
    Pow2Add(16, 8);
    Pow2Add(16, 16);
  }
}
