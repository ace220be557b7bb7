/**
 * Move-to-front with run coding of the front position: symbols 0 (RUNA) and 1 (RUNB)
 * spell the lengths of front runs in bijective base 2, symbol j + 1 names position j > 0,
 * and one symbol past the list ends the block.
 */
module Mtf {
  import opened Bits
  import opened Counting
  import opened Permutations
  import opened Rotations
  import Canonical

  const RUN_GUARD: nat := 2 * 1024 * 1024

  function MoveToFront<T>(l: seq<T>, j: int): (r: seq<T>)
    requires 0 <= j < |l|
    ensures |r| == |l|
  {
    [l[j]] + l[..j] + l[j + 1..]
  }

  /** The digits of a run of length z, least significant first. */
  function RunCode(z: nat): seq<int> {
    if z == 0 then [] else [(z - 1) % 2] + RunCode((z - 1) / 2)
  }

  /** The symbols for s, given the list l and z pending front hits. */
  function Symbols(l: seq<byte>, s: seq<byte>, z: nat): seq<int>
    requires l != [] && forall x :: x in s ==> x in l
    decreases |s|
  {
    if s == [] then RunCode(z) + [|l| + 1]
    else
      assert s[0] in s;
      assert forall x :: x in s[1..] ==> x in s;
      if s[0] == l[0] then Symbols(l, s[1..], z + 1)
      else
        var j := IndexOf(l, s[0]);
        KeepsElements(l, j);
        RunCode(z) + [j + 1] + Symbols(MoveToFront(l, j), s[1..], 0)
  }

  lemma KeepsElements<T>(l: seq<T>, j: int)
    requires 0 <= j < |l|
    ensures forall x :: x in l <==> x in MoveToFront(l, j)
  {
    var r := MoveToFront(l, j);
    assert r[0] == l[j];
    forall x | x in l
      ensures x in r
    {
      var i :| 0 <= i < |l| && l[i] == x;
      assert i < j ==> r[i + 1] == x;
      assert i > j ==> r[i] == x;
    }
  }

  /** The decoder's state between symbols; es and n belong to the run that is being read, if inRun. */
  datatype Decoder = Decoder(list: seq<byte>, col: seq<byte>, es: int, n: nat, inRun: bool)

  datatype Progress = More(u: Decoder) | Done(col: seq<byte>) | Corrupt

  function Repeat<T>(x: T, n: nat): (r: seq<T>)
    ensures |r| == n && forall i :: 0 <= i < n ==> r[i] == x
  {
    if n == 0 then [] else Repeat(x, n - 1) + [x]
  }

  /** One round of the symbol loop, for a list of |u.list| bytes and room for max bytes. */
  function TakeSymbol(u: Decoder, sym: int, max: nat): Progress
    requires u.list != [] && 0 <= sym < |u.list| + 2
  {
    if sym == 0 || sym == 1 then
      var es, n := if u.inRun then u.es else -1, if u.inRun then u.n else 1;
      if n >= RUN_GUARD then Corrupt
      else More(u.(es := es + (if sym == 0 then n else 2 * n), n := 2 * n, inRun := true))
    else
      var run := if u.inRun && u.es + 1 > 0 then u.es + 1 else 0;
      if run > 0 && |u.col| + run > max then Corrupt
      else
        var col := u.col + Repeat(u.list[0], run);
        if sym == |u.list| + 1 then Done(col)
        else if |col| >= max then Corrupt
        else More(u.(list := MoveToFront(u.list, sym - 1), col := col + [u.list[sym - 1]], inRun := false))
  }

  function TakeAll(u: Decoder, syms: seq<int>, max: nat): Progress
    requires u.list != [] && forall i :: 0 <= i < |syms| ==> 0 <= syms[i] < |u.list| + 2
    decreases |syms|
  {
    if syms == [] then More(u)
    else
      match TakeSymbol(u, syms[0], max)
      case More(v) => TakeAll(v, syms[1..], max)
      case Done(col) => Done(col)
      case Corrupt => Corrupt
  }

  /** Run digits are few: their number is logarithmic, and never more than the run. */
  lemma {:induction false} RunCodeShort(z: nat)
    ensures Pow2(|RunCode(z)|) <= z + 1 && |RunCode(z)| <= z
    ensures forall i :: 0 <= i < |RunCode(z)| ==> 0 <= RunCode(z)[i] <= 1
  {
    if z > 0 {
      RunCodeShort((z - 1) / 2);
    }
  }

  /** One digit d with k digits before it adds (d + 1) * 2^k. */
  lemma DigitValue(z: nat, k: nat)
    requires z > 0
    ensures ShiftLeft(z, k) == (if (z - 1) % 2 == 0 then Pow2(k) else 2 * Pow2(k)) + ShiftLeft((z - 1) / 2, k + 1)
  {
    var d := (z - 1) % 2 + 1;
    Canonical.ShiftLeftSum(d, 2 * ((z - 1) / 2), k);
    Canonical.ShiftPow2(0, k);
    Canonical.ShiftPow2(1, k);
  }

  /** The digits of a run, read inside a run, add its length scaled by the digits already read. */
  lemma {:induction false} ReadRun(u: Decoder, z: nat, k: nat, rest: seq<int>, max: nat)
    requires u.list != [] && u.inRun && u.n == Pow2(k) && Pow2(k + |RunCode(z)|) <= RUN_GUARD
    requires forall i :: 0 <= i < |rest| ==> 0 <= rest[i] < |u.list| + 2
    ensures forall i :: 0 <= i < |RunCode(z) + rest| ==> 0 <= (RunCode(z) + rest)[i] < |u.list| + 2
    ensures TakeAll(u, RunCode(z) + rest, max)
         == TakeAll(RunEnd(u, z, k), rest, max)
    decreases z
  {
    RunCodeShort(z);
    if z == 0 {
      Canonical.ShiftLeftZero(k);
      assert RunCode(z) + rest == rest;
    } else {
      var v := Digit(u, (z - 1) % 2);
      Pow2Mono(k + 1, k + |RunCode(z)|);
      ReadRun(v, (z - 1) / 2, k + 1, rest, max);
      DigitValue(z, k);
      assert RunEnd(v, (z - 1) / 2, k + 1) == RunEnd(u, z, k);
      ReadDigit(u, z, rest, max);
    }
  }

  /** A run with one more digit, and at its end. */
  function Digit(u: Decoder, d: int): Decoder {
    u.(es := u.es + (if d == 0 then u.n else 2 * u.n), n := 2 * u.n)
  }

  function RunEnd(u: Decoder, z: nat, k: nat): Decoder {
    u.(es := u.es + ShiftLeft(z, k), n := Pow2(k + |RunCode(z)|))
  }

  lemma ReadDigit(u: Decoder, z: nat, rest: seq<int>, max: nat)
    requires u.list != [] && u.inRun && u.n < RUN_GUARD && z > 0
    requires forall i :: 0 <= i < |rest| ==> 0 <= rest[i] < |u.list| + 2
    ensures forall i :: 0 <= i < |RunCode(z) + rest| ==> 0 <= (RunCode(z) + rest)[i] < |u.list| + 2
    ensures InRange(RunCode((z - 1) / 2) + rest, |u.list| + 2)
    ensures TakeAll(u, RunCode(z) + rest, max) == TakeAll(Digit(u, (z - 1) % 2), RunCode((z - 1) / 2) + rest, max)
  {
    RunCodeShort((z - 1) / 2);
    var d, more := (z - 1) % 2, RunCode((z - 1) / 2);
    DigitThen(u, d, more + rest, max);
    assert RunCode(z) + rest == [d] + (more + rest);
  }

  /** A run digit, inside a run that is not too long yet. */
  lemma DigitThen(u: Decoder, d: int, rest: seq<int>, max: nat)
    requires u.list != [] && u.inRun && u.n < RUN_GUARD && 0 <= d < 2
    requires forall i :: 0 <= i < |rest| ==> 0 <= rest[i] < |u.list| + 2
    ensures forall i :: 0 <= i < |[d] + rest| ==> 0 <= ([d] + rest)[i] < |u.list| + 2
    ensures TakeAll(u, [d] + rest, max) == TakeAll(Digit(u, d), rest, max)
  {
    assert ([d] + rest)[1..] == rest;
  }

  /** A run read from its first digit. */
  lemma ReadWholeRun(u: Decoder, z: nat, rest: seq<int>, max: nat)
    requires u.list != [] && !u.inRun && 0 < z < RUN_GUARD
    requires forall i :: 0 <= i < |rest| ==> 0 <= rest[i] < |u.list| + 2
    ensures forall i :: 0 <= i < |RunCode(z) + rest| ==> 0 <= (RunCode(z) + rest)[i] < |u.list| + 2
    ensures TakeAll(u, RunCode(z) + rest, max)
         == TakeAll(u.(es := z - 1, n := Pow2(|RunCode(z)|), inRun := true), rest, max)
  {
    RunCodeShort(z);
    var v := u.(es := -1, n := 1, inRun := true);
    ReadRun(v, z, 0, rest, max);
    assert (RunCode(z) + rest)[0] == (z - 1) % 2;
  }

  /** What follows the pending run: the run is written out and the symbol acted on. */
  lemma AfterRun(u: Decoder, z: nat, sym: int, rest: seq<int>, max: nat)
    requires u.list != [] && !u.inRun && z < RUN_GUARD && |u.col| + z <= max
    requires 2 <= sym < |u.list| + 2 && forall i :: 0 <= i < |rest| ==> 0 <= rest[i] < |u.list| + 2
    ensures var all := RunCode(z) + ([sym] + rest);
            var col := u.col + Repeat(u.list[0], z);
            && (forall i :: 0 <= i < |all| ==> 0 <= all[i] < |u.list| + 2)
            && (sym == |u.list| + 1 ==> TakeAll(u, all, max) == Done(col))
            && (sym <= |u.list| && |col| < max ==>
                  exists v: Decoder :: v.list == MoveToFront(u.list, sym - 1) && v.col == col + [u.list[sym - 1]] && !v.inRun
                    && TakeAll(u, all, max) == TakeAll(v, rest, max))
  {
    var col := u.col + Repeat(u.list[0], z);
    var w := if z == 0 then u else u.(es := z - 1, n := Pow2(|RunCode(z)|), inRun := true);
    if z == 0 {
      assert RunCode(z) + ([sym] + rest) == [sym] + rest;
      assert u.col + [] == u.col;
    } else {
      ReadWholeRun(u, z, [sym] + rest, max);
    }
    assert ([sym] + rest)[1..] == rest;
    if sym <= |u.list| && |col| < max {
      var v := w.(list := MoveToFront(u.list, sym - 1), col := col + [u.list[sym - 1]], inRun := false);
      assert TakeSymbol(w, sym, max) == More(v);
      assert TakeAll(w, [sym] + rest, max) == TakeAll(v, rest, max);
    }
  }

  /** Symbols are in range, the end marker comes exactly once, last, and there are at most |s| + z + 1. */
  lemma {:induction false} SymbolsShape(l: seq<byte>, s: seq<byte>, z: nat)
    requires l != [] && forall x :: x in s ==> x in l
    ensures var y := Symbols(l, s, z);
            && 1 <= |y| <= |s| + z + 1 && y[|y| - 1] == |l| + 1
            && forall i :: 0 <= i < |y| - 1 ==> 0 <= y[i] <= |l|
    decreases |s|
  {
    RunCodeShort(z);
    if s != [] {
      assert s[0] in s;
      assert forall x :: x in s[1..] ==> x in s;
      if s[0] == l[0] {
        SymbolsShape(l, s[1..], z + 1);
      } else {
        var j := IndexOf(l, s[0]);
        KeepsElements(l, j);
        SymbolsShape(MoveToFront(l, j), s[1..], 0);
      }
    }
  }

  lemma Tail(s: seq<byte>, l: seq<byte>)
    requires s != [] && forall x :: x in s ==> x in l
    ensures s[0] in l && (forall x :: x in s[1..] ==> x in l) && s == [s[0]] + s[1..]
  {
    assert s[0] in s;
    assert forall x :: x in s[1..] ==> x in s;
  }

  /** Up to and including the first byte that is not at the front. */
  lemma PastOne(u: Decoder, s: seq<byte>, z: nat, max: nat) returns (v: Decoder)
    requires u.list != [] && !u.inRun && s != [] && (forall x :: x in s ==> x in u.list) && s[0] != u.list[0]
    requires |u.col| + z < max && z < RUN_GUARD
    ensures v.list != [] && !v.inRun && (forall x :: x in s[1..] ==> x in v.list)
    ensures v.col == u.col + Repeat(u.list[0], z) + [s[0]]
    ensures |v.list| == |u.list| && InRange(Symbols(u.list, s, z), |u.list| + 2) && InRange(Symbols(v.list, s[1..], 0), |u.list| + 2)
    ensures TakeAll(u, Symbols(u.list, s, z), max) == TakeAll(v, Symbols(v.list, s[1..], 0), max)
  {
    var l := u.list;
    Tail(s, l);
    var j := IndexOf(l, s[0]);
    KeepsElements(l, j);
    var rest := Symbols(MoveToFront(l, j), s[1..], 0);
    SymbolsShape(MoveToFront(l, j), s[1..], 0);
    AfterRun(u, z, j + 1, rest, max);
    assert Symbols(l, s, z) == RunCode(z) + ([j + 1] + rest);
    v :| v.list == MoveToFront(l, j) && v.col == u.col + Repeat(l[0], z) + [l[j]] && !v.inRun
         && TakeAll(u, Symbols(l, s, z), max) == TakeAll(v, rest, max);
  }

  /** Decoding inverts encoding. */
  lemma {:induction false} RoundTrip(u: Decoder, s: seq<byte>, z: nat, max: nat)
    requires u.list != [] && !u.inRun && (forall x :: x in s ==> x in u.list)
    requires |u.col| + z + |s| <= max && z + |s| < RUN_GUARD
    ensures InRange(Symbols(u.list, s, z), |u.list| + 2)
    ensures TakeAll(u, Symbols(u.list, s, z), max) == Done(u.col + Repeat(u.list[0], z) + s)
    decreases |s|
  {
    var l := u.list;
    var col := u.col + Repeat(l[0], z);
    if s == [] {
      AfterRun(u, z, |l| + 1, [], max);
      assert [|l| + 1] + [] == [|l| + 1];
      assert col + s == col;
    } else {
      Tail(s, l);
      if s[0] == l[0] {
        RoundTrip(u, s[1..], z + 1, max);
        assert u.col + Repeat(l[0], z + 1) + s[1..] == col + s;
      } else {
        var v := PastOne(u, s, z, max);
        RoundTrip(v, s[1..], 0, max);
        assert v.col + Repeat(v.list[0], 0) + s[1..] == col + s;
      }
    }
  }
}
