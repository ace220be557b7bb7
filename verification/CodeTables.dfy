/**
 * The first half of sendMTFValues: how many code tables, which one codes each group of fifty
 * symbols, and the code lengths. What the decoder relies on is that every table is a complete
 * code of lengths 1..17 and every selector names a table; what makes the stream short is that
 * every pass takes the cheapest table for each group and then the cheapest codes for each table.
 */
module CodeTables {
  import opened Bits
  import opened Canonical
  import opened CodeLengths
  import opened Parser

  const ITERATIONS: nat := 4
  const LESSER_ICOST: int := 0
  const GREATER_ICOST: int := 15

  function GroupCount(nMTF: nat): nat {
    if nMTF < 200 then 2 else if nMTF < 600 then 3 else if nMTF < 1200 then 4 else if nMTF < 2400 then 5 else 6
  }

  /** Rows of costs, before and between the passes. */
  ghost predicate Costs(len: seq<seq<int>>, nGroups: nat, alphaSize: nat) {
    |len| == nGroups && forall t :: 0 <= t < nGroups ==> |len[t]| == alphaSize && forall v :: 0 <= v < alphaSize ==> 0 <= len[t][v] <= 17
  }

  ghost predicate Complete(row: seq<int>) {
    Lengths(row, 17) && Kraft(row, 17) == Pow2(17)
  }

  /** The frequency of the symbols gs..ge, both included. */
  function Between(freq: seq<nat>, gs: nat, ge: int): nat
    requires gs - 1 <= ge < |freq|
    decreases ge
  {
    if ge == gs - 1 then 0 else Between(freq, gs, ge - 1) + freq[ge]
  }

  /** The first symbol at which a group from gs on has its share, or the last symbol of all. */
  ghost predicate Full(freq: seq<nat>, gs: nat, ge: int, share: int) {
    && gs - 1 <= ge < |freq| && (Between(freq, gs, ge) >= share || ge == |freq| - 1)
    && forall e :: gs - 1 <= e < ge ==> Between(freq, gs, e) < share
  }

  /** Where one initial group ends: as soon as it has its share of the total frequency, or one symbol before that. */
  method InitialGroup(mtfFreq: seq<nat>, gs: nat, tFreq: int, back: bool) returns (ge: int, aFreq: int, ghost end: int)
    requires gs <= |mtfFreq|
    ensures Full(mtfFreq, gs, end, tFreq) && ge == (if back && end > gs then end - 1 else end)
    ensures gs - 1 <= ge < |mtfFreq| && aFreq == Between(mtfFreq, gs, ge)
  {
    ge, aFreq := gs - 1, 0;
    while aFreq < tFreq && ge < |mtfFreq| - 1
      invariant gs - 1 <= ge < |mtfFreq| && aFreq == Between(mtfFreq, gs, ge)
      invariant forall e :: gs - 1 <= e < ge ==> Between(mtfFreq, gs, e) < tFreq
    {
      ge := ge + 1;
      aFreq := aFreq + mtfFreq[ge];
    }
    end := ge;
    if ge > gs && back {
      aFreq := aFreq - mtfFreq[ge];
      ge := ge - 1;
    }
  }

  function InitialRow(alphaSize: nat, gs: int, ge: int): (row: seq<int>)
    ensures |row| == alphaSize && forall v :: 0 <= v < alphaSize ==> 0 <= row[v] <= 17
  {
    seq(alphaSize, v => if gs <= v <= ge then LESSER_ICOST else GREATER_ICOST)
  }

  /** Row t is cheap for its own stretch of the alphabet; the stretches run from the last row to the first. */
  ghost predicate Partition(len: seq<seq<int>>, alphaSize: nat, cuts: seq<int>, from: int) {
    && |cuts| == |len| + 1 && 0 <= from <= |len| && cuts[|len|] == 0 && (forall t :: from <= t <= |len| ==> 0 <= cuts[t] <= alphaSize)
    && forall t :: from <= t < |len| ==> cuts[t + 1] <= cuts[t] && len[t] == InitialRow(alphaSize, cuts[t + 1], cuts[t] - 1)
  }

  method InitialTables(mtfFreq: seq<nat>, nMTF: nat, nGroups: nat) returns (len: seq<seq<int>>, ghost cuts: seq<int>)
    requires nGroups >= 1
    ensures Costs(len, nGroups, |mtfFreq|) && Partition(len, |mtfFreq|, cuts, 0)
  {
    len := seq(nGroups, _ => InitialRow(|mtfFreq|, 0, -1));
    var nPart, remF, gs := nGroups, nMTF as int, 0;
    cuts := seq(nGroups + 1, _ => 0);
    while nPart > 0
      invariant 0 <= nPart <= nGroups && 0 <= gs <= |mtfFreq| && Costs(len, nGroups, |mtfFreq|)
      invariant Partition(len, |mtfFreq|, cuts, nPart) && cuts[nPart] == gs
    {
      var tFreq := if remF >= 0 then remF / nPart else 0;
      var ge, aFreq;
      ghost var end;
      ge, aFreq, end := InitialGroup(mtfFreq, gs, tFreq, nPart != nGroups && nPart != 1 && (nGroups - nPart) % 2 == 1);
      len := len[nPart - 1 := InitialRow(|mtfFreq|, gs, ge)];
      cuts := cuts[nPart - 1 := ge + 1];
      nPart, gs, remF := nPart - 1, ge + 1, remF - aFreq;
    }
  }

  /** The bits symbols gs..ge take under one table. */
  function CostOf(row: seq<int>, syms: seq<int>, gs: nat, ge: nat): (c: int)
    requires gs <= ge <= |syms| && forall i :: 0 <= i < |syms| ==> 0 <= syms[i] < |row|
  {
    if gs == ge then 0 else CostOf(row, syms, gs, ge - 1) + row[syms[ge - 1]]
  }

  /** At most fifty symbols of at most 17 bits. */
  method Cost(row: seq<int>, syms: seq<int>, gs: nat, ge: nat) returns (c: nat)
    requires gs <= ge <= |syms| && ge - gs <= GROUP_SIZE && (forall v :: 0 <= v < |row| ==> 0 <= row[v] <= 17)
    requires forall i :: 0 <= i < |syms| ==> 0 <= syms[i] < |row|
    ensures c == CostOf(row, syms, gs, ge) <= 17 * (ge - gs)
  {
    c := 0;
    for i := gs to ge
      invariant c == CostOf(row, syms, gs, i) <= 17 * (i - gs)
    {
      c := c + row[syms[i]];
    }
  }

  /** No table codes the group in fewer bits than table bt. */
  ghost predicate Best(len: seq<seq<int>>, alphaSize: nat, syms: seq<int>, gs: nat, ge: nat, bt: int)
    requires Costs(len, |len|, alphaSize) && gs <= ge <= |syms| && forall i :: 0 <= i < |syms| ==> 0 <= syms[i] < alphaSize
  {
    0 <= bt < |len| && forall t :: 0 <= t < |len| ==> CostOf(len[bt], syms, gs, ge) <= CostOf(len[t], syms, gs, ge)
  }

  /** The table that is cheapest for a group; its 16-bit cost cannot overflow. */
  method Cheapest(len: seq<seq<int>>, alphaSize: nat, syms: seq<int>, gs: nat, ge: nat) returns (bt: int)
    requires |len| >= 1 && Costs(len, |len|, alphaSize) && gs <= ge <= |syms| && ge - gs <= GROUP_SIZE
    requires forall i :: 0 <= i < |syms| ==> 0 <= syms[i] < alphaSize
    ensures Best(len, alphaSize, syms, gs, ge, bt)
  {
    var bc := 999999999;
    bt := -1;
    for t := 0 to |len|
      invariant if t == 0 then bt == -1 && bc == 999999999 else 0 <= bt < t && bc == CostOf(len[bt], syms, gs, ge)
      invariant forall u :: 0 <= u < t ==> bc <= CostOf(len[u], syms, gs, ge)
    {
      var cost := Cost(len[t], syms, gs, ge);
      assert cost < 65536;
      if cost < bc { bc, bt := cost, t; }
    }
  }

  lemma {:induction false} SumUpdate(f: seq<nat>, i: nat)
    requires i < |f|
    ensures Sum(f[i := f[i] + 1]) == Sum(f) + 1
    decreases |f|
  {
    var g := f[i := f[i] + 1];
    if i < |f| - 1 {
      SumUpdate(f[..|f| - 1], i);
      assert g[..|f| - 1] == f[..|f| - 1][i := f[i] + 1];
    } else {
      assert g[..|f| - 1] == f[..|f| - 1];
    }
  }

  lemma {:induction false} SumZeros(n: nat)
    ensures Sum(seq(n, _ => 0)) == 0
  {
    if n > 0 {
      SumZeros(n - 1);
      assert seq(n, _ => 0)[..n - 1] == seq(n - 1, _ => 0);
    }
  }

  /** Occurrences of symbol v among symbols gs..ge. */
  function Times(syms: seq<int>, v: int, gs: nat, ge: nat): nat
    requires gs <= ge <= |syms|
  {
    if gs == ge then 0 else Times(syms, v, gs, ge - 1) + if syms[ge - 1] == v then 1 else 0
  }

  /** Occurrences of symbol v among the first n, in groups for which table t was selected. */
  function Uses(syms: seq<int>, selectors: seq<int>, t: int, v: int, n: nat): nat
    requires n <= |syms| && n <= GROUP_SIZE * |selectors|
  {
    if n == 0 then 0 else Uses(syms, selectors, t, v, n - 1) + if syms[n - 1] == v && selectors[(n - 1) / GROUP_SIZE] == t then 1 else 0
  }

  lemma {:induction false} UsesSame(syms: seq<int>, selectors: seq<int>, bt: int, t: int, v: int, n: nat)
    requires n <= |syms| && n <= GROUP_SIZE * |selectors|
    ensures Uses(syms, selectors + [bt], t, v, n) == Uses(syms, selectors, t, v, n)
  {
    if n > 0 {
      UsesSame(syms, selectors, bt, t, v, n - 1);
    }
  }

  lemma {:induction false} UsesMore(syms: seq<int>, selectors: seq<int>, bt: int, t: int, v: int, ge: nat)
    requires GROUP_SIZE * |selectors| <= ge <= |syms| && ge <= GROUP_SIZE * |selectors| + GROUP_SIZE
    ensures var gs := GROUP_SIZE * |selectors|;
            Uses(syms, selectors + [bt], t, v, ge) == Uses(syms, selectors, t, v, gs) + if t == bt then Times(syms, v, gs, ge) else 0
    decreases ge
  {
    if ge == GROUP_SIZE * |selectors| {
      UsesSame(syms, selectors, bt, t, v, ge);
    } else {
      UsesMore(syms, selectors, bt, t, v, ge - 1);
      assert (ge - 1) / GROUP_SIZE == |selectors|;
    }
  }

  /** Frequencies of the first n symbols, by the table selected for them. */
  ghost predicate Tallied(rfreq: seq<seq<nat>>, nGroups: nat, alphaSize: nat, syms: seq<int>, selectors: seq<int>, n: nat)
    requires n <= |syms| && n <= GROUP_SIZE * |selectors|
  {
    && |rfreq| == nGroups && (forall t :: 0 <= t < nGroups ==> |rfreq[t]| == alphaSize && Sum(rfreq[t]) <= n)
    && forall t, v :: 0 <= t < nGroups && 0 <= v < alphaSize ==> rfreq[t][v] == Uses(syms, selectors, t, v, n)
  }

  method Tally(row0: seq<nat>, syms: seq<int>, gs: nat, ge: nat) returns (row: seq<nat>)
    requires gs <= ge <= |syms| && forall i :: 0 <= i < |syms| ==> 0 <= syms[i] < |row0|
    ensures |row| == |row0| && Sum(row) == Sum(row0) + (ge - gs)
    ensures forall v :: 0 <= v < |row| ==> row[v] == row0[v] + Times(syms, v, gs, ge)
  {
    row := row0;
    for i := gs to ge
      invariant |row| == |row0| && Sum(row) == Sum(row0) + (i - gs)
      invariant forall v :: 0 <= v < |row| ==> row[v] == row0[v] + Times(syms, v, gs, i)
    {
      SumUpdate(row, syms[i]);
      row := row[syms[i] := row[syms[i]] + 1];
    }
  }

  lemma TalliedMore(rfreq: seq<seq<nat>>, nGroups: nat, alphaSize: nat, syms: seq<int>, selectors: seq<int>, bt: nat, row: seq<nat>, ge: nat)
    requires bt < nGroups && GROUP_SIZE * |selectors| <= ge <= |syms| && ge <= GROUP_SIZE * |selectors| + GROUP_SIZE
    requires Tallied(rfreq, nGroups, alphaSize, syms, selectors, GROUP_SIZE * |selectors|) && |row| == alphaSize
    requires Sum(row) <= Sum(rfreq[bt]) + (ge - GROUP_SIZE * |selectors|)
    requires forall v :: 0 <= v < |row| ==> row[v] == rfreq[bt][v] + Times(syms, v, GROUP_SIZE * |selectors|, ge)
    ensures Tallied(rfreq[bt := row], nGroups, alphaSize, syms, selectors + [bt], ge)
  {
    forall t, v | 0 <= t < nGroups && 0 <= v < alphaSize
      ensures rfreq[bt := row][t][v] == Uses(syms, selectors + [bt], t, v, ge)
    {
      UsesMore(syms, selectors, bt, t, v, ge);
    }
  }

  /** Where group k of fifty symbols ends. */
  function GroupEnd(k: nat, n: nat): (ge: nat)
    ensures ge <= n && ge <= GROUP_SIZE * k + GROUP_SIZE
  {
    if GROUP_SIZE * k + GROUP_SIZE > n then n else GROUP_SIZE * k + GROUP_SIZE
  }

  /** Each group's selector names a table that is cheapest for it. */
  ghost predicate AllBest(len: seq<seq<int>>, alphaSize: nat, syms: seq<int>, selectors: seq<int>)
    requires Costs(len, |len|, alphaSize) && (forall i :: 0 <= i < |syms| ==> 0 <= syms[i] < alphaSize)
    requires GROUP_SIZE * |selectors| < |syms| + GROUP_SIZE
  {
    forall k :: 0 <= k < |selectors| ==> Best(len, alphaSize, syms, GROUP_SIZE * k, GroupEnd(k, |syms|), selectors[k])
  }

  /** One pass over the groups: a selector for each fifty symbols. */
  method SelectAll(len: seq<seq<int>>, alphaSize: nat, syms: seq<int>) returns (selectors: seq<int>, rfreq: seq<seq<nat>>)
    requires |len| >= 1 && Costs(len, |len|, alphaSize)
    requires forall i :: 0 <= i < |syms| ==> 0 <= syms[i] < alphaSize
    ensures |syms| <= GROUP_SIZE * |selectors| < |syms| + GROUP_SIZE
    ensures AllBest(len, alphaSize, syms, selectors)
    ensures Tallied(rfreq, |len|, alphaSize, syms, selectors, |syms|)
  {
    SumZeros(alphaSize);
    selectors, rfreq := [], seq(|len|, _ => seq(alphaSize, _ => 0));
    var gs := 0;
    while gs < |syms|
      invariant 0 <= gs <= |syms| && (gs == GROUP_SIZE * |selectors| || (gs == |syms| && gs <= GROUP_SIZE * |selectors| < gs + GROUP_SIZE))
      invariant AllBest(len, alphaSize, syms, selectors)
      invariant Tallied(rfreq, |len|, alphaSize, syms, selectors, gs)
    {
      var ge := if gs + GROUP_SIZE > |syms| then |syms| else gs + GROUP_SIZE;
      var bt := Cheapest(len, alphaSize, syms, gs, ge);
      var row := Tally(rfreq[bt], syms, gs, ge);
      TalliedMore(rfreq, |len|, alphaSize, syms, selectors, bt, row, ge);
      selectors, rfreq := selectors + [bt], rfreq[bt := row];
      gs := ge;
    }
  }

  method NewRow(freq: seq<nat>) returns (row: seq<int>)
    requires 2 <= |freq| <= MAX_ALPHA_SIZE && Sum(freq) <= 900001
    ensures |row| == |freq| && Complete(row) && Cheap(freq, row, 17)
  {
    var len := new int[|freq|];
    WeighedSum(freq);
    ghost var rounds := MakeCodeLengths(len, freq, 17);
    row := len[..|freq|];
  }

  method NewTables(rfreq: seq<seq<nat>>, alphaSize: nat) returns (len: seq<seq<int>>)
    requires 2 <= alphaSize <= MAX_ALPHA_SIZE && forall t :: 0 <= t < |rfreq| ==> |rfreq[t]| == alphaSize && Sum(rfreq[t]) <= 900001
    ensures |len| == |rfreq| && forall t :: 0 <= t < |len| ==> |len[t]| == alphaSize && Complete(len[t]) && Cheap(rfreq[t], len[t], 17)
  {
    len := [];
    for t := 0 to |rfreq|
      invariant |len| == t && forall i :: 0 <= i < t ==> |len[i]| == alphaSize && Complete(len[i]) && Cheap(rfreq[i], len[i], 17)
    {
      var row := NewRow(rfreq[t]);
      len := len + [row];
    }
  }

  /** One pass: cheapest tables for the groups, then cheapest codes for what each table has to code. */
  ghost predicate Pass(before: seq<seq<int>>, after: seq<seq<int>>, nGroups: nat, alphaSize: nat, syms: seq<int>, selectors: seq<int>, rfreq: seq<seq<nat>>) {
    && Costs(before, nGroups, alphaSize) && (forall i :: 0 <= i < |syms| ==> 0 <= syms[i] < alphaSize)
    && |syms| <= GROUP_SIZE * |selectors| < |syms| + GROUP_SIZE && AllBest(before, alphaSize, syms, selectors)
    && Tallied(rfreq, nGroups, alphaSize, syms, selectors, |syms|)
    && |after| == nGroups && forall t :: 0 <= t < nGroups ==> Cheap(rfreq[t], after[t], 17)
  }

  ghost predicate Passed(before: seq<seq<int>>, after: seq<seq<int>>, nGroups: nat, alphaSize: nat, syms: seq<int>, selectors: seq<int>) {
    exists rfreq :: Pass(before, after, nGroups, alphaSize, syms, selectors, rfreq)
  }

  /** The tables after each pass, from the initial ones, and the selectors of each. */
  ghost predicate Passes(len: seq<seq<seq<int>>>, sel: seq<seq<int>>, nGroups: nat, alphaSize: nat, syms: seq<int>) {
    && |len| == |sel| + 1 && Costs(len[0], nGroups, alphaSize) && (exists cuts :: Partition(len[0], alphaSize, cuts, 0))
    && forall i :: 0 <= i < |sel| ==> Passed(len[i], len[i + 1], nGroups, alphaSize, syms, sel[i])
  }

  lemma OnePass(len: seq<seq<seq<int>>>, sel: seq<seq<int>>, nGroups: nat, alphaSize: nat, syms: seq<int>,
                selectors: seq<int>, rfreq: seq<seq<nat>>, after: seq<seq<int>>)
    requires Passes(len, sel, nGroups, alphaSize, syms) && Pass(len[|sel|], after, nGroups, alphaSize, syms, selectors, rfreq)
    ensures Passes(len + [after], sel + [selectors], nGroups, alphaSize, syms)
  {
    var l, s := len + [after], sel + [selectors];
    assert l[0] == len[0];
    forall i | 0 <= i < |s|
      ensures Passed(l[i], l[i + 1], nGroups, alphaSize, syms, s[i])
    {
      if i == |sel| {
        assert Passed(len[i], after, nGroups, alphaSize, syms, selectors);
      } else {
        assert Passed(len[i], len[i + 1], nGroups, alphaSize, syms, sel[i]);
      }
    }
  }

  /** The book is what four passes arrive at. */
  ghost predicate Refined(book: Book, alphaSize: nat, syms: seq<int>) {
    exists len, sel :: Passes(len, sel, GroupCount(|syms|), alphaSize, syms) && |sel| == ITERATIONS
                       && book.tables == len[ITERATIONS] && book.selectors == sel[ITERATIONS - 1]
  }

  /** Four passes; the selectors of the last one go with the tables made from it. */
  method Choose(syms: seq<int>, mtfFreq: seq<nat>) returns (book: Book)
    requires 1 <= |syms| <= 900001 && 3 <= |mtfFreq| <= MAX_ALPHA_SIZE
    requires forall i :: 0 <= i < |syms| ==> 0 <= syms[i] < |mtfFreq|
    ensures |book.tables| == GroupCount(|syms|) && InvBook(book, |mtfFreq|)
    ensures forall t :: 0 <= t < |book.tables| ==> Complete(book.tables[t])
    ensures |syms| <= GROUP_SIZE * |book.selectors| < |syms| + GROUP_SIZE
    ensures Refined(book, |mtfFreq|, syms)
  {
    var nGroups, alphaSize := GroupCount(|syms|), |mtfFreq|;
    var len;
    ghost var cuts;
    len, cuts := InitialTables(mtfFreq, |syms|, nGroups);
    var selectors: seq<int> := [];
    ghost var tables: seq<seq<seq<int>>>, sel: seq<seq<int>> := [len], [];
    assert Partition(tables[0], alphaSize, cuts, 0);
    for iter := 0 to ITERATIONS
      invariant Costs(len, nGroups, alphaSize)
      invariant iter > 0 ==> |syms| <= GROUP_SIZE * |selectors| < |syms| + GROUP_SIZE
      invariant forall i :: 0 <= i < |selectors| ==> 0 <= selectors[i] < nGroups
      invariant iter > 0 ==> forall t :: 0 <= t < nGroups ==> Complete(len[t])
      invariant |sel| == iter && Passes(tables, sel, nGroups, alphaSize, syms) && tables[iter] == len
      invariant iter > 0 ==> sel[iter - 1] == selectors
    {
      var rfreq;
      selectors, rfreq := SelectAll(len, alphaSize, syms);
      ghost var before := len;
      len := NewTables(rfreq, alphaSize);
      assert Pass(before, len, nGroups, alphaSize, syms, selectors, rfreq);
      OnePass(tables, sel, nGroups, alphaSize, syms, selectors, rfreq, len);
      tables, sel := tables + [len], sel + [selectors];
    }
    assert nGroups < 8 && |selectors| < 32768 && |selectors| <= MAX_SELECTORS;
    book := Book(selectors, len);
  }
}
