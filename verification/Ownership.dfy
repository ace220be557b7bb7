/**
 * Who owns a graphics buffer: the GUI thread and the renderer thread share three lists under one lock,
 * so each critical section is one step, and the steps of the two threads interleave in any order.
 */
module Ownership {
  /** The address of a buffer; every allocation has its own. */
  type addr = nat

  /** Where the renderer thread is: between rounds, after attaching, drawing a buffer without the lock, or done drawing. */
  datatype Phase = Waiting | Attached | Drawing(buffer: addr) | Drawn

  /** The three lists, first element first, the buffers freed so far and those that GL knows. */
  datatype State = State(added: seq<addr>, attached: seq<addr>, removed: seq<addr>, freed: seq<addr>, gl: set<addr>, phase: Phase)

  const START := State([], [], [], [], {}, Waiting)

  datatype Step =
    // GUI thread
    | Add(buffer: addr)
    | Remove(id: nat)
    | RemoveAll
    // renderer thread
    | Attach
    | Begin(id: nat)
    | End
    | Release

  datatype Option = None | Some(value: addr)

  type Ids = addr -> nat

  /** LorieBufferList_findById. */
  function Find(id: Ids, s: seq<addr>, n: nat): (r: Option)
    ensures match r
            case Some(b) => b in s && id(b) == n
            case None => forall b :: b in s ==> id(b) != n
  {
    if s == [] then None else if id(s[0]) == n then Some(s[0]) else Find(id, s[1..], n)
  }

  function Without(s: seq<addr>, b: addr): (r: seq<addr>)
    ensures multiset(r) == multiset(s)[b := 0]
  {
    if s == [] then [] else
      assert s == [s[0]] + s[1..];
      if s[0] == b then Without(s[1..], b) else [s[0]] + Without(s[1..], b)
  }

  function Reversed(s: seq<addr>): seq<addr> {
    if s == [] then [] else Reversed(s[1..]) + [s[0]]
  }

  lemma {:induction false} ReversedBag(s: seq<addr>)
    ensures multiset(Reversed(s)) == multiset(s)
  {
    if s != [] {
      ReversedBag(s[1..]);
      assert s == [s[0]] + s[1..];
    }
  }

  function Removed(id: Ids, s: State, n: nat): State {
    match Find(id, s.added, n)
    case Some(b) => s.(added := Without(s.added, b), freed := s.freed + [b])
    case None =>
      match Find(id, s.attached, n)
      case Some(b) => s.(attached := Without(s.attached, b), removed := [b] + s.removed)
      case None => s
  }

  function Found(id: Ids, s: State, n: nat): Phase {
    match Find(id, s.attached, n)
    case Some(b) => Drawing(b)
    case None =>
      match Find(id, s.removed, n)
      case Some(b) => Drawing(b)
      case None => Drawn
  }

  function Next(id: Ids, s: State, step: Step): State {
    match step
    case Add(b) =>
      s.(added := [b] + Without(s.added, b), attached := Without(s.attached, b), removed := Without(s.removed, b))
    case Remove(n) => Removed(id, s, n)
    case RemoveAll =>
      s.(added := [], freed := s.freed + s.added, attached := [], removed := Reversed(s.attached) + s.removed)
    case Attach =>
      s.(added := [], attached := Reversed(s.added) + s.attached, gl := s.gl + (set b | b in s.added), phase := Attached)
    case Begin(n) => s.(phase := Found(id, s, n))
    case End => s.(phase := Drawn)
    case Release => s.(removed := [], freed := s.freed + s.removed, phase := Waiting)
  }

  /** A buffer is drawn exactly when one with the id is attached or, its removal being asked for, about to be freed. */
  lemma DrawnWhenFound(id: Ids, s: State, n: nat)
    ensures Next(id, s, Begin(n)).phase.Drawing? <==> exists b :: (b in s.attached || b in s.removed) && id(b) == n
    ensures var p := Next(id, s, Begin(n)).phase;
            p.Drawing? ==> id(p.buffer) == n && (p.buffer in s.attached || (p.buffer in s.removed && forall b :: b in s.attached ==> id(b) != n))
  {
  }

  /** A buffer that is being removed is still displayed, until the renderer frees it. */
  lemma ShownOnceMore(id: Ids, s: State, b: addr)
    requires s.phase == Attached && b in s.attached && (forall x :: x in s.added || x in s.attached || x in s.removed ==> (id(x) == id(b) <==> x == b))
    requires b !in s.added
    ensures Next(id, Next(id, s, Remove(id(b))), Begin(id(b))).phase == Drawing(b)
  {
    var s' := Next(id, s, Remove(id(b)));
    assert s'.removed[0] == b;
    forall x | x in s'.attached
      ensures x in s.attached
    {
      assert x in multiset(s'.attached);
    }
  }

  /** What each thread may do next: the renderer goes round its loop, the GUI hands over live buffers. */
  predicate Enabled(s: State, step: Step) {
    match step
    case Add(b) => b !in s.freed
    case Remove(_) => true
    case RemoveAll => true
    case Attach => s.phase.Waiting?
    case Begin(_) => s.phase.Attached?
    case End => s.phase.Drawing?
    case Release => s.phase.Attached? || s.phase.Drawn?
  }

  /** The lists without their order. */
  datatype Bags = Bags(added: multiset<addr>, attached: multiset<addr>, removed: multiset<addr>, freed: multiset<addr>)

  function Contents(s: State): Bags {
    Bags(multiset(s.added), multiset(s.attached), multiset(s.removed), multiset(s.freed))
  }

  /** Every buffer handed over, with how often it is in a list or was freed. */
  function Everything(c: Bags): multiset<addr> {
    c.added + c.attached + c.removed + c.freed
  }

  /**
   * Each buffer handed over is in exactly one list or has been freed once; GL knows the buffers of the second
   * and third list and none of the first; and the buffer being drawn is in one of those GL knows.
   */
  ghost predicate Kept(c: Bags, gl: set<addr>, phase: Phase) {
    && (forall b :: Everything(c)[b] <= 1)
    && (forall b :: b in c.attached || b in c.removed ==> b in gl)
    && (forall b :: b in c.added ==> b !in gl)
    && (phase.Drawing? ==> phase.buffer in c.attached || phase.buffer in c.removed)
  }

  ghost predicate Safe(s: State) {
    Kept(Contents(s), s.gl, s.phase)
  }

  /** Freeing a buffer that GL does not know. */
  lemma FreeOne(c: Bags, gl: set<addr>, phase: Phase, b: addr, c': Bags)
    requires Kept(c, gl, phase) && b in c.added
    requires c' == Bags(c.added[b := 0], c.attached, c.removed, c.freed + multiset{b})
    ensures Kept(c', gl, phase) && Everything(c') == Everything(c)
  {
    assert Everything(c)[b] == 1;
    forall x ensures Everything(c')[x] == Everything(c)[x] {}
  }

  /** Moving one that GL knows to the list of those to be freed. */
  lemma MoveOne(c: Bags, gl: set<addr>, phase: Phase, b: addr, c': Bags)
    requires Kept(c, gl, phase) && b in c.attached
    requires c' == Bags(c.added, c.attached[b := 0], c.removed + multiset{b}, c.freed)
    ensures Kept(c', gl, phase) && Everything(c') == Everything(c)
  {
    assert Everything(c)[b] == 1;
    forall x ensures Everything(c')[x] == Everything(c)[x] {}
  }

  lemma FreedSafe(s: State, b: addr, s': State)
    requires Safe(s) && b in s.added && s' == s.(added := Without(s.added, b), freed := s.freed + [b])
    ensures Safe(s') && Everything(Contents(s')) == Everything(Contents(s))
  {
    assert b in multiset(s.added);
    FreeOne(Contents(s), s.gl, s.phase, b, Contents(s'));
  }

  lemma MovedBags(s: State, b: addr, s': State)
    requires b in s.attached && s' == s.(attached := Without(s.attached, b), removed := [b] + s.removed)
    ensures var c := Contents(s);
            b in c.attached && Contents(s') == Bags(c.added, c.attached[b := 0], c.removed + multiset{b}, c.freed)
  {
    assert b in multiset(s.attached);
    FrontBag(b, s.removed);
  }

  lemma FrontBag(b: addr, t: seq<addr>)
    ensures multiset([b] + t) == multiset(t) + multiset{b}
  {
  }

  lemma MovedSafe(s: State, b: addr, s': State)
    requires Safe(s) && b in s.attached && s' == s.(attached := Without(s.attached, b), removed := [b] + s.removed)
    ensures Safe(s') && Everything(Contents(s')) == Everything(Contents(s))
  {
    MovedBags(s, b, s');
    MoveOne(Contents(s), s.gl, s.phase, b, Contents(s'));
  }

  lemma RemovedSafe(id: Ids, s: State, n: nat)
    requires Safe(s)
    ensures Safe(Removed(id, s, n)) && Everything(Contents(Removed(id, s, n))) == Everything(Contents(s))
  {
    match Find(id, s.added, n)
    case Some(b) => FreedSafe(s, b, Removed(id, s, n));
    case None =>
      match Find(id, s.attached, n)
      case Some(b) => MovedSafe(s, b, Removed(id, s, n));
      case None =>
  }

  lemma RemoveAllSafe(c: Bags, gl: set<addr>, phase: Phase, c': Bags)
    requires Kept(c, gl, phase) && c' == Bags(multiset{}, multiset{}, c.attached + c.removed, c.freed + c.added)
    ensures Kept(c', gl, phase) && Everything(c') == Everything(c)
  {
    forall x ensures Everything(c')[x] == Everything(c)[x] {}
  }

  lemma AttachSafe(c: Bags, gl: set<addr>, c': Bags, gl': set<addr>)
    requires Kept(c, gl, Waiting) && (forall b :: b in gl' <==> b in gl || b in c.added)
    requires c' == Bags(multiset{}, c.added + c.attached, c.removed, c.freed)
    ensures Kept(c', gl', Attached) && Everything(c') == Everything(c)
  {
    forall x ensures Everything(c')[x] == Everything(c)[x] {}
  }

  lemma ReleaseSafe(c: Bags, gl: set<addr>, phase: Phase, c': Bags)
    requires Kept(c, gl, phase) && c' == Bags(c.added, c.attached, multiset{}, c.freed + c.removed)
    ensures Kept(c', gl, Waiting) && Everything(c') == Everything(c)
  {
    forall x ensures Everything(c')[x] == Everything(c)[x] {}
  }

  lemma AddKept(c: Bags, gl: set<addr>, phase: Phase, b: addr, c': Bags)
    requires Kept(c, gl, phase) && b !in c.freed
    requires c' == Bags(c.added[b := 0] + multiset{b}, c.attached[b := 0], c.removed[b := 0], c.freed)
    ensures Kept(c', gl, phase) <==> b !in gl
    ensures Everything(c') == Everything(c)[b := 1]
  {
    assert b in c'.added;
    forall x ensures Everything(c')[x] == if x == b then 1 else Everything(c)[x] {}
  }

  /** Handing over a live buffer is safe exactly when GL does not know it yet. */
  lemma AddSafe(id: Ids, s: State, b: addr)
    requires Safe(s) && b !in s.freed
    ensures Safe(Next(id, s, Add(b))) <==> b !in s.gl
    ensures Everything(Contents(Next(id, s, Add(b)))) == Everything(Contents(s))[b := 1]
  {
    AddKept(Contents(s), s.gl, s.phase, b, Contents(Next(id, s, Add(b))));
  }

  predicate Legal(s: State, step: Step) {
    Enabled(s, step) && (step.Add? ==> step.buffer !in s.gl)
  }

  lemma JoinedBag(s: seq<addr>, t: seq<addr>)
    ensures multiset(Reversed(s) + t) == multiset(s) + multiset(t)
  {
    ReversedBag(s);
  }

  lemma AttachBags(id: Ids, s: State)
    ensures var c, s' := Contents(s), Next(id, s, Attach);
            Contents(s') == Bags(multiset{}, c.added + c.attached, c.removed, c.freed) && forall b :: b in s'.gl <==> b in s.gl || b in c.added
  {
    JoinedBag(s.added, s.attached);
  }

  lemma RemoveAllBags(id: Ids, s: State)
    ensures var c := Contents(s);
            Contents(Next(id, s, RemoveAll)) == Bags(multiset{}, multiset{}, c.attached + c.removed, c.freed + c.added)
  {
    JoinedBag(s.attached, s.removed);
  }

  lemma AttachStep(id: Ids, s: State)
    requires Safe(s) && s.phase == Waiting
    ensures Safe(Next(id, s, Attach)) && Everything(Contents(Next(id, s, Attach))) == Everything(Contents(s))
  {
    AttachBags(id, s);
    AttachSafe(Contents(s), s.gl, Contents(Next(id, s, Attach)), Next(id, s, Attach).gl);
  }

  lemma RemoveAllStep(id: Ids, s: State)
    requires Safe(s)
    ensures Safe(Next(id, s, RemoveAll)) && Everything(Contents(Next(id, s, RemoveAll))) == Everything(Contents(s))
  {
    RemoveAllBags(id, s);
    RemoveAllSafe(Contents(s), s.gl, s.phase, Contents(Next(id, s, RemoveAll)));
  }

  lemma BeginKept(c: Bags, gl: set<addr>, phase: Phase, phase': Phase)
    requires Kept(c, gl, phase) && (phase'.Drawing? ==> phase'.buffer in c.attached || phase'.buffer in c.removed)
    ensures Kept(c, gl, phase')
  {
  }

  lemma BeginStep(id: Ids, s: State, n: nat)
    requires Safe(s)
    ensures Safe(Next(id, s, Begin(n))) && Everything(Contents(Next(id, s, Begin(n)))) == Everything(Contents(s))
  {
    BeginKept(Contents(s), s.gl, s.phase, Found(id, s, n));
  }

  lemma ReleaseStep(id: Ids, s: State)
    requires Safe(s)
    ensures Safe(Next(id, s, Release)) && Everything(Contents(Next(id, s, Release))) == Everything(Contents(s))
  {
    ReleaseSafe(Contents(s), s.gl, s.phase, Contents(Next(id, s, Release)));
  }

  /** A step keeps the state safe, and only handing one over adds to the buffers. */
  lemma StepSafe(id: Ids, s: State, step: Step)
    requires Safe(s) && Legal(s, step)
    ensures Safe(Next(id, s, step))
    ensures Everything(Contents(Next(id, s, step)))
         == if step.Add? then Everything(Contents(s))[step.buffer := 1] else Everything(Contents(s))
  {
    match step
    case Add(b) => AddSafe(id, s, b);
    case Remove(n) => RemovedSafe(id, s, n);
    case RemoveAll => RemoveAllStep(id, s);
    case Attach => AttachStep(id, s);
    case Begin(n) => BeginStep(id, s, n);
    case End =>
    case Release => ReleaseStep(id, s);
  }

  // Whole runs

  function Run(id: Ids, s: State, steps: seq<Step>): State
    decreases |steps|
  {
    if steps == [] then s else Run(id, Next(id, s, steps[0]), steps[1..])
  }

  predicate LegalRun(id: Ids, s: State, steps: seq<Step>)
    decreases |steps|
  {
    steps == [] || (Legal(s, steps[0]) && LegalRun(id, Next(id, s, steps[0]), steps[1..]))
  }

  /** In every reachable state of every interleaving; the buffers are those handed over, each once. */
  lemma {:induction false} RunSafe(id: Ids, s: State, steps: seq<Step>)
    requires Safe(s) && LegalRun(id, s, steps)
    ensures Safe(Run(id, s, steps))
    ensures forall b :: b in Everything(Contents(Run(id, s, steps))) <==> b in Everything(Contents(s)) || Add(b) in steps
    decreases |steps|
  {
    if steps != [] {
      StepSafe(id, s, steps[0]);
      RunSafe(id, Next(id, s, steps[0]), steps[1..]);
    }
  }

  predicate EnabledRun(id: Ids, s: State, steps: seq<Step>)
    decreases |steps|
  {
    steps == [] || (Enabled(s, steps[0]) && EnabledRun(id, Next(id, s, steps[0]), steps[1..]))
  }

  /** No buffer is handed over a second time: what the GUI thread can see to by itself. */
  predicate HandedOnce(steps: seq<Step>) {
    steps == [] || ((steps[0].Add? ==> steps[0] !in steps[1..]) && HandedOnce(steps[1..]))
  }

  /** A buffer that was not handed over stays unknown. */
  lemma StaysUnknown(id: Ids, s: State, step: Step, b: addr)
    requires b !in s.gl && b !in s.added && step != Add(b)
    ensures b !in Next(id, s, step).gl && b !in Next(id, s, step).added
  {
    var s' := Next(id, s, step);
    assert b !in multiset(s.added);
    assert b !in multiset(s'.added);
  }

  lemma {:induction false} OnceLegal(id: Ids, s: State, steps: seq<Step>)
    requires EnabledRun(id, s, steps) && HandedOnce(steps)
    requires forall b :: Add(b) in steps ==> b !in s.gl && b !in s.added
    ensures LegalRun(id, s, steps)
    decreases |steps|
  {
    if steps != [] {
      assert steps[0] in steps;
      forall b | Add(b) in steps[1..]
        ensures b !in Next(id, s, steps[0]).gl && b !in Next(id, s, steps[0]).added
      {
        StaysUnknown(id, s, steps[0], b);
      }
      OnceLegal(id, Next(id, s, steps[0]), steps[1..]);
    }
  }

  /** What the renderer relies on: the buffer being drawn has not been freed. */
  predicate DrawnLives(s: State) {
    s.phase.Drawing? ==> s.phase.buffer !in s.freed
  }

  lemma DrawnKept(s: State)
    requires Safe(s)
    ensures DrawnLives(s)
  {
    if s.phase.Drawing? {
      assert Everything(Contents(s))[s.phase.buffer] <= 1;
    }
  }

  /** The caller's condition is enough for every interleaving: all is safe, and the buffer being drawn lives. */
  lemma OnceSafe(id: Ids, steps: seq<Step>)
    requires EnabledRun(id, START, steps) && HandedOnce(steps)
    ensures LegalRun(id, START, steps) && Safe(Run(id, START, steps)) && DrawnLives(Run(id, START, steps))
  {
    OnceLegal(id, START, steps);
    RunSafe(id, START, steps);
    DrawnKept(Run(id, START, steps));
  }

  /** A buffer GL knows is freed only by the renderer's own step, when it draws nothing. */
  lemma FreedByRenderer(id: Ids, s: State, step: Step, b: addr)
    requires Safe(s) && Legal(s, step) && b in s.gl && b !in s.freed && b in Next(id, s, step).freed
    ensures step == Release && !s.phase.Drawing?
  {
  }

  /** Handing over a live buffer that GL knows lets the GUI thread free it. */
  lemma FreedByGui(id: Ids, s: State, b: addr)
    requires Safe(s) && b in s.gl && b !in s.freed
    ensures var s' := Next(id, s, Add(b)); Enabled(s, Add(b)) && b in s'.gl && b !in s'.freed && b in Next(id, s', Remove(id(b))).freed
  {
  }

  // What the GUI thread does decides

  predicate ByGui(step: Step) {
    step.Add? || step.Remove? || step.RemoveAll?
  }

  function Gui(steps: seq<Step>): seq<Step> {
    if steps == [] then [] else if ByGui(steps[0]) then [steps[0]] + Gui(steps[1..]) else Gui(steps[1..])
  }

  /** No step of the GUI thread frees a buffer that GL knows. */
  ghost predicate Harmless(id: Ids, s: State, steps: seq<Step>)
    decreases |steps|
  {
    steps != [] ==>
      && (ByGui(steps[0]) ==> forall b :: b in s.gl && b !in s.freed ==> b !in Next(id, s, steps[0]).freed)
      && Harmless(id, Next(id, s, steps[0]), steps[1..])
  }

  lemma {:induction false} LegalHarmless(id: Ids, s: State, steps: seq<Step>)
    requires Safe(s) && LegalRun(id, s, steps)
    ensures Harmless(id, s, steps)
    decreases |steps|
  {
    if steps != [] {
      var s' := Next(id, s, steps[0]);
      forall b | b in s.gl && b !in s.freed && b in s'.freed
        ensures !ByGui(steps[0])
      {
        FreedByRenderer(id, s, steps[0], b);
      }
      StepSafe(id, s, steps[0]);
      LegalHarmless(id, s', steps[1..]);
    }
  }

  /** The GUI thread has done some of g, and perhaps removed one buffer after that. */
  ghost predicate Follows(gui: seq<Step>, g: seq<Step>) {
    exists k: nat :: k <= |g| && (gui == g[..k] || (exists n :: gui == g[..k] + [Remove(n)]))
  }

  lemma {:induction false} OnceThen(p: seq<Step>, x: Step)
    ensures HandedOnce(p + [x]) <==> HandedOnce(p) && (x.Add? ==> x !in p)
  {
    if p != [] {
      OnceThen(p[1..], x);
      assert (p + [x])[1..] == p[1..] + [x];
      assert p == [p[0]] + p[1..];
    }
  }

  lemma {:induction false} OncePrefix(g: seq<Step>, k: nat)
    requires HandedOnce(g) && k <= |g|
    ensures HandedOnce(g[..k])
    decreases |g|
  {
    if k < |g| {
      var p := g[..|g| - 1];
      assert g == p + [g[|g| - 1]];
      OnceThen(p, g[|g| - 1]);
      OncePrefix(p, k);
      assert p[..k] == g[..k];
    } else {
      assert g[..k] == g;
    }
  }

  lemma {:induction false} GuiAdds(steps: seq<Step>, b: addr)
    ensures Add(b) in steps <==> Add(b) in Gui(steps)
  {
    if steps != [] {
      GuiAdds(steps[1..], b);
      assert steps == [steps[0]] + steps[1..];
    }
  }

  lemma {:induction false} GuiOnce(steps: seq<Step>)
    requires HandedOnce(Gui(steps))
    ensures HandedOnce(steps)
  {
    if steps != [] {
      if ByGui(steps[0]) {
        assert Gui(steps)[1..] == Gui(steps[1..]);
        if steps[0].Add? {
          GuiAdds(steps[1..], steps[0].buffer);
        }
      }
      GuiOnce(steps[1..]);
    }
  }

  lemma FollowsOnce(gui: seq<Step>, g: seq<Step>)
    requires HandedOnce(g) && Follows(gui, g)
    ensures HandedOnce(gui)
  {
    var k: nat :| k <= |g| && (gui == g[..k] || (exists n :: gui == g[..k] + [Remove(n)]));
    OncePrefix(g, k);
    if gui != g[..k] {
      var n :| gui == g[..k] + [Remove(n)];
      OnceThen(g[..k], Remove(n));
    }
  }

  // A schedule in which a second hand-over does harm

  lemma {:induction false} RunAppend(id: Ids, s: State, u: seq<Step>, v: seq<Step>)
    ensures Run(id, s, u + v) == Run(id, Run(id, s, u), v)
    ensures EnabledRun(id, s, u + v) <==> EnabledRun(id, s, u) && EnabledRun(id, Run(id, s, u), v)
    ensures Harmless(id, s, u + v) ==> Harmless(id, Run(id, s, u), v)
    decreases |u|
  {
    if u == [] {
      assert u + v == v;
    } else {
      assert (u + v)[1..] == u[1..] + v;
      RunAppend(id, Next(id, s, u[0]), u[1..], v);
    }
  }

  lemma {:induction false} GuiAppend(u: seq<Step>, v: seq<Step>)
    ensures Gui(u + v) == Gui(u) + Gui(v)
  {
    if u == [] {
      assert u + v == v;
    } else {
      assert (u + v)[1..] == u[1..] + v;
      GuiAppend(u[1..], v);
    }
  }

  ghost predicate OnlyGui(steps: seq<Step>) {
    forall x :: x in steps ==> ByGui(x)
  }

  lemma {:induction false} GuiOfGui(steps: seq<Step>)
    requires OnlyGui(steps)
    ensures Gui(steps) == steps
  {
    if steps != [] {
      assert steps[0] in steps;
      GuiOfGui(steps[1..]);
    }
  }

  ghost predicate New(s: State, b: addr) {
    b !in Everything(Contents(s)) && b !in s.gl
  }

  lemma GuiKeeps(id: Ids, s: State, step: Step)
    requires ByGui(step)
    ensures Next(id, s, step).phase == s.phase && Next(id, s, step).gl == s.gl
  {
  }

  lemma NewStep(id: Ids, s: State, step: Step)
    requires Safe(s) && ByGui(step) && (step.Add? ==> New(s, step.buffer))
    ensures Enabled(s, step) && Safe(Next(id, s, step))
    ensures forall b :: New(s, b) && step != Add(b) ==> New(Next(id, s, step), b)
  {
    if step.Add? {
      assert step.buffer !in multiset(s.freed);
    }
    StepSafe(id, s, step);
    GuiKeeps(id, s, step);
  }

  ghost predicate AllNew(s: State, steps: seq<Step>) {
    forall b :: Add(b) in steps ==> New(s, b)
  }

  lemma NewRest(id: Ids, s: State, steps: seq<Step>)
    requires Safe(s) && steps != [] && OnlyGui(steps) && HandedOnce(steps) && AllNew(s, steps)
    ensures Enabled(s, steps[0]) && Safe(Next(id, s, steps[0]))
    ensures OnlyGui(steps[1..]) && AllNew(Next(id, s, steps[0]), steps[1..])
  {
    assert steps[0] in steps;
    NewStep(id, s, steps[0]);
    forall b | Add(b) in steps[1..]
      ensures New(Next(id, s, steps[0]), b)
    {
      assert Add(b) in steps;
    }
  }

  /** New buffers can always be handed over. */
  lemma {:induction false} NewEnabled(id: Ids, s: State, steps: seq<Step>)
    requires Safe(s) && OnlyGui(steps) && HandedOnce(steps) && AllNew(s, steps)
    ensures EnabledRun(id, s, steps)
    ensures Run(id, s, steps).phase == s.phase && Run(id, s, steps).gl == s.gl
    decreases |steps|
  {
    if steps != [] {
      NewRest(id, s, steps);
      assert ByGui(steps[0]);
      GuiKeeps(id, s, steps[0]);
      NewEnabled(id, Next(id, s, steps[0]), steps[1..]);
    }
  }

  lemma {:induction false} OnceApart(u: seq<Step>, v: seq<Step>)
    requires HandedOnce(u + v)
    ensures HandedOnce(v) && forall b :: Add(b) in v ==> Add(b) !in u
  {
    if u == [] {
      assert u + v == v;
    } else {
      assert (u + v)[1..] == u[1..] + v;
      OnceApart(u[1..], v);
      assert u == [u[0]] + u[1..];
    }
  }

  lemma {:induction false} HarmlessAlive(id: Ids, s: State, steps: seq<Step>, b: addr)
    requires OnlyGui(steps) && Harmless(id, s, steps) && b in s.gl && b !in s.freed
    ensures b in Run(id, s, steps).gl && b !in Run(id, s, steps).freed
    decreases |steps|
  {
    if steps != [] {
      assert steps[0] in steps;
      GuiKeeps(id, s, steps[0]);
      HarmlessAlive(id, Next(id, s, steps[0]), steps[1..], b);
    }
  }

  /** Whatever the GUI thread did first, the renderer waits and other buffers are new. */
  lemma StillNew(id: Ids, u: seq<Step>)
    requires OnlyGui(u) && HandedOnce(u)
    ensures var s := Run(id, START, u); EnabledRun(id, START, u) && Safe(s) && s.phase == Waiting
    ensures forall x :: Add(x) !in u ==> New(Run(id, START, u), x)
  {
    NewEnabled(id, START, u);
    OnceSafe(id, u);
    RunSafe(id, START, u);
  }

  lemma AddedLast(id: Ids, s: State, u: seq<Step>, b: addr)
    ensures b in Run(id, s, u + [Add(b)]).added
  {
    RunAppend(id, s, u, [Add(b)]);
    assert Run(id, Run(id, s, u), [Add(b)]) == Next(id, Run(id, s, u), Add(b));
  }

  lemma AttachOne(id: Ids, s: State, b: addr)
    requires Safe(s) && s.phase == Waiting && b in s.added
    ensures var s' := Next(id, s, Attach); Safe(s') && b in s'.gl && b !in s'.freed
  {
    AttachStep(id, s);
    assert Everything(Contents(s))[b] <= 1 && b in multiset(s.added);
  }

  lemma AttachOthers(id: Ids, s: State, x: addr)
    requires Safe(s) && s.phase == Waiting && New(s, x)
    ensures New(Next(id, s, Attach), x)
  {
    AttachStep(id, s);
    AttachBags(id, s);
  }

  /** Whatever the GUI thread does after that without handing b over again, b lives. */
  lemma KnownAlive(id: Ids, s: State, v: seq<Step>, b: addr)
    requires Safe(s) && OnlyGui(v) && HandedOnce(v) && AllNew(s, v) && b in s.gl && b !in s.freed
    ensures var s' := Run(id, s, v); EnabledRun(id, s, v) && Safe(s') && b in s'.gl && b !in s'.freed
  {
    NewEnabled(id, s, v);
    forall x | Add(x) in v
      ensures x !in s.gl && x !in s.added
    {
      assert New(s, x);
      assert x !in multiset(s.added);
    }
    OnceLegal(id, s, v);
    RunSafe(id, s, v);
    LegalHarmless(id, s, v);
    HarmlessAlive(id, s, v, b);
  }

  /** The schedule: all of u and the first hand-over of b, then the renderer attaches, then v, b again, and its removal. */
  function Mischief(id: Ids, u: seq<Step>, v: seq<Step>, b: addr): seq<Step> {
    (u + [Add(b)]) + ([Attach] + (v + [Add(b), Remove(id(b))]))
  }

  lemma OneStep(id: Ids, s: State, x: Step)
    ensures Run(id, s, [x]) == Next(id, s, x) && (EnabledRun(id, s, [x]) <==> Enabled(s, x)) && (PossibleRun(id, s, [x]) <==> Possible(s, x))
  {
    assert [x][1..] == [];
  }

  lemma OneFrees(id: Ids, s: State, x: Step, b: addr)
    requires ByGui(x) && b in s.gl && b !in s.freed && b in Next(id, s, x).freed
    ensures !Harmless(id, s, [x])
  {
  }

  lemma Harm(id: Ids, s: State, b: addr)
    requires Safe(s) && b in s.gl && b !in s.freed
    ensures EnabledRun(id, s, [Add(b), Remove(id(b))]) && !Harmless(id, s, [Add(b), Remove(id(b))])
  {
    FreedByGui(id, s, b);
    var first, last := [Add(b)], [Remove(id(b))];
    var s' := Next(id, s, Add(b));
    OneStep(id, s, Add(b));
    OneStep(id, s', Remove(id(b)));
    OneFrees(id, s', Remove(id(b)), b);
    RunAppend(id, s, first, last);
    assert first + last == [Add(b), Remove(id(b))];
  }

  lemma MischiefHarms(id: Ids, u: seq<Step>, v: seq<Step>, b: addr)
    requires OnlyGui(u) && OnlyGui(v) && HandedOnce((u + [Add(b)]) + v)
    ensures EnabledRun(id, START, Mischief(id, u, v, b)) && !Harmless(id, START, Mischief(id, u, v, b))
  {
    var w := u + [Add(b)];
    OncePrefix(w + v, |w|);
    assert (w + v)[..|w|] == w;
    OnceApart(w, v);
    StillNew(id, w);
    AddedLast(id, START, u, b);
    var s1 := Run(id, START, w);
    AttachOne(id, s1, b);
    var s2 := Next(id, s1, Attach);
    forall x | Add(x) in v
      ensures New(s2, x)
    {
      AttachOthers(id, s1, x);
    }
    KnownAlive(id, s2, v, b);
    var last := [Add(b), Remove(id(b))];
    Harm(id, Run(id, s2, v), b);
    RunAppend(id, s2, v, last);
    var rest := [Attach] + (v + last);
    assert rest[1..] == v + last;
    RunAppend(id, START, w, rest);
  }

  lemma {:induction false} FirstRepeat(g: seq<Step>) returns (i: nat, j: nat)
    requires !HandedOnce(g)
    ensures i < j < |g| && g[j].Add? && g[i] == g[j] && HandedOnce(g[..j])
    decreases |g|
  {
    var p := g[..|g| - 1];
    assert g == p + [g[|g| - 1]];
    if HandedOnce(p) {
      OnceThen(p, g[|g| - 1]);
      j := |g| - 1;
      i :| 0 <= i < |p| && p[i] == g[j];
    } else {
      i, j := FirstRepeat(p);
      assert p[..j] == g[..j];
    }
  }

  lemma MischiefGui(id: Ids, u: seq<Step>, v: seq<Step>, b: addr)
    requires OnlyGui(u) && OnlyGui(v)
    ensures Gui(Mischief(id, u, v, b)) == (u + [Add(b)]) + (v + [Add(b), Remove(id(b))])
  {
    var w, z := u + [Add(b)], v + [Add(b), Remove(id(b))];
    GuiAppend(w, [Attach] + z);
    assert ([Attach] + z)[1..] == z;
    GuiOfGui(w);
    GuiOfGui(z);
  }

  lemma Rejoined(g: seq<Step>, i: nat, j: nat, x: Step)
    requires i < j < |g| && g[i] == g[j]
    ensures (g[..i] + [g[i]]) + (g[i + 1..j] + [g[i], x]) == g[..j + 1] + [x]
  {
    assert g[..i] + [g[i]] == g[..i + 1];
    assert g[..j + 1] == g[..i + 1] + g[i + 1..j] + [g[j]];
  }

  lemma MischiefFollows(id: Ids, g: seq<Step>, i: nat, j: nat)
    requires OnlyGui(g) && i < j < |g| && g[j].Add? && g[i] == g[j]
    ensures Follows(Gui(Mischief(id, g[..i], g[i + 1..j], g[i].buffer)), g)
  {
    MischiefGui(id, g[..i], g[i + 1..j], g[i].buffer);
    Rejoined(g, i, j, Remove(id(g[i].buffer)));
  }

  /**
   * Exactly when the GUI thread hands over no buffer twice, no schedule of the renderer beside it lets it free a
   * buffer that GL knows, wherever it stops to remove one more.
   */
  lemma HandedOnceExact(id: Ids, g: seq<Step>)
    requires OnlyGui(g)
    ensures HandedOnce(g) <==> forall r :: EnabledRun(id, START, r) && Follows(Gui(r), g) ==> Harmless(id, START, r)
  {
    if HandedOnce(g) {
      forall r | EnabledRun(id, START, r) && Follows(Gui(r), g)
        ensures Harmless(id, START, r)
      {
        FollowsOnce(Gui(r), g);
        GuiOnce(r);
        OnceLegal(id, START, r);
        LegalHarmless(id, START, r);
      }
    } else {
      var i, j := FirstRepeat(g);
      var b, u, v := g[i].buffer, g[..i], g[i + 1..j];
      assert (u + [Add(b)]) + v == g[..j];
      MischiefHarms(id, u, v, b);
      MischiefFollows(id, g, i, j);
    }
  }

  // Handing over a buffer that is gone

  /** The renderer's loop alone: the GUI thread may hand over anything. */
  predicate Possible(s: State, step: Step) {
    step.Add? || Enabled(s, step)
  }

  predicate PossibleRun(id: Ids, s: State, steps: seq<Step>)
    decreases |steps|
  {
    steps == [] || (Possible(s, steps[0]) && PossibleRun(id, Next(id, s, steps[0]), steps[1..]))
  }

  lemma {:induction false} WithoutIn(s: seq<addr>, b: addr, x: addr)
    ensures x in Without(s, b) <==> x in s && x != b
  {
    assert x in multiset(Without(s, b)) <==> x in multiset(s) && x != b;
  }

  lemma ReversedIn(s: seq<addr>, x: addr)
    ensures x in Reversed(s) <==> x in s
  {
    ReversedBag(s);
    assert x in multiset(Reversed(s)) <==> x in multiset(s);
  }

  /** Handed over at some time: in a list or freed. */
  predicate Known(s: State, b: addr) {
    b in s.added || b in s.attached || b in s.removed || b in s.freed
  }

  lemma RemoveAccounted(id: Ids, s: State, n: nat, b: addr)
    ensures Known(Removed(id, s, n), b) <==> Known(s, b)
  {
    match Find(id, s.added, n)
    case Some(x) => WithoutIn(s.added, x, b);
    case None =>
      match Find(id, s.attached, n)
      case Some(x) => WithoutIn(s.attached, x, b);
      case None =>
  }

  lemma AddAccounted(id: Ids, s: State, x: addr, b: addr)
    ensures Known(Next(id, s, Add(x)), b) <==> Known(s, b) || x == b
  {
    WithoutIn(s.added, x, b);
    WithoutIn(s.attached, x, b);
    WithoutIn(s.removed, x, b);
  }

  /** No step but handing it over makes a buffer appear, and none makes it vanish. */
  lemma Accounted(id: Ids, s: State, step: Step, b: addr)
    ensures Known(Next(id, s, step), b) <==> Known(s, b) || step == Add(b)
  {
    match step
    case Add(x) => AddAccounted(id, s, x, b);
    case Remove(n) => RemoveAccounted(id, s, n, b);
    case RemoveAll => ReversedIn(s.attached, b);
    case Attach => ReversedIn(s.added, b);
    case _ =>
  }

  lemma {:induction false} NewAlive(id: Ids, s: State, steps: seq<Step>)
    requires PossibleRun(id, s, steps) && HandedOnce(steps) && forall b :: Add(b) in steps ==> !Known(s, b)
    ensures EnabledRun(id, s, steps)
    decreases |steps|
  {
    if steps != [] {
      assert steps[0] in steps;
      forall b | Add(b) in steps[1..]
        ensures !Known(Next(id, s, steps[0]), b)
      {
        assert Add(b) in steps;
        Accounted(id, s, steps[0], b);
      }
      NewAlive(id, Next(id, s, steps[0]), steps[1..]);
    }
  }

  /** A GUI thread that hands over no buffer twice never hands over one that has been freed. */
  lemma OnceEnabled(id: Ids, steps: seq<Step>)
    requires PossibleRun(id, START, steps) && HandedOnce(steps)
    ensures EnabledRun(id, START, steps)
  {
    NewAlive(id, START, steps);
  }

  // The buffer being drawn

  lemma FrontStep(id: Ids, s: State, x: Step, rest: seq<Step>)
    ensures Run(id, s, [x] + rest) == Run(id, Next(id, s, x), rest)
    ensures EnabledRun(id, s, [x] + rest) <==> Enabled(s, x) && EnabledRun(id, Next(id, s, x), rest)
    ensures PossibleRun(id, s, [x] + rest) <==> Possible(s, x) && PossibleRun(id, Next(id, s, x), rest)
  {
    assert ([x] + rest)[1..] == rest;
  }

  /** The only buffer to attach comes first, so looking for its id finds it. */
  lemma FoundFirst(id: Ids, s: State, b: addr)
    requires s.added == [b]
    ensures var s' := Next(id, s, Attach); Found(id, s', id(b)) == Drawing(b) && b in s'.gl
  {
    assert Reversed([b]) == [b];
    assert Next(id, s, Attach).attached[0] == b;
  }

  /** One round without drawing, then b is handed over, attached and drawn. */
  function DrawSteps(id: Ids, b: addr): seq<Step> {
    [Attach] + ([Release] + ([Add(b)] + ([Attach] + [Begin(id(b))])))
  }

  lemma DrawEnd(id: Ids, s: State, b: addr)
    requires s.phase == Waiting
    ensures var s' := Run(id, s, DrawSteps(id, b)); PossibleRun(id, s, DrawSteps(id, b)) && s'.phase == Drawing(b) && b in s'.gl
  {
    var s1 := Next(id, s, Attach);
    var s2 := Next(id, s1, Release);
    var s3 := Next(id, s2, Add(b));
    var s4 := Next(id, s3, Attach);
    FoundFirst(id, s3, b);
    OneStep(id, s4, Begin(id(b)));
    FrontStep(id, s3, Attach, [Begin(id(b))]);
    FrontStep(id, s2, Add(b), [Attach] + [Begin(id(b))]);
    FrontStep(id, s1, Release, [Add(b)] + ([Attach] + [Begin(id(b))]));
    FrontStep(id, s, Attach, [Release] + ([Add(b)] + ([Attach] + [Begin(id(b))])));
  }

  lemma NewUnknown(s: State, b: addr)
    requires New(s, b)
    ensures !Known(s, b)
  {
    assert b !in multiset(s.added) && b !in multiset(s.attached) && b !in multiset(s.removed) && b !in multiset(s.freed);
  }

  lemma DrawLegal(id: Ids, s: State, b: addr)
    requires s.phase == Waiting && New(s, b)
    ensures EnabledRun(id, s, DrawSteps(id, b)) && LegalRun(id, s, DrawSteps(id, b))
    ensures forall x :: Add(x) in DrawSteps(id, b) <==> x == b
  {
    var r := DrawSteps(id, b);
    DrawEnd(id, s, b);
    DrawStepsGui(id, b);
    GuiOnce(r);
    forall x
      ensures Add(x) in r <==> x == b
    {
      GuiAdds(r, x);
    }
    NewUnknown(s, b);
    NewAlive(id, s, r);
    OnceLegal(id, s, r);
  }

  lemma DrawRun(id: Ids, s: State, b: addr)
    requires Safe(s) && s.phase == Waiting && New(s, b)
    ensures EnabledRun(id, s, DrawSteps(id, b))
    ensures var s' := Run(id, s, DrawSteps(id, b)); Safe(s') && s'.phase == Drawing(b) && b in s'.gl && b !in s'.freed
  {
    DrawLegal(id, s, b);
    DrawEnd(id, s, b);
    RunSafe(id, s, DrawSteps(id, b));
    DrawnKept(Run(id, s, DrawSteps(id, b)));
  }

  lemma {:induction false} RunUnknown(id: Ids, s: State, steps: seq<Step>, b: addr)
    requires b !in s.gl && b !in s.added && Add(b) !in steps
    ensures b !in Run(id, s, steps).gl
    decreases |steps|
  {
    if steps != [] {
      assert steps[0] in steps;
      StaysUnknown(id, s, steps[0], b);
      RunUnknown(id, Next(id, s, steps[0]), steps[1..], b);
    }
  }

  lemma DrawRunNew(id: Ids, s: State, b: addr, x: addr)
    requires Safe(s) && s.phase == Waiting && New(s, b) && New(s, x) && x != b
    ensures New(Run(id, s, DrawSteps(id, b)), x)
  {
    DrawLegal(id, s, b);
    RunSafe(id, s, DrawSteps(id, b));
    NewUnknown(s, x);
    RunUnknown(id, s, DrawSteps(id, b), x);
  }

  lemma FreedWhileDrawn(id: Ids, s: State, b: addr)
    requires s.phase == Drawing(b) && b !in s.freed
    ensures EnabledRun(id, s, [Add(b), Remove(id(b))]) && !DrawnLives(Run(id, s, [Add(b), Remove(id(b))]))
  {
    var s1 := Next(id, s, Add(b));
    assert s1.added[0] == b;
    OneStep(id, s1, Remove(id(b)));
    FrontStep(id, s, Add(b), [Remove(id(b))]);
    assert [Add(b)] + [Remove(id(b))] == [Add(b), Remove(id(b))];
  }

  /** The schedule: u, b handed over and drawn, then v, b again, and its removal. */
  function DrawnMischief(id: Ids, u: seq<Step>, v: seq<Step>, b: addr): seq<Step> {
    u + (DrawSteps(id, b) + (v + [Add(b), Remove(id(b))]))
  }

  lemma DrawnThenFreed(id: Ids, s: State, v: seq<Step>, b: addr)
    requires Safe(s) && s.phase == Drawing(b) && b in s.gl && b !in s.freed && OnlyGui(v) && HandedOnce(v) && AllNew(s, v)
    ensures var r := v + [Add(b), Remove(id(b))]; EnabledRun(id, s, r) && !DrawnLives(Run(id, s, r))
  {
    KnownAlive(id, s, v, b);
    NewEnabled(id, s, v);
    FreedWhileDrawn(id, Run(id, s, v), b);
    RunAppend(id, s, v, [Add(b), Remove(id(b))]);
  }

  lemma DrawnMischiefFrees(id: Ids, u: seq<Step>, v: seq<Step>, b: addr)
    requires OnlyGui(u) && OnlyGui(v) && HandedOnce((u + [Add(b)]) + v)
    ensures EnabledRun(id, START, DrawnMischief(id, u, v, b)) && !DrawnLives(Run(id, START, DrawnMischief(id, u, v, b)))
  {
    var w := u + [Add(b)];
    OncePrefix(w + v, |w|);
    assert (w + v)[..|w|] == w;
    OnceThen(u, Add(b));
    OnceApart(w, v);
    StillNew(id, u);
    var s := Run(id, START, u);
    DrawRun(id, s, b);
    var s' := Run(id, s, DrawSteps(id, b));
    forall x | Add(x) in v
      ensures New(s', x)
    {
      assert Add(x) !in w && Add(b) in w;
      assert Add(x) !in u;
      DrawRunNew(id, s, b, x);
    }
    DrawnThenFreed(id, s', v, b);
    RunAppend(id, s, DrawSteps(id, b), v + [Add(b), Remove(id(b))]);
    RunAppend(id, START, u, DrawSteps(id, b) + (v + [Add(b), Remove(id(b))]));
  }

  lemma DrawStepsGui(id: Ids, b: addr)
    ensures Gui(DrawSteps(id, b)) == [Add(b)]
  {
    var begin := [Begin(id(b))];
    assert Gui(begin) == [] by { assert begin[1..] == []; }
    GuiAppend([Attach], begin);
    GuiAppend([Add(b)], [Attach] + begin);
    GuiAppend([Release], [Add(b)] + ([Attach] + begin));
    GuiAppend([Attach], [Release] + ([Add(b)] + ([Attach] + begin)));
    assert [Attach][1..] == [] && [Release][1..] == [] && [Add(b)][1..] == [];
  }

  lemma DrawnMischiefGui(id: Ids, u: seq<Step>, v: seq<Step>, b: addr)
    requires OnlyGui(u) && OnlyGui(v)
    ensures Gui(DrawnMischief(id, u, v, b)) == (u + [Add(b)]) + (v + [Add(b), Remove(id(b))])
  {
    var z := v + [Add(b), Remove(id(b))];
    GuiAppend(u, DrawSteps(id, b) + z);
    GuiAppend(DrawSteps(id, b), z);
    DrawStepsGui(id, b);
    GuiOfGui(u);
    GuiOfGui(z);
    assert u + ([Add(b)] + z) == (u + [Add(b)]) + z;
  }

  lemma DrawnMischiefFollows(id: Ids, g: seq<Step>, i: nat, j: nat)
    requires OnlyGui(g) && i < j < |g| && g[j].Add? && g[i] == g[j]
    ensures Follows(Gui(DrawnMischief(id, g[..i], g[i + 1..j], g[i].buffer)), g)
  {
    DrawnMischiefGui(id, g[..i], g[i + 1..j], g[i].buffer);
    Rejoined(g, i, j, Remove(id(g[i].buffer)));
  }

  /**
   * Exactly when the GUI thread hands over no buffer twice, the buffer being drawn is alive in every interleaving
   * with the renderer, wherever the GUI thread stops to remove one more.
   */
  lemma DrawnExact(id: Ids, g: seq<Step>)
    requires OnlyGui(g)
    ensures HandedOnce(g) <==> forall r :: EnabledRun(id, START, r) && Follows(Gui(r), g) ==> DrawnLives(Run(id, START, r))
  {
    if HandedOnce(g) {
      forall r | EnabledRun(id, START, r) && Follows(Gui(r), g)
        ensures DrawnLives(Run(id, START, r))
      {
        FollowsOnce(Gui(r), g);
        GuiOnce(r);
        OnceSafe(id, r);
      }
    } else {
      var i, j := FirstRepeat(g);
      var b, u, v := g[i].buffer, g[..i], g[i + 1..j];
      assert (u + [Add(b)]) + v == g[..j];
      DrawnMischiefFrees(id, u, v, b);
      DrawnMischiefFollows(id, g, i, j);
    }
  }

  /** In particular a buffer handed over again while it is drawn can be freed under the renderer. */
  lemma AddedAgain(id: Ids, b: addr)
    ensures var steps := [Add(b), Attach, Begin(id(b)), Add(b), Remove(id(b))];
            var s := Run(id, START, steps);
            EnabledRun(id, START, steps) && s.phase == Drawing(b) && b in s.freed
  {
    var s1 := Next(id, START, Add(b));
    assert s1.added == [b];
    var s2 := Next(id, s1, Attach);
    assert Reversed([b]) == [b] && s2.attached == [b];
    var s3 := Next(id, s2, Begin(id(b)));
    assert s3.phase == Drawing(b);
    var s4 := Next(id, s3, Add(b));
    assert s4.added == [b];
    var s5 := Next(id, s4, Remove(id(b)));
    assert b in s5.freed;
    var steps := [Add(b), Attach, Begin(id(b)), Add(b), Remove(id(b))];
    assert steps[1..][0] == Attach && steps[2..][0] == Begin(id(b)) && steps[3..][0] == Add(b) && steps[4..][0] == Remove(id(b));
    assert steps[1..][1..] == steps[2..] && steps[2..][1..] == steps[3..] && steps[3..][1..] == steps[4..] && steps[4..][1..] == [];
    assert Run(id, s4, steps[4..]) == s5 && EnabledRun(id, s4, steps[4..]);
    assert Run(id, s3, steps[3..]) == s5 && EnabledRun(id, s3, steps[3..]);
    assert Run(id, s2, steps[2..]) == s5 && EnabledRun(id, s2, steps[2..]);
    assert Run(id, s1, steps[1..]) == s5 && EnabledRun(id, s1, steps[1..]);
  }

  /** Otherwise it can: handed over, removed and handed over again. */
  lemma FreedAgain(id: Ids, b: addr)
    ensures var s := Run(id, START, [Add(b), Remove(id(b))]); EnabledRun(id, START, [Add(b), Remove(id(b))]) && b in s.freed && !Enabled(s, Add(b))
  {
    var s1 := Next(id, START, Add(b));
    assert s1.added[0] == b;
    OneStep(id, s1, Remove(id(b)));
    FrontStep(id, START, Add(b), [Remove(id(b))]);
    assert [Add(b)] + [Remove(id(b))] == [Add(b), Remove(id(b))];
  }

  /** After remove-all the lists empty, once the renderer has released, whatever else happens but handing over. */
  lemma {:induction false} NothingLeft(id: Ids, s: State, steps: seq<Step>)
    requires s.added == [] && s.attached == [] && (forall b :: Add(b) !in steps)
    ensures var e := Run(id, s, steps);
            e.added == [] && e.attached == [] && (s.removed == [] || Release in steps ==> e.removed == [])
    decreases |steps|
  {
    if steps != [] {
      assert !steps[0].Add?;
      NothingLeft(id, Next(id, s, steps[0]), steps[1..]);
    }
  }

  /** Remove-all empties the two lists of live buffers: those GL does not know are freed, the others are about to be. */
  lemma RemovedAll(id: Ids, s: State, b: addr)
    ensures var e := Next(id, s, RemoveAll);
            && e.added == [] && e.attached == []
            && (b in e.freed <==> b in s.freed || b in s.added) && (b in e.removed <==> b in s.removed || b in s.attached)
  {
    ReversedIn(s.attached, b);
  }

  /** Removing an id takes a buffer that has it, and no other, out of the lists of live buffers. */
  lemma RemovedOne(id: Ids, s: State, n: nat, b: addr)
    requires forall x, y :: (x in s.added || x in s.attached) && (y in s.added || y in s.attached) && id(x) == id(y) ==> x == y
    ensures var e := Next(id, s, Remove(n));
            && (b in e.added <==> b in s.added && id(b) != n)
            && (b in s.added && id(b) == n ==> b in e.freed)
            && (b in e.attached <==> b in s.attached && (id(b) != n || b in s.added))
            && (b in s.attached && id(b) == n && b !in s.added ==> b in e.removed)
  {
    match Find(id, s.added, n)
    case Some(x) => WithoutIn(s.added, x, b);
    case None =>
      match Find(id, s.attached, n)
      case Some(x) => WithoutIn(s.attached, x, b);
      case None =>
  }

  /** And then exactly the buffers there were have been freed, each once. */
  lemma AllFreed(id: Ids, s: State, steps: seq<Step>)
    requires Safe(s) && LegalRun(id, s, steps) && s.added == [] && s.attached == []
    requires (forall b :: Add(b) !in steps) && (s.removed == [] || Release in steps)
    ensures forall b :: multiset(Run(id, s, steps).freed)[b] == if b in Everything(Contents(s)) then 1 else 0
  {
    NothingLeft(id, s, steps);
    RunSafe(id, s, steps);
    var e := Run(id, s, steps);
    assert Everything(Contents(e)) == multiset(e.freed);
    forall b
      ensures multiset(e.freed)[b] == if b in Everything(Contents(s)) then 1 else 0
    {
      assert Everything(Contents(e))[b] <= 1;
      assert b in Everything(Contents(e)) <==> b in Everything(Contents(s)) || Add(b) in steps;
    }
  }
}
