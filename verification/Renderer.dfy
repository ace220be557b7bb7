/** The buffer lists of the renderer in memory: what the two threads do while they hold the lock. */
module Renderer {
  import opened IntrusiveList
  import opened Ownership

  /** The static list heads. */
  const ADDED := 0
  const BUFFERS := 1
  const REMOVED := 2

  class Renderer {
    /** The descriptor's id of each buffer. */
    const id: Ids
    /** The link fields and reference counts of the memory that is allocated. */
    var m: Links
    var refcount: map<addr, int>
    /** Where the renderer thread is, with the pointer it draws from. */
    var phase: Phase
    ghost var l: lists
    ghost var freed: seq<addr>
    ghost var gl: set<addr>

    ghost function View(): State
      reads this
    {
      State(l[0], l[1], l[2], freed, gl, phase)
    }

    /** The links form the three lists, freed memory is gone, and a list holds the only reference to its buffers. */
    ghost predicate Sound()
      reads this
    {
      Shape(m, l) && Gone(m, freed) && Counted(refcount, l)
    }

    constructor (id: Ids)
      ensures Sound() && View() == START && this.id == id
    {
      this.id := id;
      m := Links(map[ADDED := ADDED, BUFFERS := BUFFERS, REMOVED := REMOVED], map[ADDED := ADDED, BUFFERS := BUFFERS, REMOVED := REMOVED]);
      refcount, phase, l, freed, gl := map[], Waiting, [[], [], []], [], {};
    }

    /** xorg_list_del, writing only to allocated memory. */
    method Unlink(b: addr)
      requires b in m.next && m.next[b] in m.prev && b in m.prev && m.prev[b] in m.next
      modifies this`m
      ensures m == Del(old(m), b)
    {
      var prev, next := m.prev[b], m.next[b];
      m := m.(prev := m.prev[next := prev]);
      m := m.(next := m.next[prev := next]);
      m := Links(m.next[b := b], m.prev[b := b]);
    }

    /** LorieBuffer_addToList. */
    method AddToList(b: addr, h: nat)
      requires Shape(m, l) && h < 3 && Linked(m, l, b)
      modifies this`m, this`l
      ensures Shape(m, l) && l == Taken(old(l), b)[h := [b] + Taken(old(l), b)[h]]
      ensures Gone(old(m), freed) ==> Gone(m, freed)
    {
      DelAny(m, l, b);
      Unlink(b);
      l := Taken(l, b);
      InsertShape(m, l, h, b);
      var next := m.next[h];
      m := m.(prev := m.prev[next := b]);
      m := m.(next := m.next[b := next]);
      m := m.(prev := m.prev[b := h]);
      m := m.(next := m.next[h := b]);
      l := l[h := [b] + l[h]];
    }

    /** __LorieBuffer_free, as far as memory goes. */
    method Free(b: addr)
      requires Sound() && Linked(m, l, b)
      modifies this`m, this`refcount, this`l, this`freed
      ensures Sound() && l == Taken(old(l), b) && freed == old(freed) + [b]
    {
      DelAny(m, l, b);
      FreedGone(m, b, freed);
      CountedWithout(refcount, l, b);
      Unlink(b);
      FreedShape(m, Taken(l, b), b);
      m := Freed(m, b);
      refcount := refcount - {b};
      l, freed := Taken(l, b), freed + [b];
    }

    /** LorieBuffer_release: the last reference frees. */
    method Release(b: addr)
      requires Sound() && Linked(m, l, b) && b in refcount && (refcount[b] == 1 || Nowhere(l, b))
      modifies this`m, this`refcount, this`l, this`freed
      ensures Sound()
      ensures if old(refcount[b]) == 1 then l == Taken(old(l), b) && freed == old(freed) + [b] else l == old(l) && freed == old(freed)
    {
      var count := refcount[b];
      if count == 1 {
        Free(b);
      } else {
        refcount := refcount[b := count - 1];
      }
    }

    /** LorieBufferList_first. */
    method First(h: nat) returns (r: Option)
      requires Sound() && h < 3
      ensures r == if l[h] == [] then None else Some(l[h][0])
    {
      if l[h] == [] {
        NoFirst(m, l, h);
      } else {
        FirstTaken(m, l, h);
      }
      r := if m.next[h] == h then None else Some(m.next[h]);
    }

    /** LorieBufferList_findById: walks the list, reading only allocated memory. */
    method FindById(h: nat, n: nat) returns (r: Option)
      requires Sound() && h < 3
      ensures r == Find(id, l[h], n)
    {
      ghost var s, k := l[h], 0;
      assert s[0..] == s;
      Walked(m, h, s, 0);
      var pos := m.next[h];
      while pos != h
        invariant 0 <= k <= |s| && pos == (s + [h])[k] && (k < |s| <==> pos != h) && Find(id, s[k..], n) == Find(id, s, n)
        decreases |s| - k
      {
        Walked(m, h, s, k + 1);
        assert s[k..][1..] == s[k + 1..];
        if id(pos) == n {
          return Some(pos);
        }
        pos := m.next[pos];
        k := k + 1;
      }
      r := None;
    }

    /** The first buffer of a list, if any, is released. */
    method ReleaseFirst(h: nat) returns (more: bool)
      requires Sound() && h < 3
      modifies this`m, this`refcount, this`l, this`freed
      ensures Sound() && more == (old(l[h]) != [])
      ensures if more then l == old(l)[h := old(l[h])[1..]] && freed == old(freed) + [old(l[h])[0]] else l == old(l) && freed == old(freed)
    {
      var b := First(h);
      more := b.Some?;
      if more {
        FirstTaken(m, l, h);
        OneReference(refcount, l, h, b.value);
        Release(b.value);
      }
    }

    /** The first buffer of a list, if any, is moved to the front of another. */
    method MoveFirst(h: nat, to: nat) returns (more: bool)
      requires Sound() && h < 3 && to < 3 && h != to
      modifies this`m, this`l
      ensures Sound() && more == (old(l[h]) != [])
      ensures if more then l == old(l)[h := old(l[h])[1..]][to := [old(l[h])[0]] + old(l[to])] else l == old(l)
    {
      var b := First(h);
      more := b.Some?;
      if more {
        FirstTaken(m, l, h);
        MovedCounted(refcount, l, h, to);
        AddToList(b.value, to);
      }
    }

    method ReleaseAll(h: nat)
      requires Sound() && h < 3
      modifies this`m, this`refcount, this`l, this`freed
      ensures Sound() && l == old(l)[h := []] && freed == old(freed) + old(l[h])
    {
      ghost var s, k := l[h], 0;
      var more := true;
      while more
        invariant Sound() && 0 <= k <= |s| && (!more ==> k == |s|)
        invariant l == old(l)[h := s[k..]] && freed == old(freed) + s[..k]
        decreases |s| - k, more
      {
        assert k < |s| ==> s[k..][1..] == s[k + 1..] && s[..k + 1] == s[..k] + [s[k]];
        more := ReleaseFirst(h);
        k := if more then k + 1 else k;
      }
    }

    method MoveAll(h: nat, to: nat)
      requires Sound() && h < 3 && to < 3 && h != to
      modifies this`m, this`l
      ensures Sound() && l == old(l)[h := []][to := Reversed(old(l[h])) + old(l[to])]
    {
      ghost var s, k := l[h], 0;
      var more := true;
      MovedNone(l, h, to);
      while more
        invariant Sound() && 0 <= k <= |s| && (!more ==> k == |s|)
        invariant l == Moved(old(l), h, to, k)
        decreases |s| - k, more
      {
        if k < |s| { MovedNext(old(l), h, to, k); }
        more := MoveFirst(h, to);
        k := if more then k + 1 else k;
      }
      assert s[..|s|] == s && s[|s|..] == [];
    }

    // The critical sections of the GUI thread

    /**
     * LorieBuffer_recvHandleFromUnixSocket: a new buffer is in no list. Its reference count is what the sender's was:
     * one, since buffers are allocated with one and nothing acquires another.
     */
    method Receive(b: addr)
      requires Sound() && b >= 3 && b !in freed && Nowhere(l, b)
      modifies this`m, this`refcount
      ensures Sound() && View() == old(View()) && Linked(m, l, b) && b in refcount && refcount[b] == 1
    {
      InitShape(m, l, b);
      m := Init(m, b);
      refcount := refcount[b := 1];
    }

    /** rendererAddBuffer; a null pointer is ignored. */
    method AddBuffer(b: Option)
      requires Sound()
      requires b.Some? ==> Linked(m, l, b.value) && b.value in refcount && refcount[b.value] == 1
      modifies this`m, this`l
      ensures Sound() && View() == if b.Some? then Next(id, old(View()), Add(b.value)) else old(View())
    {
      if b.Some? {
        CountedAdded(refcount, l, b.value, ADDED);
        AddToList(b.value, ADDED);
      }
    }

    /** A buffer attached to GL is taken from its list to that of the removed. */
    method Detach(b: addr)
      requires Sound() && b in l[BUFFERS]
      modifies this`m, this`l
      ensures Sound() && l == [old(l[0]), Without(old(l[1]), b), [b] + old(l[2])]
    {
      OneReference(refcount, l, BUFFERS, b);
      DetachedIs(l, b);
      CountedAdded(refcount, l, b, REMOVED);
      AddToList(b, REMOVED);
    }

    /** rendererRemoveBuffer: an attached buffer is only moved to the list of those the renderer frees. */
    method RemoveBuffer(n: nat)
      requires Sound()
      modifies this`m, this`refcount, this`l, this`freed
      ensures Sound() && View() == Next(id, old(View()), Remove(n))
    {
      var b := FindById(ADDED, n);
      if b.Some? {
        TakenAt(l, ADDED, b.value);
        Release(b.value);
      } else {
        b := FindById(BUFFERS, n);
        if b.Some? {
          Detach(b.value);
        }
      }
    }

    /** rendererRemoveAllBuffers. */
    method RemoveAllBuffers()
      requires Sound()
      modifies this`m, this`refcount, this`l, this`freed
      ensures Sound() && View() == Next(id, old(View()), RemoveAll)
    {
      ReleaseAll(ADDED);
      MoveAll(BUFFERS, REMOVED);
    }

    // The steps of the renderer thread

    /** Attaches all pending buffers to GL. */
    method AttachBuffers()
      requires Sound() && phase == Waiting
      modifies this`m, this`l, this`gl, this`phase
      ensures Sound() && View() == Next(id, old(View()), Attach)
    {
      gl := gl + (set b | b in l[ADDED]);
      MoveAll(ADDED, BUFFERS);
      phase := Attached;
    }

    /** rendererRedrawLocked up to where it drops the lock. */
    method BeginDraw(n: nat)
      requires Sound() && phase == Attached
      modifies this`phase
      ensures Sound() && View() == Next(id, old(View()), Begin(n)) && (phase.Drawing? ==> id(phase.buffer) == n)
    {
      var b := FindById(BUFFERS, n);
      if b.None? {
        b := FindById(REMOVED, n);
      }
      phase := if b.Some? then Drawing(b.value) else Drawn;
    }

    /** The rest of rendererRedrawLocked reads the buffer without the lock: it is still allocated. */
    method Describe() returns (n: nat)
      requires Sound() && Safe(View()) && phase.Drawing?
      ensures phase.buffer in m.next && phase.buffer in refcount && n == id(phase.buffer)
    {
      DrawnAllocated(m, refcount, l, View());
      n := id(phase.buffer);
    }

    method EndDraw()
      requires Sound() && phase.Drawing?
      modifies this`phase
      ensures Sound() && View() == Next(id, old(View()), End)
    {
      phase := Drawn;
    }

    /** Frees the removed buffers. */
    method ReleaseRemoved()
      requires Sound() && (phase == Attached || phase == Drawn)
      modifies this`m, this`refcount, this`l, this`freed, this`phase
      ensures Sound() && View() == Next(id, old(View()), Step.Release)
    {
      ReleaseAll(REMOVED);
      phase := Waiting;
    }

    // Whole runs

    /** A live buffer is handed over; one that is new has just been received. */
    method HandOver(b: addr, isNew: bool)
      requires Sound() && b >= 3 && b !in freed && (isNew <==> !Known(View(), b))
      modifies this`m, this`refcount, this`l
      ensures Sound() && View() == Next(id, old(View()), Add(b))
    {
      if isNew {
        Receive(b);
      } else {
        InSome(refcount, l, b);
      }
      AddBuffer(Some(b));
    }

    /** One step of either thread. */
    method Do(step: Step, isNew: bool)
      requires Sound() && Enabled(View(), step)
      requires step.Add? ==> step.buffer >= 3 && (isNew <==> !Known(View(), step.buffer))
      modifies this
      ensures Sound() && View() == Next(id, old(View()), step)
    {
      match step
      case Add(b) => HandOver(b, isNew);
      case Remove(n) => RemoveBuffer(n);
      case RemoveAll => RemoveAllBuffers();
      case Attach => AttachBuffers();
      case Begin(n) => BeginDraw(n);
      case End => EndDraw();
      case Release => ReleaseRemoved();
    }
  }

  lemma InSome(refcount: map<addr, int>, l: lists, b: addr)
    requires Counted(refcount, l) && (b in l[0] || b in l[1] || b in l[2])
    ensures !Nowhere(l, b) && b in refcount && refcount[b] == 1
  {
    OneReference(refcount, l, if b in l[0] then 0 else if b in l[1] then 1 else 2, b);
  }

  /** What is drawn in a safe state is allocated. */
  lemma DrawnAllocated(m: Links, refcount: map<addr, int>, l: lists, s: State)
    requires Shape(m, l) && Counted(refcount, l) && Safe(s) && s.phase.Drawing? && s.attached == l[1] && s.removed == l[2]
    ensures s.phase.buffer in m.next && s.phase.buffer in refcount
  {
    var b := s.phase.buffer;
    assert b in multiset(s.attached) || b in multiset(s.removed);
    var h := if b in l[1] then 1 else 2;
    Allocated(m, l, h, b);
    OneReference(refcount, l, h, b);
  }

  /**
   * Any run of the two threads, from the start, on the memory: it never touches memory that is not allocated and does
   * what the run does on values. If no buffer is handed over twice, what is being drawn is allocated.
   */
  method Perform(id: Ids, steps: seq<Step>) returns (r: Renderer)
    requires EnabledRun(id, START, steps) && forall b :: Add(b) in steps ==> b >= 3
    ensures fresh(r) && r.Sound() && r.View() == Run(id, START, steps)
    ensures HandedOnce(steps) && r.phase.Drawing? ==> r.phase.buffer in r.m.next && r.phase.buffer in r.refcount
  {
    r := new Renderer(id);
    var received: set<addr> := {};
    var i := 0;
    assert steps[0..] == steps;
    while i < |steps|
      invariant 0 <= i <= |steps| && fresh(r) && r.Sound() && r.id == id
      invariant EnabledRun(id, r.View(), steps[i..]) && Run(id, r.View(), steps[i..]) == Run(id, START, steps)
      invariant forall b :: b in received <==> Known(r.View(), b)
    {
      ghost var s := r.View();
      Unfold(id, s, steps, i);
      assert steps[i] in steps;
      r.Do(steps[i], steps[i].Add? && steps[i].buffer !in received);
      forall b
        ensures Known(r.View(), b) <==> Known(s, b) || steps[i] == Add(b)
      {
        Accounted(id, s, steps[i], b);
      }
      received := if steps[i].Add? then received + {steps[i].buffer} else received;
      i := i + 1;
    }
    assert steps[i..] == [];
    if r.phase.Drawing? {
      DrawnHere(id, steps, r.m, r.refcount, r.l, r.View());
    }
  }

  lemma DrawnHere(id: Ids, steps: seq<Step>, m: Links, refcount: map<addr, int>, l: lists, s: State)
    requires Shape(m, l) && Counted(refcount, l) && EnabledRun(id, START, steps) && s == Run(id, START, steps)
    requires s.phase.Drawing? && s.attached == l[1] && s.removed == l[2]
    ensures HandedOnce(steps) ==> s.phase.buffer in m.next && s.phase.buffer in refcount
  {
    if HandedOnce(steps) {
      OnceSafe(id, steps);
      DrawnAllocated(m, refcount, l, s);
    }
  }

  lemma Unfold(id: Ids, s: State, steps: seq<Step>, i: nat)
    requires i < |steps| && EnabledRun(id, s, steps[i..])
    ensures Enabled(s, steps[i]) && EnabledRun(id, Next(id, s, steps[i]), steps[i + 1..])
    ensures Run(id, s, steps[i..]) == Run(id, Next(id, s, steps[i]), steps[i + 1..])
  {
    assert steps[i..] == [steps[i]] + steps[i + 1..];
    FrontStep(id, s, steps[i], steps[i + 1..]);
  }
}
