/** The doubly linked lists of list.h, whose links are part of the elements, over an explicit memory. */
module IntrusiveList {
  import opened Ownership

  /** The link fields of everything allocated; an address outside both maps is not to be touched. */
  datatype Links = Links(next: map<addr, addr>, prev: map<addr, addr>)

  /** a and b point at each other. */
  ghost predicate Link(m: Links, a: addr, b: addr) {
    a in m.next && m.next[a] == b && b in m.prev && m.prev[b] == a
  }

  ghost predicate Joined(m: Links, r: seq<addr>) {
    forall i, j {:trigger Link(m, r[i], r[j])} :: 0 <= i < j < |r| && j <= i + 1 ==> Link(m, r[i], r[j])
  }

  ghost predicate OnceEach(r: seq<addr>) {
    forall i, j :: 0 <= i < j < |r| - 1 ==> r[i] != r[j]
  }

  /** From the list head through the elements back to the head, which is the only address to come twice. */
  ghost predicate Ring(m: Links, r: seq<addr>) {
    |r| >= 2 && r[0] == r[|r| - 1] && OnceEach(r) && Joined(m, r)
  }

  function Closed(head: addr, s: seq<addr>): seq<addr> {
    [head] + s + [head]
  }

  /** xorg_list_del. */
  function Del(m: Links, e: addr): Links
    requires e in m.next && e in m.prev
  {
    Links(m.next[m.prev[e] := m.next[e]][e := e], m.prev[m.next[e] := m.prev[e]][e := e])
  }

  /** xorg_list_add. */
  function Insert(m: Links, e: addr, head: addr): Links
    requires head in m.next
  {
    Links(m.next[e := m.next[head]][head := e], m.prev[m.next[head] := e][e := head])
  }

  /** Where an address of a ring is, and is not. */
  lemma Alone(m: Links, r: seq<addr>, i: nat, k: nat)
    requires Ring(m, r) && i < |r| && k < |r| && i != k && !(i == 0 && k == |r| - 1) && !(k == 0 && i == |r| - 1)
    ensures r[i] != r[k]
  {
    var last := |r| - 1;
    if i == last {
      assert r[0] != r[k];
    } else if k == last {
      assert r[0] != r[i];
    } else if i < k {
      assert r[i] != r[k];
    } else {
      assert r[k] != r[i];
    }
  }

  lemma Neighbours(m: Links, r: seq<addr>, k: nat)
    requires Ring(m, r) && 0 < k < |r| - 1
    ensures Link(m, r[k - 1], r[k]) && Link(m, r[k], r[k + 1])
  {
  }

  /** A link of the ring that does not lead to or from the element taken out. */
  lemma DelKeeps(m: Links, r: seq<addr>, k: nat, i: nat)
    requires Ring(m, r) && 0 < k < |r| - 1 && i < |r| - 1 && i != k - 1 && i != k
    requires Link(m, r[k - 1], r[k]) && Link(m, r[k], r[k + 1])
    ensures Link(Del(m, r[k]), r[i], r[i + 1])
  {
    assert Link(m, r[i], r[i + 1]);
    Alone(m, r, i, k);
    Alone(m, r, i + 1, k);
    assert r[i] != r[k - 1] by { Alone(m, r, i, k - 1); }
    assert r[i + 1] != r[k + 1] by { Alone(m, r, i + 1, k + 1); }
  }

  lemma DelJoins(m: Links, r: seq<addr>, k: nat)
    requires Ring(m, r) && 0 < k < |r| - 1 && Link(m, r[k - 1], r[k]) && Link(m, r[k], r[k + 1])
    ensures Link(Del(m, r[k]), r[k - 1], r[k + 1])
  {
    Alone(m, r, k - 1, k);
    Alone(m, r, k + 1, k);
  }

  lemma DelOnceEach(r: seq<addr>, k: nat, r': seq<addr>)
    requires 0 < k < |r| - 1 && OnceEach(r) && r' == r[..k] + r[k + 1..]
    ensures OnceEach(r')
  {
    forall i, j | 0 <= i < j < |r'| - 1
      ensures r'[i] != r'[j]
    {
      var a, b := if i < k then i else i + 1, if j < k then j else j + 1;
      assert r'[i] == r[a] && r'[j] == r[b];
    }
  }

  /** Taking an element out of a ring. */
  lemma DelRing(m: Links, r: seq<addr>, k: nat, r': seq<addr>)
    requires Ring(m, r) && 0 < k < |r| - 1 && r' == r[..k] + r[k + 1..]
    ensures r[k] in m.next && r[k] in m.prev && Ring(Del(m, r[k]), r')
  {
    Neighbours(m, r, k);
    DelOnceEach(r, k, r');
    var m' := Del(m, r[k]);
    forall i, j | 0 <= i < j < |r'| && j <= i + 1
      ensures Link(m', r'[i], r'[j])
    {
      if i < k - 1 {
        DelKeeps(m, r, k, i);
        assert r'[i] == r[i] && r'[j] == r[i + 1];
      } else if i == k - 1 {
        DelJoins(m, r, k);
        assert r'[i] == r[k - 1] && r'[j] == r[k + 1];
      } else {
        DelKeeps(m, r, k, i + 1);
        assert r'[i] == r[i + 1] && r'[j] == r[i + 2];
      }
    }
  }

  /** A ring that shares no address with the fields written does not notice. */
  lemma Apart(m: Links, m': Links, q: seq<addr>)
    requires Ring(m, q)
    requires forall x :: x in q && x in m.next ==> x in m'.next && m'.next[x] == m.next[x]
    requires forall x :: x in q && x in m.prev ==> x in m'.prev && m'.prev[x] == m.prev[x]
    ensures Ring(m', q)
  {
    forall i, j | 0 <= i < j < |q| && j <= i + 1
      ensures Link(m', q[i], q[j])
    {
      var a, b := q[i], q[j];
      assert a in q && b in q && Link(m, q[i], q[j]);
    }
  }

  lemma DelApart(m: Links, r: seq<addr>, k: nat, q: seq<addr>)
    requires Ring(m, r) && 0 < k < |r| - 1 && Ring(m, q) && (forall x :: x in q ==> x !in r)
    ensures r[k] in m.next && r[k] in m.prev && Ring(Del(m, r[k]), q)
  {
    Neighbours(m, r, k);
    assert r[k - 1] in r && r[k] in r && r[k + 1] in r;
    Apart(m, Del(m, r[k]), q);
  }

  lemma InsertOnceEach(r: seq<addr>, e: addr, r': seq<addr>)
    requires |r| >= 2 && OnceEach(r) && e !in r && r' == [r[0], e] + r[1..]
    ensures OnceEach(r')
  {
    forall i, j | 0 <= i < j < |r'| - 1
      ensures r'[i] != r'[j]
    {
      if i == 1 {
        assert r'[j] == r[j - 1];
      } else if j == 1 {
        assert r'[i] == r[0];
      } else {
        var a := if i == 0 then 0 else i - 1;
        assert r'[i] == r[a] && r'[j] == r[j - 1];
      }
    }
  }

  lemma InsertKeeps(m: Links, r: seq<addr>, e: addr, i: nat)
    requires Ring(m, r) && e !in r && 0 < i < |r| - 1 && Link(m, r[0], r[1])
    ensures Link(Insert(m, e, r[0]), r[i], r[i + 1])
  {
    assert Link(m, r[i], r[i + 1]);
    Alone(m, r, i, 0);
    Alone(m, r, i + 1, 1);
    assert r[i] in r && r[i + 1] in r;
  }

  /** Putting an element that is in no ring behind the head. */
  lemma InsertRing(m: Links, r: seq<addr>, e: addr, r': seq<addr>)
    requires Ring(m, r) && e !in r && r' == [r[0], e] + r[1..]
    ensures r[0] in m.next && Ring(Insert(m, e, r[0]), r')
  {
    assert Link(m, r[0], r[1]);
    InsertOnceEach(r, e, r');
    var m' := Insert(m, e, r[0]);
    assert r[0] in r && r[1] in r;
    forall i, j | 0 <= i < j < |r'| && j <= i + 1
      ensures Link(m', r'[i], r'[j])
    {
      if i == 0 {
        assert r'[0] == r[0] && r'[j] == e && Link(m', r[0], e);
      } else if i == 1 {
        assert r'[1] == e && r'[j] == r[1] && Link(m', e, r[1]);
      } else {
        InsertKeeps(m, r, e, i - 1);
        assert r'[i] == r[i - 1] && r'[j] == r[i];
      }
    }
  }

  lemma InsertApart(m: Links, r: seq<addr>, e: addr, q: seq<addr>)
    requires Ring(m, r) && Ring(m, q) && e !in q && (forall x :: x in q ==> x !in r)
    ensures r[0] in m.next && Ring(Insert(m, e, r[0]), q)
  {
    assert Link(m, r[0], r[1]);
    assert r[0] in r && r[1] in r;
    Apart(m, Insert(m, e, r[0]), q);
  }

  // Several lists in one memory

  /** The list heads have the first addresses. */
  type lists = l: seq<seq<addr>> | |l| == 3 witness [[], [], []]

  ghost predicate Shape(m: Links, l: lists) {
    && (forall h :: 0 <= h < 3 ==> Ring(m, Closed(h, l[h])))
    && (forall h, x :: 0 <= h < 3 && x in l[h] ==> x >= 3)
    && (forall h, k, x :: 0 <= h < k < 3 && x in l[h] ==> x !in l[k])
  }

  ghost predicate Nowhere(l: lists, b: addr) {
    forall h :: 0 <= h < 3 ==> b !in l[h]
  }

  /** An element of no list points at itself. */
  ghost predicate Loose(m: Links, b: addr) {
    b in m.next && m.next[b] == b && b in m.prev && m.prev[b] == b
  }

  lemma {:induction false} WithoutAt(s: seq<addr>, k: nat)
    requires k < |s| && forall i, j :: 0 <= i < j < |s| ==> s[i] != s[j]
    ensures Without(s, s[k]) == s[..k] + s[k + 1..]
  {
    if k == 0 {
      WithoutNone(s[1..], s[0]);
    } else {
      WithoutAt(s[1..], k - 1);
      assert s[..k] + s[k + 1..] == [s[0]] + (s[1..][..k - 1] + s[1..][k..]);
    }
  }

  lemma {:induction false} WithoutNone(s: seq<addr>, b: addr)
    requires b !in s
    ensures Without(s, b) == s
  {
    if s != [] {
      WithoutNone(s[1..], b);
      assert s == [s[0]] + s[1..];
    }
  }

  lemma ClosedApart(l: lists, h: nat, k: nat)
    requires h < 3 && k < 3 && h != k
    requires forall h, x :: 0 <= h < 3 && x in l[h] ==> x >= 3
    requires forall h, k, x :: 0 <= h < k < 3 && x in l[h] ==> x !in l[k]
    ensures forall x :: x in Closed(h, l[h]) ==> x !in Closed(k, l[k])
  {
  }

  lemma WithoutMembers(s: seq<addr>, b: addr)
    ensures forall x :: x in Without(s, b) <==> x in s && x != b
  {
    forall x ensures x in Without(s, b) <==> x in s && x != b {
      assert x in Without(s, b) <==> x in multiset(Without(s, b));
      assert x in s <==> x in multiset(s);
    }
  }

  lemma Position(head: addr, s: seq<addr>, b: addr) returns (k: nat)
    requires b in s
    ensures 0 < k < |Closed(head, s)| - 1 && Closed(head, s)[k] == b && s[k - 1] == b
  {
    var i :| 0 <= i < |s| && s[i] == b;
    k := i + 1;
  }

  lemma DelClosed(m: Links, head: addr, s: seq<addr>, b: addr)
    requires Ring(m, Closed(head, s)) && b in s
    ensures b in m.next && m.next[b] in m.prev && b in m.prev && m.prev[b] in m.next
    ensures Ring(Del(m, b), Closed(head, Without(s, b))) && Loose(Del(m, b), b)
  {
    var r := Closed(head, s);
    var k := Position(head, s, b);
    forall i, j | 0 <= i < j < |s|
      ensures s[i] != s[j]
    {
      assert r[i + 1] == s[i] && r[j + 1] == s[j];
    }
    WithoutAt(s, k - 1);
    assert Closed(head, Without(s, b)) == r[..k] + r[k + 1..];
    Neighbours(m, r, k);
    var before, after := r[k - 1], r[k + 1];
    assert before in m.next && after in m.prev;
    DelRing(m, r, k, Closed(head, Without(s, b)));
  }

  lemma DelOther(m: Links, head: addr, s: seq<addr>, b: addr, q: seq<addr>)
    requires Ring(m, Closed(head, s)) && b in s && Ring(m, q) && (forall x :: x in q ==> x !in Closed(head, s))
    ensures b in m.next && b in m.prev && Ring(Del(m, b), q)
  {
    var k := Position(head, s, b);
    DelApart(m, Closed(head, s), k, q);
  }

  /** Deleting an element of one list leaves the others as they are. */
  lemma DelShape(m: Links, l: lists, h: nat, b: addr)
    requires Shape(m, l) && h < 3 && b in l[h]
    ensures b in m.next && m.next[b] in m.prev && b in m.prev && m.prev[b] in m.next
    ensures Shape(Del(m, b), l[h := Without(l[h], b)]) && Nowhere(l[h := Without(l[h], b)], b) && Loose(Del(m, b), b)
  {
    DelClosed(m, h, l[h], b);
    WithoutMembers(l[h], b);
    forall g | 0 <= g < 3 && g != h
      ensures Ring(Del(m, b), Closed(g, l[g]))
    {
      ClosedApart(l, g, h);
      DelOther(m, h, l[h], b, Closed(g, l[g]));
    }
  }

  lemma InsertShape(m: Links, l: lists, h: nat, b: addr)
    requires Shape(m, l) && h < 3 && b >= 3 && Nowhere(l, b)
    ensures h in m.next && m.next[h] in m.prev && Shape(Insert(m, b, h), l[h := [b] + l[h]])
  {
    var r := Closed(h, l[h]);
    assert Closed(h, [b] + l[h]) == [r[0], b] + r[1..];
    InsertRing(m, r, b, Closed(h, [b] + l[h]));
    assert Link(m, r[0], r[1]);
    forall g | 0 <= g < 3 && g != h
      ensures Ring(Insert(m, b, h), Closed(g, l[g]))
    {
      ClosedApart(l, g, h);
      InsertApart(m, r, b, Closed(g, l[g]));
    }
  }

  function Freed(m: Links, b: addr): Links {
    Links(m.next - {b}, m.prev - {b})
  }

  lemma FreedKeys(m: Links, b: addr, x: addr)
    requires b in m.next && m.next[b] in m.prev && b in m.prev && m.prev[b] in m.next
    ensures x in Freed(Del(m, b), b).next ==> x in m.next && x != b
    ensures x in Freed(Del(m, b), b).prev ==> x in m.prev && x != b
  {
  }

  lemma FreedGone(m: Links, b: addr, freed: seq<addr>)
    requires b in m.next && m.next[b] in m.prev && b in m.prev && m.prev[b] in m.next
    requires Gone(m, freed)
    ensures Gone(Freed(Del(m, b), b), freed + [b])
  {
    forall x | x in freed + [b]
      ensures x !in Freed(Del(m, b), b).next && x !in Freed(Del(m, b), b).prev
    {
      FreedKeys(m, b, x);
    }
  }

  lemma FreedShape(m: Links, l: lists, b: addr)
    requires Shape(m, l) && b >= 3 && Nowhere(l, b)
    ensures Shape(Freed(m, b), l)
  {
    forall h | 0 <= h < 3
      ensures Ring(Freed(m, b), Closed(h, l[h]))
    {
      Apart(m, Freed(m, b), Closed(h, l[h]));
    }
  }

  /** The lists without b, wherever it was. */
  function Taken(l: lists, b: addr): lists {
    [Without(l[0], b), Without(l[1], b), Without(l[2], b)]
  }

  lemma TakenAt(l: lists, h: nat, b: addr)
    requires h < 3 && b in l[h]
    requires forall h, k, x :: 0 <= h < k < 3 && x in l[h] ==> x !in l[k]
    ensures Taken(l, b) == l[h := Without(l[h], b)]
  {
    if h != 0 {
      WithoutNone(l[0], b);
    }
    if h != 1 {
      WithoutNone(l[1], b);
    }
    if h != 2 {
      WithoutNone(l[2], b);
    }
  }

  lemma TakenMembers(l: lists, b: addr)
    ensures forall h, x :: 0 <= h < 3 && x in Taken(l, b)[h] ==> x in l[h] && x != b
  {
    WithoutMembers(l[0], b);
    WithoutMembers(l[1], b);
    WithoutMembers(l[2], b);
  }

  lemma TakenNowhere(l: lists, b: addr)
    requires Nowhere(l, b)
    ensures Taken(l, b) == l
  {
    WithoutNone(l[0], b);
    WithoutNone(l[1], b);
    WithoutNone(l[2], b);
  }

  /** A list holds the only reference to its elements. */
  ghost predicate Counted(refcount: map<addr, int>, l: lists) {
    forall h, b :: 0 <= h < 3 && b in l[h] ==> b in refcount && refcount[b] == 1
  }

  lemma OneReference(refcount: map<addr, int>, l: lists, h: nat, b: addr)
    requires Counted(refcount, l) && h < 3 && b in l[h]
    ensures b in refcount && refcount[b] == 1
  {
  }

  ghost predicate Gone(m: Links, freed: seq<addr>) {
    forall b :: b in freed ==> b !in m.next && b !in m.prev
  }

  lemma CountedLess(refcount: map<addr, int>, l: lists, l': lists, b: addr)
    requires Counted(refcount, l) && forall h, x :: 0 <= h < 3 && x in l'[h] ==> x in l[h] && x != b
    ensures Counted(refcount - {b}, l')
  {
  }

  lemma CountedWithout(refcount: map<addr, int>, l: lists, b: addr)
    requires Counted(refcount, l)
    ensures Counted(refcount - {b}, Taken(l, b))
  {
    TakenMembers(l, b);
    CountedLess(refcount, l, Taken(l, b), b);
  }

  lemma DetachedIs(l: lists, b: addr)
    requires b in l[1] && forall h, k, x :: 0 <= h < k < 3 && x in l[h] ==> x !in l[k]
    ensures Taken(l, b)[2 := [b] + Taken(l, b)[2]] == [l[0], Without(l[1], b), [b] + l[2]]
  {
    TakenAt(l, 1, b);
  }

  lemma CountedAdded(refcount: map<addr, int>, l: lists, b: addr, h: nat)
    requires Counted(refcount, l) && h < 3 && b in refcount && refcount[b] == 1
    ensures Counted(refcount, Taken(l, b)[h := [b] + Taken(l, b)[h]])
  {
    TakenMembers(l, b);
    AddedCounted(refcount, l, Taken(l, b), b, h);
  }

  lemma AddedCounted(refcount: map<addr, int>, l: lists, l': lists, b: addr, h: nat)
    requires Counted(refcount, l) && h < 3 && b in refcount && refcount[b] == 1
    requires forall h, x :: 0 <= h < 3 && x in l'[h] ==> x in l[h]
    ensures Counted(refcount, l'[h := [b] + l'[h]])
  {
  }

  /** b is in a list, or in none and points at itself. */
  ghost predicate Linked(m: Links, l: lists, b: addr) {
    b >= 3 && (Nowhere(l, b) ==> Loose(m, b))
  }

  /** xorg_list_init on memory in no list. */
  function Init(m: Links, b: addr): Links {
    Links(m.next[b := b], m.prev[b := b])
  }

  lemma InitShape(m: Links, l: lists, b: addr)
    requires Shape(m, l) && b >= 3 && Nowhere(l, b)
    ensures Shape(Init(m, b), l) && Loose(Init(m, b), b)
  {
    forall h | 0 <= h < 3
      ensures Ring(Init(m, b), Closed(h, l[h]))
    {
      Apart(m, Init(m, b), Closed(h, l[h]));
    }
  }

  lemma DelAny(m: Links, l: lists, b: addr)
    requires Shape(m, l) && Linked(m, l, b)
    ensures b in m.next && m.next[b] in m.prev && b in m.prev && m.prev[b] in m.next
    ensures Shape(Del(m, b), Taken(l, b)) && Nowhere(Taken(l, b), b) && Loose(Del(m, b), b)
  {
    if Nowhere(l, b) {
      TakenNowhere(l, b);
      assert Del(m, b) == m;
    } else {
      var h :| 0 <= h < 3 && b in l[h];
      TakenAt(l, h, b);
      DelShape(m, l, h, b);
    }
  }

  /** From the head, the k-th step along the links reaches the k-th element, and the head again after the last. */
  lemma Walked(m: Links, head: addr, s: seq<addr>, k: nat)
    requires Ring(m, Closed(head, s)) && k <= |s|
    ensures var at := ([head] + s)[k]; at in m.next && m.next[at] == (s + [head])[k] && (k < |s| <==> (s + [head])[k] != head)
  {
    var r := Closed(head, s);
    assert Link(m, r[k], r[k + 1]);
    assert r[k + 1] == (s + [head])[k] && r[k] == ([head] + s)[k];
    if k < |s| {
      Alone(m, r, 0, k + 1);
    }
  }

  lemma FirstOnce(r: seq<addr>, s: seq<addr>, x: addr)
    requires OnceEach(r) && |r| == |s| + 2 && s != [] && (forall i :: 0 <= i < |s| ==> r[i + 1] == s[i]) && x in s[1..]
    ensures x != s[0]
  {
    var i :| 0 <= i < |s| - 1 && s[1..][i] == x;
    assert r[1] == s[0] && r[i + 2] == s[i + 1];
  }

  lemma WithoutFirst(m: Links, head: addr, s: seq<addr>)
    requires Ring(m, Closed(head, s)) && s != []
    ensures Without(s, s[0]) == s[1..]
  {
    if s[0] in s[1..] {
      FirstOnce(Closed(head, s), s, s[0]);
    }
    WithoutNone(s[1..], s[0]);
  }

  lemma FirstTaken(m: Links, l: lists, h: nat)
    requires Shape(m, l) && h < 3 && l[h] != []
    ensures Taken(l, l[h][0]) == l[h := l[h][1..]] && h in m.next && m.next[h] == l[h][0] != h && Linked(m, l, l[h][0])
  {
    var s := l[h];
    assert s[0] in l[h];
    TakenAt(l, h, s[0]);
    WithoutFirst(m, h, s);
    Walked(m, h, s, 0);
  }

  lemma MovedCounted(refcount: map<addr, int>, l: lists, h: nat, to: nat)
    requires Counted(refcount, l) && h < 3 && to < 3 && h != to && l[h] != []
    ensures Counted(refcount, l[h := l[h][1..]][to := [l[h][0]] + l[to]])
  {
    var l' := l[h := l[h][1..]][to := [l[h][0]] + l[to]];
    forall g, x | 0 <= g < 3 && x in l'[g]
      ensures x in refcount && refcount[x] == 1
    {
      assert g == to && x == l[h][0] ==> x in l[h];
      assert g == h ==> x in l[h];
      assert g == to && x != l[h][0] ==> x in l[to];
    }
  }

  lemma NoFirst(m: Links, l: lists, h: nat)
    requires Shape(m, l) && h < 3 && l[h] == []
    ensures h in m.next && m.next[h] == h
  {
    Walked(m, h, l[h], 0);
  }

  lemma {:induction false} ReversedThen(s: seq<addr>, b: addr)
    ensures Reversed(s + [b]) == [b] + Reversed(s)
  {
    if s == [] {
      assert (s + [b])[1..] == [];
    } else {
      ReversedThen(s[1..], b);
      assert (s + [b])[1..] == s[1..] + [b];
    }
  }

  lemma ReversedNext(s: seq<addr>, k: nat)
    requires k < |s|
    ensures Reversed(s[..k + 1]) == [s[k]] + Reversed(s[..k])
  {
    ReversedThen(s[..k], s[k]);
    assert s[..k + 1] == s[..k] + [s[k]];
  }

  /** After k elements were moved from the front of one list to the front of another. */
  function Moved(l: lists, h: nat, to: nat, k: nat): lists
    requires h < 3 && to < 3 && h != to && k <= |l[h]|
  {
    l[h := l[h][k..]][to := Reversed(l[h][..k]) + l[to]]
  }

  lemma MovedNone(l: lists, h: nat, to: nat)
    requires h < 3 && to < 3 && h != to
    ensures Moved(l, h, to, 0) == l
  {
    assert l[h][0..] == l[h] && Reversed(l[h][..0]) + l[to] == l[to];
  }

  lemma MovedNext(l: lists, h: nat, to: nat, k: nat)
    requires h < 3 && to < 3 && h != to && k < |l[h]|
    ensures var n := Moved(l, h, to, k);
            n[h] != [] && n[h := n[h][1..]][to := [n[h][0]] + n[to]] == Moved(l, h, to, k + 1)
  {
    var s, n := l[h], Moved(l, h, to, k);
    ReversedNext(s, k);
    assert n[h] == s[k..] && n[h][1..] == s[k + 1..] && n[h][0] == s[k];
    assert [s[k]] + (Reversed(s[..k]) + l[to]) == Reversed(s[..k + 1]) + l[to];
  }

  lemma Allocated(m: Links, l: lists, h: nat, b: addr)
    requires Shape(m, l) && h < 3 && b in l[h]
    ensures b in m.next && b in m.prev
  {
    DelShape(m, l, h, b);
  }
}
