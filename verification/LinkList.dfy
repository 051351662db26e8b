/**
 The LIST family of src/queue.h: a doubly linked list with a one-word head, whose
 entries keep the address of the cell that points at them.  Insertion before an
 element and removal need no head.
 */
module LinkList {
  import opened Seqs

  datatype Cell = Nil | FirstOf(head: Head) | NextOf(entry: Entry)

  class Entry {
    var next: Entry?   // le_next
    var prev: Cell     // le_prev

    constructor ()
      ensures next == null && prev == Nil
    {
      next, prev := null, Nil;
    }
  }

  class Head {
    var first: Entry?  // lh_first

    constructor ()
      ensures List(this, [])
    {
      first := null;
    }
  }

  function Record(c: Cell): set<object> {
    match c
    case Nil => {}
    case FirstOf(h) => {h}
    case NextOf(e) => {e}
  }

  /** `*c` */
  function Load(c: Cell): Entry?
    requires c != Nil
    reads Record(c)
  {
    match c
    case FirstOf(h) => h.first
    case NextOf(e) => e.next
  }

  /** `*c = v` */
  method Store(c: Cell, v: Entry?)
    requires c != Nil
    modifies Record(c)
    ensures Load(c) == v
    ensures c.NextOf? ==> c.entry.prev == old(c.entry.prev)
  {
    match c
    case FirstOf(h) => h.first := v;
    case NextOf(e) => e.next := v;
  }

  ghost function ElementAt(s: seq<Entry>, i: nat): Entry?
  {
    if i < |s| then s[i] else null
  }

  ghost function CellAt(h: Head, s: seq<Entry>, i: nat): (c: Cell)
    requires i <= |s|
    ensures c != Nil
  {
    if i == 0 then FirstOf(h) else NextOf(s[i - 1])
  }

  ghost predicate LinkAt(h: Head, s: seq<Entry>, i: nat)
    requires i <= |s|
    reads h, s
  {
    && Load(CellAt(h, s, i)) == ElementAt(s, i)
    && (i < |s| ==> s[i].prev == CellAt(h, s, i))
  }

  ghost predicate List(h: Head, s: seq<Entry>)
    reads h, s
  {
    Distinct(s) && forall i | 0 <= i <= |s| :: LinkAt(h, s, i)
  }

  /** LIST_INIT */
  method Init(h: Head)
    modifies h
    ensures List(h, [])
  {
    h.first := null;
  }

  /** Position i of a list into which e has just been spliced at position k. */
  ghost predicate SplicedAt(h: Head, s: seq<Entry>, k: nat, e: Entry, i: nat)
    requires i <= |s|
    reads h, s
  {
    && Load(CellAt(h, s, i)) == (if i == k then e else ElementAt(s, i))
    && (i < |s| ==> s[i].prev == if i == k then NextOf(e) else CellAt(h, s, i))
  }

  lemma SplicedIsList(h: Head, s: seq<Entry>, k: nat, e: Entry)
    requires k <= |s| && Distinct(s) && e !in s
    requires e.next == ElementAt(s, k) && e.prev == CellAt(h, s, k)
    requires forall i | 0 <= i <= |s| :: SplicedAt(h, s, k, e, i)
    ensures List(h, Inserted(s, k, e))
  {
    var t := Inserted(s, k, e);
    InsertedDistinct(s, k, e);
    forall i | 0 <= i <= |t|
      ensures LinkAt(h, t, i)
    {
      if i <= k { assert SplicedAt(h, s, k, e, i); }
      if i > k { assert SplicedAt(h, s, k, e, i - 1); }
    }
  }

  /** LIST_INSERT_HEAD */
  method InsertHead(h: Head, e: Entry, ghost s: seq<Entry>)
    requires List(h, s) && e !in s
    modifies h, e, s
    ensures List(h, [e] + s)
  {
    assert LinkAt(h, s, 0);
    e.next := h.first;
    if e.next != null {
      h.first.prev := NextOf(e);
    }
    h.first := e;
    e.prev := FirstOf(h);
    assert Inserted(s, 0, e) == [e] + s;
    forall i | 0 <= i <= |s|
      ensures SplicedAt(h, s, 0, e, i)
    {
      assert old(LinkAt(h, s, i));
    }
    SplicedIsList(h, s, 0, e);
  }

  /** LIST_INSERT_AFTER */
  method InsertAfter(at: Entry, e: Entry, ghost h: Head, ghost s: seq<Entry>, ghost k: nat)
    requires List(h, s) && e !in s && k < |s| && s[k] == at
    modifies e, s
    ensures List(h, Inserted(s, k + 1, e))
  {
    assert LinkAt(h, s, k + 1);
    e.next := at.next;
    if e.next != null {
      at.next.prev := NextOf(e);
    }
    at.next := e;
    e.prev := NextOf(at);
    ghost var p := k + 1;
    forall i | 0 <= i <= |s|
      ensures SplicedAt(h, s, p, e, i)
    {
      assert old(LinkAt(h, s, i));
    }
    SplicedIsList(h, s, p, e);
  }

  /** LIST_INSERT_BEFORE */
  method InsertBefore(at: Entry, e: Entry, ghost h: Head, ghost s: seq<Entry>, ghost k: nat)
    requires List(h, s) && e !in s && k < |s| && s[k] == at
    modifies h, e, s
    ensures List(h, Inserted(s, k, e))
  {
    assert LinkAt(h, s, k);
    e.prev := at.prev;
    e.next := at;
    Store(at.prev, e);
    at.prev := NextOf(e);
    forall i | 0 <= i <= |s|
      ensures SplicedAt(h, s, k, e, i)
    {
      assert old(LinkAt(h, s, i));
    }
    SplicedIsList(h, s, k, e);
  }

  /** LIST_REMOVE unlinks a member at any position without the head and clears its links; an
      entry whose links are clear, such as one already removed, is left alone with its list. */
  method Remove(e: Entry, ghost h: Head, ghost s: seq<Entry>, ghost k: nat)
    requires List(h, s)
    requires if e.prev == Nil then e !in s else k < |s| && s[k] == e
    modifies h, s, e
    ensures List(h, if old(e.prev) == Nil then s else Cut(s, k, k + 1))
    ensures e.prev == Nil && (old(e.prev) != Nil ==> e.next == null)
    ensures old(e.prev) == Nil ==> unchanged(h) && unchanged(s) && unchanged(e)
    ensures forall x | x in s && x != e :: (x.prev == Nil) == old(x.prev == Nil)
  {
    if e.prev != Nil {
      assert LinkAt(h, s, k) && LinkAt(h, s, k + 1);
      if e.next != null {
        e.next.prev := e.prev;
      }
      Store(e.prev, e.next);
      e.next := null;
      e.prev := Nil;
      ghost var t := Cut(s, k, k + 1);
      CutDistinct(s, k, k + 1);
      forall i | 0 <= i <= |t|
        ensures LinkAt(h, t, i)
      {
        assert old(LinkAt(h, s, i)) && old(LinkAt(h, s, i + 1));
      }
    }
  }

  method RemoveTwice(e: Entry, ghost h: Head, ghost s: seq<Entry>, ghost k: nat)
    requires List(h, s) && k < |s| && s[k] == e
    modifies h, s
    ensures List(h, Cut(s, k, k + 1)) && e.prev == Nil && e.next == null
  {
    assert LinkAt(h, s, k);
    CutDistinct(s, k, k + 1);
    Remove(e, h, s, k);
    Remove(e, h, Cut(s, k, k + 1), k);
  }

  /** The elements of s outside drop, in order. */
  ghost function Kept(s: seq<Entry>, drop: set<Entry>): seq<Entry>
  {
    if s == [] then []
    else Kept(s[..|s| - 1], drop) + if s[|s| - 1] in drop then [] else [s[|s| - 1]]
  }

  lemma {:induction false} KeptElements(s: seq<Entry>, drop: set<Entry>)
    ensures forall i | 0 <= i < |Kept(s, drop)| :: Kept(s, drop)[i] in s && Kept(s, drop)[i] !in drop
    ensures forall i | 0 <= i < |s| && s[i] !in drop :: s[i] in Kept(s, drop)
  {
    if s != [] {
      var init := s[..|s| - 1];
      KeptElements(init, drop);
      assert forall i | 0 <= i < |init| :: init[i] == s[i];
    }
  }

  /** The list when the sweep has dealt with the first n original elements. */
  ghost function Swept(s: seq<Entry>, drop: set<Entry>, n: nat): seq<Entry>
    requires n <= |s|
  {
    Kept(s[..n], drop) + s[n..]
  }

  lemma SweepStep(s: seq<Entry>, drop: set<Entry>, n: nat)
    requires n < |s|
    ensures var cur, k := Swept(s, drop, n), |Kept(s[..n], drop)|;
            && k < |cur| && cur[k] == s[n] && ElementAt(cur, k + 1) == ElementAt(s, n + 1)
            && Swept(s, drop, n + 1) == if s[n] in drop then Cut(cur, k, k + 1) else cur
  {
    assert s[..n + 1][..n] == s[..n];
  }

  lemma SweptElements(s: seq<Entry>, drop: set<Entry>, n: nat)
    requires n <= |s|
    ensures forall i | 0 <= i < |Swept(s, drop, n)| :: Swept(s, drop, n)[i] in s
  {
    var cur, kept := Swept(s, drop, n), Kept(s[..n], drop);
    KeptElements(s[..n], drop);
    forall i | 0 <= i < |cur|
      ensures cur[i] in s
    {
      if i < |kept| { assert kept[i] in s[..n]; }
    }
  }

  /** One round of the sweep: save the next element, then run the body on v. */
  method SweepOne(v: Entry, drop: set<Entry>, ghost h: Head, ghost s: seq<Entry>, ghost n: nat)
    returns (tvar: Entry?)
    requires n < |s| && v == s[n] && List(h, Swept(s, drop, n))
    modifies h, s
    ensures tvar == ElementAt(s, n + 1) && List(h, Swept(s, drop, n + 1))
  {
    SweepStep(s, drop, n);
    ghost var cur, k := Swept(s, drop, n), |Kept(s[..n], drop)|;
    assert LinkAt(h, cur, k) && LinkAt(h, cur, k + 1);
    tvar := v.next;
    if v in drop {
      SweptElements(s, drop, n);
      forall i | 0 <= i < |cur|
        ensures exists j | 0 <= j < |s| :: s[j] == cur[i]
      {
        assert cur[i] in s;
      }
      Remove(v, h, cur, k);
    }
  }

  /** LIST_FOREACH_SAFE with a body that removes the current element whenever it is in drop: every
      original element is visited once, in order, and exactly the others stay, in order. */
  method Sweep(h: Head, drop: set<Entry>, ghost s: seq<Entry>) returns (visited: seq<Entry>)
    requires List(h, s)
    modifies h, s
    ensures visited == s
    ensures List(h, Kept(s, drop))
  {
    visited := [];
    assert LinkAt(h, s, 0);
    var v := h.first;
    ghost var n: nat := 0;
    assert s[..0] == [] && Swept(s, drop, 0) == s;
    while v != null
      invariant n <= |s| && visited == s[..n] && v == ElementAt(s, n)
      invariant List(h, Swept(s, drop, n))
      decreases |s| - n
    {
      visited := visited + [v];
      v := SweepOne(v, drop, h, s, n);
      n := n + 1;
    }
    assert s[..n] == s && Swept(s, drop, n) == Kept(s, drop);
  }
}
