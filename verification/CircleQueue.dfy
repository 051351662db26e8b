/**
 The CIRCLEQ family of src/queue.h: a ring through the head, which stands in for the
 missing neighbour at both ends (`(void *) head`).
 */
module CircleQueue {
  import opened Seqs

  // An untyped link: an entry, or the head used as sentinel.
  datatype Link = Null | ToHead(head: Head) | ToEntry(entry: Entry)

  class Entry {
    var next: Link   // cqe_next
    var prev: Link   // cqe_prev

    constructor ()
      ensures next == Null && prev == Null
    {
      next, prev := Null, Null;
    }
  }

  class Head {
    var first: Link  // cqh_first
    var last: Link   // cqh_last

    constructor ()
      ensures Ring(this, [])
    {
      first, last := Null, Null;
      new;
      Init(this);
    }
  }

  /** Position i of the ring; positions -1 and |s| are the head. */
  ghost function LinkTo(h: Head, s: seq<Entry>, i: int): Link
  {
    if 0 <= i < |s| then ToEntry(s[i]) else ToHead(h)
  }

  /** The edge between positions i - 1 and i is drawn in both directions. */
  ghost predicate EdgeAt(h: Head, s: seq<Entry>, i: nat)
    requires i <= |s|
    reads h, s
  {
    && (if i == 0 then h.first else s[i - 1].next) == LinkTo(h, s, i)
    && (if i == |s| then h.last else s[i].prev) == LinkTo(h, s, i - 1)
  }

  ghost predicate Ring(h: Head, s: seq<Entry>)
    reads h, s
  {
    Distinct(s) && forall i | 0 <= i <= |s| :: EdgeAt(h, s, i)
  }

  predicate IsEmpty(h: Head)
    reads h
  {
    h.first == ToHead(h)
  }

  /** CIRCLEQ_FOREACH */
  method Foreach(h: Head, ghost s: seq<Entry>) returns (visited: seq<Entry>)
    requires Ring(h, s)
    ensures visited == s
  {
    visited := [];
    assert EdgeAt(h, s, 0);
    var v := h.first;
    while v != ToHead(h)
      invariant |visited| <= |s| && visited == s[..|visited|]
      invariant v == LinkTo(h, s, |visited|)
      decreases |s| - |visited|
    {
      visited := visited + [v.entry];
      assert EdgeAt(h, s, |visited|);
      v := v.entry.next;
    }
  }

  /** CIRCLEQ_FOREACH_REVERSE */
  method ForeachReverse(h: Head, ghost s: seq<Entry>) returns (visited: seq<Entry>)
    requires Ring(h, s)
    ensures visited == Reverse(s)
  {
    visited := [];
    assert EdgeAt(h, s, |s|);
    var v := h.last;
    ghost var n := |s|;
    while v != ToHead(h)
      invariant 0 <= n <= |s| && visited == Reverse(s[n..])
      invariant v == LinkTo(h, s, n - 1)
      decreases n
    {
      visited := visited + [v.entry];
      assert s[n - 1..][1..] == s[n..];
      assert EdgeAt(h, s, n - 1);
      v := v.entry.prev;
      n := n - 1;
    }
    assert s[0..] == s;
  }

  /** CIRCLEQ_INIT */
  method Init(h: Head)
    modifies h
    ensures Ring(h, [])
  {
    h.first := ToHead(h);
    h.last := ToHead(h);
  }

  /** Edge i of a ring into which e has just been spliced on edge k. */
  ghost predicate SplicedAt(h: Head, s: seq<Entry>, k: nat, e: Entry, i: nat)
    requires i <= |s|
    reads h, s
  {
    && (if i == 0 then h.first else s[i - 1].next) == (if i == k then ToEntry(e) else LinkTo(h, s, i))
    && (if i == |s| then h.last else s[i].prev) == (if i == k then ToEntry(e) else LinkTo(h, s, i - 1))
  }

  lemma SplicedIsRing(h: Head, s: seq<Entry>, k: nat, e: Entry)
    requires k <= |s| && Distinct(s) && e !in s
    requires e.next == LinkTo(h, s, k) && e.prev == LinkTo(h, s, k - 1)
    requires forall i | 0 <= i <= |s| :: SplicedAt(h, s, k, e, i)
    ensures Ring(h, Inserted(s, k, e))
  {
    var t := Inserted(s, k, e);
    InsertedDistinct(s, k, e);
    forall i | 0 <= i <= |t|
      ensures EdgeAt(h, t, i)
    {
      if i <= k { assert SplicedAt(h, s, k, e, i); }
      if i > k { assert SplicedAt(h, s, k, e, i - 1); }
    }
  }

  /** CIRCLEQ_INSERT_AFTER */
  method InsertAfter(h: Head, at: Entry, e: Entry, ghost s: seq<Entry>, ghost k: nat)
    requires Ring(h, s) && e !in s && k < |s| && s[k] == at
    modifies h, e, s
    ensures Ring(h, Inserted(s, k + 1, e))
  {
    ghost var p := k + 1;
    assert EdgeAt(h, s, p);
    e.next := at.next;
    e.prev := ToEntry(at);
    if at.next == ToHead(h) {
      h.last := ToEntry(e);
    } else {
      at.next.entry.prev := ToEntry(e);
    }
    at.next := ToEntry(e);
    forall i | 0 <= i <= |s|
      ensures SplicedAt(h, s, p, e, i)
    {
      assert old(EdgeAt(h, s, i));
    }
    SplicedIsRing(h, s, p, e);
  }

  /** CIRCLEQ_INSERT_BEFORE */
  method InsertBefore(h: Head, at: Entry, e: Entry, ghost s: seq<Entry>, ghost k: nat)
    requires Ring(h, s) && e !in s && k < |s| && s[k] == at
    modifies h, e, s
    ensures Ring(h, Inserted(s, k, e))
  {
    assert EdgeAt(h, s, k);
    e.next := ToEntry(at);
    e.prev := at.prev;
    if at.prev == ToHead(h) {
      h.first := ToEntry(e);
    } else {
      at.prev.entry.next := ToEntry(e);
    }
    at.prev := ToEntry(e);
    forall i | 0 <= i <= |s|
      ensures SplicedAt(h, s, k, e, i)
    {
      assert old(EdgeAt(h, s, i));
    }
    SplicedIsRing(h, s, k, e);
  }

  /** CIRCLEQ_INSERT_HEAD */
  method InsertHead(h: Head, e: Entry, ghost s: seq<Entry>)
    requires Ring(h, s) && e !in s
    modifies h, e, s
    ensures Ring(h, [e] + s)
  {
    assert EdgeAt(h, s, 0) && EdgeAt(h, s, |s|);
    e.next := h.first;
    e.prev := ToHead(h);
    if h.last == ToHead(h) {
      h.last := ToEntry(e);
    } else {
      h.first.entry.prev := ToEntry(e);
    }
    h.first := ToEntry(e);
    assert Inserted(s, 0, e) == [e] + s;
    forall i | 0 <= i <= |s|
      ensures SplicedAt(h, s, 0, e, i)
    {
      assert old(EdgeAt(h, s, i));
    }
    SplicedIsRing(h, s, 0, e);
  }

  /** CIRCLEQ_INSERT_TAIL */
  method InsertTail(h: Head, e: Entry, ghost s: seq<Entry>)
    requires Ring(h, s) && e !in s
    modifies h, e, s
    ensures Ring(h, s + [e])
  {
    assert EdgeAt(h, s, 0) && EdgeAt(h, s, |s|);
    e.next := ToHead(h);
    e.prev := h.last;
    if h.first == ToHead(h) {
      h.first := ToEntry(e);
    } else {
      h.last.entry.next := ToEntry(e);
    }
    h.last := ToEntry(e);
    assert Inserted(s, |s|, e) == s + [e];
    forall i | 0 <= i <= |s|
      ensures SplicedAt(h, s, |s|, e, i)
    {
      assert old(EdgeAt(h, s, i));
    }
    SplicedIsRing(h, s, |s|, e);
  }

  /** CIRCLEQ_REMOVE */
  method Remove(h: Head, e: Entry, ghost s: seq<Entry>, ghost k: nat)
    requires Ring(h, s) && k < |s| && s[k] == e
    modifies h, s
    ensures Ring(h, Cut(s, k, k + 1))
  {
    assert EdgeAt(h, s, k) && EdgeAt(h, s, k + 1);
    if e.next == ToHead(h) {
      h.last := e.prev;
    } else {
      e.next.entry.prev := e.prev;
    }
    if e.prev == ToHead(h) {
      h.first := e.next;
    } else {
      e.prev.entry.next := e.next;
    }
    ghost var t := Cut(s, k, k + 1);
    CutDistinct(s, k, k + 1);
    forall i | 0 <= i <= |t|
      ensures EdgeAt(h, t, i)
    {
      assert old(EdgeAt(h, s, i)) && old(EdgeAt(h, s, i + 1));
    }
  }
}
