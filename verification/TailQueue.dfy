/**
 The TAILQ family of src/queue.h: a doubly linked tail queue whose backward
 links are addresses of "previous next" cells, not addresses of elements.

 A `type **` of the C source is a Cell: the first word of a head, or the first
 word of an entry.  Both records have the same two-word layout, which is what
 TAILQ_LAST and TAILQ_PREV rely on when they read an entry as if it were a head.
 */
module TailQueue {
  import opened Seqs

  datatype Cell = Nil | FirstOf(head: Head) | NextOf(entry: Entry)

  class Entry {
    var next: Entry?   // tqe_next
    var prev: Cell     // tqe_prev

    constructor ()
      ensures next == null && prev == Nil
    {
      next, prev := null, Nil;
    }
  }

  class Head {
    var first: Entry?  // tqh_first
    var last: Cell     // tqh_last

    constructor ()
      ensures Queue(this, [])
    {
      first := null;
      new;
      last := FirstOf(this);
    }
  }

  // ----- cells: the two words of the record a cell starts

  function Record(c: Cell): set<object> {
    match c
    case Nil => {}
    case FirstOf(h) => {h}
    case NextOf(e) => {e}
  }

  /** `*c` */
  function Load(c: Cell): Entry?
    requires c != Nil
    reads Record(c)
  {
    match c
    case FirstOf(h) => h.first
    case NextOf(e) => e.next
  }

  /** `((struct headname *) c)->tqh_last`: the second word of the record at c */
  function SecondWord(c: Cell): Cell
    requires c != Nil
    reads Record(c)
  {
    match c
    case FirstOf(h) => h.last
    case NextOf(e) => e.prev
  }

  /** `*c = v` */
  method Store(c: Cell, v: Entry?)
    requires c != Nil
    modifies Record(c)
    ensures Load(c) == v && SecondWord(c) == old(SecondWord(c))
  {
    match c
    case FirstOf(h) => h.first := v;
    case NextOf(e) => e.next := v;
  }

  // ----- the invariant

  /** The element a cell at position i of the chain points at. */
  ghost function ElementAt(s: seq<Entry>, i: nat): Entry?
  {
    if i < |s| then s[i] else null
  }

  /** The cell that points at position i: the head's first word, or the next word of the predecessor. */
  ghost function CellAt(h: Head, s: seq<Entry>, i: nat): (c: Cell)
    requires i <= |s|
    ensures c != Nil
  {
    if i == 0 then FirstOf(h) else NextOf(s[i - 1])
  }

  /** Position i of the chain: its cell holds element i, and the backward link kept for
      position i (the element's tqe_prev, or tqh_last for the end) names that cell. */
  ghost predicate LinkAt(h: Head, s: seq<Entry>, i: nat)
    requires i <= |s|
    reads h, s
  {
    && Load(CellAt(h, s, i)) == ElementAt(s, i)
    && (if i < |s| then s[i].prev else h.last) == CellAt(h, s, i)
  }

  /** h holds exactly the elements s: a finite acyclic chain, each tqe_prev names the one cell
      that points at its element, and tqh_last names the one cell that holds NULL. */
  ghost predicate Queue(h: Head, s: seq<Entry>)
    reads h, s
  {
    Distinct(s) && forall i | 0 <= i <= |s| :: LinkAt(h, s, i)
  }

  /** The links determine the abstract value: one head never holds two different sequences. */
  lemma ChainIsUnique(h: Head, s: seq<Entry>, t: seq<Entry>)
    requires Queue(h, s) && Queue(h, t)
    ensures s == t
  {
    var n := if |s| <= |t| then |s| else |t|;
    PrefixAgrees(h, s, t, n);
    assert LinkAt(h, s, n) && LinkAt(h, t, n);
  }

  lemma {:induction false} PrefixAgrees(h: Head, s: seq<Entry>, t: seq<Entry>, n: nat)
    requires Queue(h, s) && Queue(h, t)
    requires n <= |s| && n <= |t|
    ensures s[..n] == t[..n]
  {
    if n > 0 {
      PrefixAgrees(h, s, t, n - 1);
      assert CellAt(h, s, n - 1) == CellAt(h, t, n - 1) by {
        if n > 1 { assert s[n - 2] == s[..n - 1][n - 2] == t[..n - 1][n - 2] == t[n - 2]; }
      }
      assert LinkAt(h, s, n - 1) && LinkAt(h, t, n - 1);
      assert s[..n] == s[..n - 1] + [s[n - 1]] && t[..n] == t[..n - 1] + [t[n - 1]];
    }
  }

  // ----- accessors

  predicate IsEmpty(h: Head)
    reads h
  {
    h.first == null
  }

  /** TAILQ_LAST: follow tqh_last to a record, read that record's second word, dereference it. */
  function Last(h: Head): (e: Entry?)
    requires h.last != Nil && SecondWord(h.last) != Nil
    reads h, Record(h.last), Record(SecondWord(h.last))
  {
    Load(SecondWord(h.last))
  }

  /** TAILQ_PREV */
  function Prev(e: Entry): Entry?
    requires e.prev != Nil && SecondWord(e.prev) != Nil
    reads e, Record(e.prev), Record(SecondWord(e.prev))
  {
    Load(SecondWord(e.prev))
  }

  lemma LastIsLast(h: Head, s: seq<Entry>)
    requires Queue(h, s)
    ensures h.last != Nil && SecondWord(h.last) != Nil
    ensures Last(h) == if s == [] then null else s[|s| - 1]
  {
    assert LinkAt(h, s, |s|);
    if s != [] { assert LinkAt(h, s, |s| - 1); }
  }

  lemma PrevIsPredecessor(h: Head, s: seq<Entry>, i: nat)
    requires Queue(h, s) && i < |s|
    ensures s[i].prev != Nil && SecondWord(s[i].prev) != Nil
    ensures Prev(s[i]) == if i == 0 then null else s[i - 1]
  {
    assert LinkAt(h, s, i);
    if i > 0 { assert LinkAt(h, s, i - 1); } else { assert LinkAt(h, s, |s|); }
  }

  // ----- traversals

  /** TAILQ_FOREACH */
  method Foreach(h: Head, ghost s: seq<Entry>) returns (visited: seq<Entry>)
    requires Queue(h, s)
    ensures visited == s
  {
    visited := [];
    assert LinkAt(h, s, 0);
    var v := h.first;
    while v != null
      invariant |visited| <= |s| && visited == s[..|visited|]
      invariant v == ElementAt(s, |visited|)
      decreases |s| - |visited|
    {
      visited := visited + [v];
      assert LinkAt(h, s, |visited|);
      v := v.next;
    }
  }

  /** TAILQ_FOREACH_REVERSE: walks with LAST and PREV alone. */
  method ForeachReverse(h: Head, ghost s: seq<Entry>) returns (visited: seq<Entry>)
    requires Queue(h, s)
    ensures visited == Reverse(s)
  {
    visited := [];
    LastIsLast(h, s);
    var v := Last(h);
    ghost var n := |s|;
    while v != null
      invariant 0 <= n <= |s| && visited == Reverse(s[n..])
      invariant v == if n == 0 then null else s[n - 1]
      decreases n
    {
      visited := visited + [v];
      assert s[n - 1..][1..] == s[n..];
      PrevIsPredecessor(h, s, n - 1);
      v := Prev(v);
      n := n - 1;
    }
    assert s[0..] == s;
  }

  // ----- updates

  /** Position i of a chain into which e has just been spliced at position k: cell k and
      backward link k lead to e, every other position is as it was. */
  ghost predicate SplicedAt(h: Head, s: seq<Entry>, k: nat, e: Entry, i: nat)
    requires i <= |s|
    reads h, s
  {
    && Load(CellAt(h, s, i)) == (if i == k then e else ElementAt(s, i))
    && (if i < |s| then s[i].prev else h.last) == (if i == k then NextOf(e) else CellAt(h, s, i))
  }

  lemma SplicedIsQueue(h: Head, s: seq<Entry>, k: nat, e: Entry)
    requires k <= |s| && Distinct(s) && e !in s
    requires e.next == ElementAt(s, k) && e.prev == CellAt(h, s, k)
    requires forall i | 0 <= i <= |s| :: SplicedAt(h, s, k, e, i)
    ensures Queue(h, Inserted(s, k, e))
  {
    var t := Inserted(s, k, e);
    InsertedDistinct(s, k, e);
    forall i | 0 <= i <= |t|
      ensures LinkAt(h, t, i)
    {
      if i <= k { assert SplicedAt(h, s, k, e, i); }
      if i > k { assert SplicedAt(h, s, k, e, i - 1); }
    }
  }

  /** TAILQ_INIT */
  method Init(h: Head)
    modifies h
    ensures Queue(h, [])
  {
    h.first := null;
    h.last := FirstOf(h);
  }

  /** TAILQ_INSERT_HEAD */
  method InsertHead(h: Head, e: Entry, ghost s: seq<Entry>)
    requires Queue(h, s) && e !in s
    modifies h, e, s
    ensures Queue(h, [e] + s)
  {
    assert LinkAt(h, s, 0);
    e.next := h.first;
    if e.next != null {
      h.first.prev := NextOf(e);
    } else {
      h.last := NextOf(e);
    }
    h.first := e;
    e.prev := FirstOf(h);
    assert Inserted(s, 0, e) == [e] + s;
    forall i | 0 <= i <= |s|
      ensures SplicedAt(h, s, 0, e, i)
    {
      assert old(LinkAt(h, s, i));
    }
    SplicedIsQueue(h, s, 0, e);
  }

  /** TAILQ_INSERT_TAIL */
  method InsertTail(h: Head, e: Entry, ghost s: seq<Entry>)
    requires Queue(h, s) && e !in s
    modifies h, e, s
    ensures Queue(h, s + [e])
  {
    assert Inserted(s, |s|, e) == s + [e];
    assert LinkAt(h, s, |s|);
    e.next := null;
    e.prev := h.last;
    Store(h.last, e);
    h.last := NextOf(e);
    forall i | 0 <= i <= |s|
      ensures SplicedAt(h, s, |s|, e, i)
    {
      assert old(LinkAt(h, s, i));
    }
    SplicedIsQueue(h, s, |s|, e);
  }

  /** TAILQ_INSERT_AFTER */
  method InsertAfter(h: Head, at: Entry, e: Entry, ghost s: seq<Entry>, ghost k: nat)
    requires Queue(h, s) && e !in s && k < |s| && s[k] == at
    modifies h, e, s
    ensures Queue(h, Inserted(s, k + 1, e))
  {
    assert LinkAt(h, s, k + 1);
    e.next := at.next;
    if e.next != null {
      e.next.prev := NextOf(e);
    } else {
      h.last := NextOf(e);
    }
    at.next := e;
    e.prev := NextOf(at);
    ghost var p := k + 1;
    forall i | 0 <= i <= |s|
      ensures SplicedAt(h, s, p, e, i)
    {
      assert old(LinkAt(h, s, i));
    }
    SplicedIsQueue(h, s, p, e);
  }

  /** TAILQ_INSERT_BEFORE works without the head: it writes through the predecessor's cell. */
  method InsertBefore(at: Entry, e: Entry, ghost h: Head, ghost s: seq<Entry>, ghost k: nat)
    requires Queue(h, s) && e !in s && k < |s| && s[k] == at
    modifies h, e, s
    ensures Queue(h, Inserted(s, k, e))
    ensures h.last == old(h.last)
  {
    assert LinkAt(h, s, k);
    e.prev := at.prev;
    e.next := at;
    Store(at.prev, e);
    at.prev := NextOf(e);
    forall i | 0 <= i <= |s|
      ensures SplicedAt(h, s, k, e, i)
    {
      assert old(LinkAt(h, s, i));
    }
    SplicedIsQueue(h, s, k, e);
  }

  /** TAILQ_REMOVE joins the cell e.prev names to the element e.next names, and nothing else is
      consulted.  It leaves e's own links in place, so its effect on the queue is to cut out the
      stretch between those two places:
        - for a member at k that stretch is e alone (m == k + 1);
        - called again right after, the stretch is empty and the call changes nothing (m == k);
        - called again after other entries were put between e's old neighbours, those are lost.
      An entry that was never linked (prev == Nil) is left alone. */
  method Remove(h: Head, e: Entry, ghost s: seq<Entry>, ghost k: nat, ghost m: nat)
    requires Queue(h, s) && k <= m <= |s|
    requires e.prev == Nil ==> k == m
    requires e.prev != Nil ==> e.prev == CellAt(h, s, k) && e.next == ElementAt(s, m)
    requires e in s ==> k < |s| && s[k] == e && m == k + 1
    modifies h, s
    ensures Queue(h, Cut(s, k, m))
    ensures e.next == old(e.next) && e.prev == old(e.prev)
  {
    if e.prev == Nil {
      assert Cut(s, k, m) == s;
    } else {
      Join(h, e, s, k, m);
    }
  }

  /** The two halves of the joint. */
  method Join(h: Head, e: Entry, ghost s: seq<Entry>, ghost k: nat, ghost m: nat)
    requires Queue(h, s) && k <= m <= |s|
    requires e.prev != Nil && e.prev == CellAt(h, s, k) && e.next == ElementAt(s, m)
    requires e in s ==> k < |s| && s[k] == e && m == k + 1
    modifies h, s
    ensures Queue(h, Cut(s, k, m))
    ensures e.next == old(e.next) && e.prev == old(e.prev)
  {
    assert LinkAt(h, s, k) && LinkAt(h, s, m);
    if e.next != null {
      e.next.prev := e.prev;
    } else {
      h.last := e.prev;
    }
    Store(e.prev, e.next);
    forall i | 0 <= i <= |s| && (i <= k || m <= i)
      ensures JoinedAt(h, s, k, m, i)
    {
      assert old(LinkAt(h, s, i));
    }
    JoinedIsQueue(h, s, k, m);
  }

  /** Position i of a chain in which the cell at k has just been joined to the element at m. */
  ghost predicate JoinedAt(h: Head, s: seq<Entry>, k: nat, m: nat, i: nat)
    requires k <= m <= |s| && i <= |s|
    reads h, s
  {
    && (i <= k ==> Load(CellAt(h, s, i)) == ElementAt(s, if i == k then m else i))
    && ((m <= i || i < k) ==> (if i < |s| then s[i].prev else h.last) == CellAt(h, s, if i == m then k else i))
    && (m < i ==> Load(CellAt(h, s, i)) == ElementAt(s, i))
  }

  lemma JoinedIsQueue(h: Head, s: seq<Entry>, k: nat, m: nat)
    requires k <= m <= |s| && Distinct(s)
    requires forall i | 0 <= i <= |s| && (i <= k || m <= i) :: JoinedAt(h, s, k, m, i)
    ensures Queue(h, Cut(s, k, m))
  {
    var t := Cut(s, k, m);
    CutDistinct(s, k, m);
    forall i | 0 <= i <= |t|
      ensures LinkAt(h, t, i)
    {
      if i <= k { assert JoinedAt(h, s, k, m, i); }
      if i >= k { assert JoinedAt(h, s, k, m, i + m - k); }
    }
  }

  /** A stale second call after the old neighbours have swapped places, the element e.next names being in
      front of the cell e.prev names, takes the first branch and closes a cycle: the head then holds no
      sequence at all. */
  method RemoveSwapped(h: Head, e: Entry, ghost s: seq<Entry>, ghost k: nat, ghost m: nat)
    requires Queue(h, s) && m < k <= |s| && e !in s
    requires e.prev == CellAt(h, s, k) && e.next == s[m]
    modifies h, s
    ensures forall i | 0 <= i < k - 1 :: s[i].next == s[i + 1]
    ensures h.first == s[0] && s[k - 1].next == s[m]
    ensures forall t :: !Queue(h, t)
  {
    assert LinkAt(h, s, 0) && LinkAt(h, s, k);
    e.next.prev := e.prev;
    Store(e.prev, e.next);
    forall i | 0 <= i < k - 1
      ensures s[i].next == s[i + 1]
    {
      assert old(LinkAt(h, s, i + 1));
    }
    forall t
      ensures !Queue(h, t)
    {
      CycleHoldsNothing(h, s, t, k, m);
    }
  }

  /** The first k entries, walked from the head. */
  ghost predicate Walks(h: Head, s: seq<Entry>, k: nat)
    requires 0 < k <= |s|
    reads h, s
  {
    h.first == s[0] && forall i | 0 <= i < k - 1 :: s[i].next == s[i + 1]
  }

  lemma {:induction false} WalkAgrees(h: Head, s: seq<Entry>, t: seq<Entry>, k: nat, n: nat)
    requires Queue(h, t) && 0 < n <= k <= |s| && Walks(h, s, k)
    ensures n <= |t| && t[n - 1] == s[n - 1]
    decreases n
  {
    if n == 1 {
      assert LinkAt(h, t, 0);
    } else {
      WalkAgrees(h, s, t, k, n - 1);
      assert LinkAt(h, t, n - 1) && s[n - 2].next == s[n - 2 + 1];
    }
  }

  /** A held sequence would come through the cycle twice. */
  lemma CycleHoldsNothing(h: Head, s: seq<Entry>, t: seq<Entry>, k: nat, m: nat)
    requires m < k <= |s| && Walks(h, s, k) && s[k - 1].next == s[m]
    ensures !Queue(h, t)
  {
    if Queue(h, t) {
      WalkAgrees(h, s, t, k, k);
      WalkAgrees(h, s, t, k, m + 1);
      NextOfMember(h, t, k);
    }
  }

  lemma NextOfMember(h: Head, t: seq<Entry>, k: nat)
    requires Queue(h, t) && 0 < k <= |t|
    ensures t[k - 1].next == ElementAt(t, k) && t[k - 1].next !in t[..k]
  {
    assert LinkAt(h, t, k);
  }

  /** A stale second call after the old predecessor x has left the queue: what e.next names, or the head, is
      given a link to x's cell.  The head holds a sequence afterwards exactly if that is an entry outside
      the queue, and then still the one it held. */
  method RemoveOrphaned(h: Head, e: Entry, x: Entry, ghost s: seq<Entry>)
    requires Queue(h, s) && e !in s && x !in s && e.prev == NextOf(x)
    modifies h, s, x, e.next
    ensures (forall t :: !Queue(h, t)) <==> old(e.next) == null || old(e.next) in s
    ensures old(e.next) != null && old(e.next) !in s ==> Queue(h, s)
  {
    ghost var y := e.next;
    assert LinkAt(h, s, |s|);
    if e.next != null {
      e.next.prev := e.prev;
    } else {
      h.last := e.prev;
    }
    assert e.prev == NextOf(x) && Record(e.prev) == {x};
    Store(e.prev, e.next);
    assert h.first == old(h.first) && forall z | z in s :: z.next == old(z.next);
    forall i | 0 <= i <= |s|
      ensures Load(CellAt(h, s, i)) == ElementAt(s, i)
    {
      assert old(LinkAt(h, s, i));
      if i > 0 { assert s[i - 1] in s; }
    }
    forall i | 0 <= i < |s| && s[i] != y
      ensures s[i].prev == CellAt(h, s, i)
    {
      assert old(LinkAt(h, s, i));
    }
    if y == null || y in s {
      forall t
        ensures !Queue(h, t)
      {
        StrayLink(h, s, t, x, y);
      }
    } else {
      forall i | 0 <= i <= |s|
        ensures LinkAt(h, s, i)
      {
        if i < |s| { assert s[i] in s && s[i] != y; }
      }
      assert h.last == CellAt(h, s, |s|) && Queue(h, s);
    }
  }

  /** With the forward links of s and one backward link to a cell outside it, no sequence is held. */
  lemma StrayLink(h: Head, s: seq<Entry>, t: seq<Entry>, x: Entry, y: Entry?)
    requires forall i | 0 <= i <= |s| :: Load(CellAt(h, s, i)) == ElementAt(s, i)
    requires x !in s && if y == null then h.last == NextOf(x) else y in s && y.prev == NextOf(x)
    ensures !Queue(h, t)
  {
    if Queue(h, t) {
      ForwardWhole(h, s, t);
      BackwardLinks(h, s);
    }
  }

  lemma BackwardLinks(h: Head, s: seq<Entry>)
    requires Queue(h, s)
    ensures h.last == CellAt(h, s, |s|)
    ensures forall y | y in s :: y.prev == FirstOf(h) || exists z | z in s :: y.prev == NextOf(z)
  {
    assert LinkAt(h, s, |s|);
    forall y | y in s
      ensures y.prev == FirstOf(h) || exists z | z in s :: y.prev == NextOf(z)
    {
      var i :| 0 <= i < |s| && s[i] == y;
      assert LinkAt(h, s, i);
      if i > 0 { assert s[i - 1] in s; }
    }
  }

  lemma {:induction false} ForwardAgrees(h: Head, s: seq<Entry>, t: seq<Entry>, n: nat)
    requires Queue(h, t) && n <= |s| && forall i | 0 <= i <= |s| :: Load(CellAt(h, s, i)) == ElementAt(s, i)
    ensures n <= |t| && forall i | 0 <= i < n :: t[i] == s[i]
  {
    if n > 0 {
      ForwardAgrees(h, s, t, n - 1);
      assert LinkAt(h, t, n - 1) && CellAt(h, t, n - 1) == CellAt(h, s, n - 1);
    }
  }

  lemma ForwardWhole(h: Head, s: seq<Entry>, t: seq<Entry>)
    requires Queue(h, t) && forall i | 0 <= i <= |s| :: Load(CellAt(h, s, i)) == ElementAt(s, i)
    ensures t == s
  {
    var n := |s|;
    ForwardAgrees(h, s, t, n);
    assert LinkAt(h, t, n) && CellAt(h, t, n) == CellAt(h, s, n);
  }

  /** What a member's links say, in the form Remove asks for. */
  lemma MemberLinks(h: Head, s: seq<Entry>, k: nat)
    requires Queue(h, s) && k < |s|
    ensures s[k].prev == CellAt(h, s, k) && s[k].next == ElementAt(s, k + 1)
  {
    assert LinkAt(h, s, k) && LinkAt(h, s, k + 1);
  }

  /** TAILQ_CONCAT: head2's elements move behind head1's, head2 becomes empty. */
  method Concat(h1: Head, h2: Head, ghost s1: seq<Entry>, ghost s2: seq<Entry>)
    requires Queue(h1, s1) && Queue(h2, s2)
    requires h1 != h2 && Disjoint(s1, s2)
    modifies h1, h2, s1, s2
    ensures Queue(h1, s1 + s2) && Queue(h2, [])
  {
    assert LinkAt(h1, s1, |s1|) && LinkAt(h2, s2, 0) && LinkAt(h2, s2, |s2|);
    if !IsEmpty(h2) {
      Store(h1.last, h2.first);
      h2.first.prev := h1.last;
      h1.last := h2.last;
      Init(h2);
      forall i | 0 <= i <= |s1 + s2|
        ensures LinkAt(h1, s1 + s2, i)
      {
        if i <= |s1| { assert old(LinkAt(h1, s1, i)); }
        if i >= |s1| { assert old(LinkAt(h2, s2, i - |s1|)); }
      }
    } else {
      assert s1 + s2 == s1;
    }
  }
}
