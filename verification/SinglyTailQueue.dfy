/**
 The STAILQ family of src/queue.h: a singly linked queue with a tail pointer.
 `stqh_last` is the address of the NULL next cell at the end of the chain, which is
 the head's own first cell while the queue is empty.
 */
module SinglyTailQueue {
  import opened Seqs

  datatype Cell<T> = Nil | FirstOf(head: Head<T>) | NextOf(entry: Entry<T>)

  class Entry<T> {
    const data: T
    var next: Entry?<T>   // stqe_next

    constructor (data: T)
      ensures this.data == data && next == null
    {
      this.data := data;
      next := null;
    }
  }

  class Head<T> {
    var first: Entry?<T>  // stqh_first
    var last: Cell<T>     // stqh_last

    /** STAILQ_HEAD_INITIALIZER */
    constructor ()
      ensures Queue(this, [])
    {
      first, last := null, Nil;
      new;
      last := FirstOf(this);
    }
  }

  function Record<T>(c: Cell<T>): set<object> {
    match c
    case Nil => {}
    case FirstOf(h) => {h}
    case NextOf(e) => {e}
  }

  /** `*c` */
  function Load<T>(c: Cell<T>): Entry?<T>
    requires c != Nil
    reads Record(c)
  {
    match c
    case FirstOf(h) => h.first
    case NextOf(e) => e.next
  }

  /** `*c = v` */
  method Store<T>(c: Cell<T>, v: Entry?<T>)
    requires c != Nil
    modifies Record(c)
    ensures Load(c) == v
    ensures c.FirstOf? ==> c.head.last == old(c.head.last)
  {
    match c
    case FirstOf(h) => h.first := v;
    case NextOf(e) => e.next := v;
  }

  ghost function ElementAt<T>(s: seq<Entry<T>>, i: nat): Entry?<T>
  {
    if i < |s| then s[i] else null
  }

  ghost function CellAt<T>(h: Head<T>, s: seq<Entry<T>>, i: nat): (c: Cell<T>)
    requires i <= |s|
    ensures c != Nil
  {
    if i == 0 then FirstOf(h) else NextOf(s[i - 1])
  }

  ghost predicate LinkAt<T>(h: Head<T>, s: seq<Entry<T>>, i: nat)
    requires i <= |s|
    reads h, s
  {
    Load(CellAt(h, s, i)) == ElementAt(s, i)
  }

  /** The chain from h runs through exactly s, and stqh_last names the one cell that holds NULL. */
  ghost predicate Queue<T>(h: Head<T>, s: seq<Entry<T>>)
    reads h, s
  {
    && Distinct(s)
    && h.last == CellAt(h, s, |s|)
    && forall i | 0 <= i <= |s| :: LinkAt(h, s, i)
  }

  // ----- accessors and traversal

  predicate IsEmpty<T>(h: Head<T>)
    reads h
  {
    h.first == null
  }

  /** STAILQ_LAST: subtract the field offset from stqh_last, unless the queue is empty. */
  function Last<T>(h: Head<T>, ghost s: seq<Entry<T>>): (e: Entry?<T>)
    requires Queue(h, s)
    reads h, s
    ensures e == if s == [] then null else s[|s| - 1]
  {
    assert LinkAt(h, s, 0);
    if IsEmpty(h) then null else h.last.entry
  }

  /** STAILQ_FOREACH */
  method Foreach<T>(h: Head<T>, ghost s: seq<Entry<T>>) returns (visited: seq<Entry<T>>)
    requires Queue(h, s)
    ensures visited == s
  {
    visited := [];
    assert LinkAt(h, s, 0);
    var v := h.first;
    while v != null
      invariant |visited| <= |s| && visited == s[..|visited|]
      invariant v == ElementAt(s, |visited|)
      decreases |s| - |visited|
    {
      visited := visited + [v];
      assert LinkAt(h, s, |visited|);
      v := v.next;
    }
  }

  // ----- updates

  /** STAILQ_INIT */
  method Init<T>(h: Head<T>)
    modifies h
    ensures Queue(h, [])
  {
    h.first := null;
    h.last := FirstOf(h);
  }

  /** STAILQ_INSERT_HEAD */
  method InsertHead<T>(h: Head<T>, e: Entry<T>, ghost s: seq<Entry<T>>)
    requires Queue(h, s) && e !in s
    modifies h, e
    ensures Queue(h, [e] + s)
  {
    assert LinkAt(h, s, 0);
    e.next := h.first;
    if e.next == null {
      h.last := NextOf(e);
    }
    h.first := e;
    ghost var t := [e] + s;
    forall i | 0 <= i <= |t|
      ensures LinkAt(h, t, i)
    {
      if i > 0 { assert old(LinkAt(h, s, i - 1)); }
    }
  }

  /** STAILQ_INSERT_TAIL */
  method InsertTail<T>(h: Head<T>, e: Entry<T>, ghost s: seq<Entry<T>>)
    requires Queue(h, s) && e !in s
    modifies h, e, s
    ensures Queue(h, s + [e])
  {
    e.next := null;
    Store(h.last, e);
    h.last := NextOf(e);
    ghost var t := s + [e];
    forall i | 0 <= i <= |t|
      ensures LinkAt(h, t, i)
    {
      if i <= |s| { assert old(LinkAt(h, s, i)); }
    }
  }

  /** STAILQ_INSERT_AFTER */
  method InsertAfter<T>(h: Head<T>, at: Entry<T>, e: Entry<T>, ghost s: seq<Entry<T>>, ghost k: nat)
    requires Queue(h, s) && e !in s && k < |s| && s[k] == at
    modifies h, e, s
    ensures Queue(h, Inserted(s, k + 1, e))
  {
    assert LinkAt(h, s, k + 1);
    e.next := at.next;
    if e.next == null {
      h.last := NextOf(e);
    }
    at.next := e;
    ghost var t := Inserted(s, k + 1, e);
    InsertedDistinct(s, k + 1, e);
    forall i | 0 <= i <= |t|
      ensures LinkAt(h, t, i)
    {
      if i <= |s| { assert old(LinkAt(h, s, i)); }
      if i > 0 { assert old(LinkAt(h, s, i - 1)); }
    }
  }

  /** STAILQ_REMOVE_HEAD_UNTIL: drops the front of the queue up to and including the element at k. */
  method RemoveHeadUntil<T>(h: Head<T>, e: Entry<T>, ghost s: seq<Entry<T>>, ghost k: nat)
    requires Queue(h, s) && k < |s| && s[k] == e
    modifies h
    ensures Queue(h, s[k + 1..])
  {
    assert LinkAt(h, s, k + 1);
    h.first := e.next;
    if h.first == null {
      h.last := FirstOf(h);
    }
    ghost var t := s[k + 1..];
    forall i | 0 <= i <= |t|
      ensures LinkAt(h, t, i)
    {
      if i > 0 { assert old(LinkAt(h, s, k + 1 + i)); }
    }
  }

  /** STAILQ_REMOVE_HEAD */
  method RemoveHead<T>(h: Head<T>, ghost s: seq<Entry<T>>)
    requires Queue(h, s) && s != []
    modifies h
    ensures Queue(h, s[1..])
  {
    assert LinkAt(h, s, 0);
    RemoveHeadUntil(h, h.first, s, 0);
  }

  /** The walk of STAILQ_REMOVE from the front to the predecessor of e. */
  method Predecessor<T>(h: Head<T>, e: Entry<T>, ghost s: seq<Entry<T>>, ghost k: nat) returns (cur: Entry<T>)
    requires Queue(h, s) && 0 < k < |s| && s[k] == e
    ensures cur == s[k - 1]
  {
    assert LinkAt(h, s, 0) && LinkAt(h, s, 1);
    cur := h.first;
    ghost var i: nat := 0;
    while cur.next != e
      invariant i < k && cur == s[i] && cur.next == s[i + 1]
      decreases k - i
    {
      assert LinkAt(h, s, i + 2);
      cur := cur.next;
      i := i + 1;
    }
  }

  /** STAILQ_REMOVE */
  method Remove<T>(h: Head<T>, e: Entry<T>, ghost s: seq<Entry<T>>, ghost k: nat)
    requires Queue(h, s) && k < |s| && s[k] == e
    modifies h, s
    ensures Queue(h, Cut(s, k, k + 1))
  {
    assert LinkAt(h, s, 0);
    if h.first == e {
      assert Cut(s, 0, 1) == s[1..];
      RemoveHead(h, s);
    } else {
      var cur := Predecessor(h, e, s, k);
      assert LinkAt(h, s, k) && LinkAt(h, s, k + 1);
      cur.next := cur.next.next;
      if cur.next == null {
        h.last := NextOf(cur);
      }
      forall i | 0 <= i <= |s|
        ensures BypassedAt(h, s, k, i)
      {
        assert old(LinkAt(h, s, i));
      }
      BypassedIsQueue(h, s, k);
    }
  }

  /** Cell i of a chain in which cell k has just been led past its element. */
  ghost predicate BypassedAt<T>(h: Head<T>, s: seq<Entry<T>>, k: nat, i: nat)
    requires i <= |s|
    reads h, s
  {
    i != k + 1 ==> Load(CellAt(h, s, i)) == if i == k then ElementAt(s, k + 1) else ElementAt(s, i)
  }

  lemma BypassedIsQueue<T>(h: Head<T>, s: seq<Entry<T>>, k: nat)
    requires k < |s| && Distinct(s)
    requires h.last == CellAt(h, s, if k + 1 == |s| then k else |s|)
    requires forall i | 0 <= i <= |s| :: BypassedAt(h, s, k, i)
    ensures Queue(h, Cut(s, k, k + 1))
  {
    var t := Cut(s, k, k + 1);
    CutDistinct(s, k, k + 1);
    forall j | 0 <= j <= |t|
      ensures LinkAt(h, t, j)
    {
      if j <= k { assert BypassedAt(h, s, k, j); } else { assert BypassedAt(h, s, k, j + 1); }
    }
  }

  /** STAILQ_CONCAT */
  method Concat<T>(h1: Head<T>, h2: Head<T>, ghost s1: seq<Entry<T>>, ghost s2: seq<Entry<T>>)
    requires Queue(h1, s1) && Queue(h2, s2)
    requires h1 != h2 && Disjoint(s1, s2)
    modifies h1, h2, s1
    ensures Queue(h1, s1 + s2) && Queue(h2, [])
  {
    assert LinkAt(h2, s2, 0);
    if !IsEmpty(h2) {
      Store(h1.last, h2.first);
      h1.last := h2.last;
      Init(h2);
      forall i | 0 <= i <= |s1 + s2|
        ensures LinkAt(h1, s1 + s2, i)
      {
        if i <= |s1| { assert old(LinkAt(h1, s1, i)); }
        if i >= |s1| { assert old(LinkAt(h2, s2, i - |s1|)); }
      }
    } else {
      assert s1 + s2 == s1;
    }
  }

  /** The table loaders' append: an empty staging head is initialised first, whatever its tail
      pointer holds. */
  method Append<T>(h: Head<T>, e: Entry<T>, ghost s: seq<Entry<T>>)
    requires if s == [] then h.first == null else Queue(h, s)
    requires e !in s
    modifies h, e, s
    ensures Queue(h, s + [e])
  {
    if s != [] { assert LinkAt(h, s, 0); }
    if IsEmpty(h) {
      Init(h);
    }
    InsertTail(h, e, s);
  }

  // ----- runs over a pair of queues

  datatype Op<T> =
    | PutFirst(left: bool, e: Entry<T>)
    | PutLast(left: bool, e: Entry<T>)
    | PutAfter(left: bool, at: Entry<T>, e: Entry<T>)
    | Take(left: bool, e: Entry<T>)
    | TakeFirst(left: bool)
    | TakeUntil(left: bool, e: Entry<T>)
    | Join(left: bool)  // the named queue takes over the other one's elements

  datatype Two<T> = Two(a: seq<Entry<T>>, b: seq<Entry<T>>) {
    ghost function Side(left: bool): seq<Entry<T>> { if left then a else b }
    ghost function With(left: bool, s: seq<Entry<T>>): Two<T> { if left then Two(s, b) else Two(a, s) }
  }

  ghost function IndexOf<T>(s: seq<Entry<T>>, e: Entry<T>): (k: nat)
    requires e in s
    ensures k < |s| && s[k] == e
  {
    var k :| 0 <= k < |s| && s[k] == e; k
  }

  ghost function Args<T>(op: Op<T>): set<Entry<T>> {
    match op
    case PutFirst(_, e) => {e}
    case PutLast(_, e) => {e}
    case PutAfter(_, _, e) => {e}
    case _ => {}
  }

  /** The effect of one macro on the one queue it works on. */
  ghost function Effect<T>(s: seq<Entry<T>>, op: Op<T>): (t: seq<Entry<T>>)
    requires Applies(s, op)
    ensures forall x | x in t :: x in s || x in Args(op)
  {
    match op
    case PutFirst(_, e) => [e] + s
    case PutLast(_, e) => s + [e]
    case PutAfter(_, at, e) => Inserted(s, IndexOf(s, at) + 1, e)
    case Take(_, e) => Cut(s, IndexOf(s, e), IndexOf(s, e) + 1)
    case TakeFirst(_) => s[1..]
    case TakeUntil(_, e) => s[IndexOf(s, e) + 1..]
  }

  ghost predicate Applies<T>(s: seq<Entry<T>>, op: Op<T>) {
    && !op.Join?
    && (op.PutAfter? ==> op.at in s)
    && (op.Take? || op.TakeUntil? ==> op.e in s)
    && (op.TakeFirst? ==> s != [])
    && forall x | x in s :: x !in Args(op)
  }

  ghost predicate Legal<T>(q: Two<T>, op: Op<T>) {
    op.Join? || (Applies(q.Side(op.left), op) && forall x | x in q.Side(!op.left) :: x !in Args(op))
  }

  ghost function Apply<T>(q: Two<T>, op: Op<T>): Two<T>
    requires Legal(q, op)
  {
    var s := q.Side(op.left);
    if op.Join? then q.With(op.left, s + q.Side(!op.left)).With(!op.left, [])
    else q.With(op.left, Effect(s, op))
  }

  ghost predicate LegalRun<T>(q: Two<T>, ops: seq<Op<T>>)
    decreases |ops|
  {
    ops == [] || (Legal(q, ops[0]) && LegalRun(Apply(q, ops[0]), ops[1..]))
  }

  ghost function RunOn<T>(q: Two<T>, ops: seq<Op<T>>): Two<T>
    requires LegalRun(q, ops)
    decreases |ops|
  {
    if ops == [] then q else RunOn(Apply(q, ops[0]), ops[1..])
  }

  ghost predicate Queues<T>(ha: Head<T>, hb: Head<T>, q: Two<T>)
    reads ha, hb, q.a, q.b
  {
    ha != hb && Disjoint(q.a, q.b) && Queue(ha, q.a) && Queue(hb, q.b)
  }

  ghost function Footprint<T>(ha: Head<T>, hb: Head<T>, q: Two<T>): set<object> {
    {ha, hb} + (set x | x in q.a :: x as object) + (set x | x in q.b :: x as object)
  }

  method ExecuteOn<T>(h: Head<T>, op: Op<T>, ghost s: seq<Entry<T>>)
    requires Queue(h, s) && Applies(s, op)
    modifies h, s, Args(op)
    ensures Queue(h, Effect(s, op))
  {
    if op.Take? || op.TakeFirst? || op.TakeUntil? {
      TakeOn(h, op, s);
    } else {
      PutOn(h, op, s);
    }
  }

  method PutOn<T>(h: Head<T>, op: Op<T>, ghost s: seq<Entry<T>>)
    requires Queue(h, s) && Applies(s, op) && (op.PutFirst? || op.PutLast? || op.PutAfter?)
    modifies h, s, Args(op)
    ensures Queue(h, Effect(s, op))
  {
    match op
    case PutFirst(_, e) => InsertHead(h, e, s);
    case PutLast(_, e) => InsertTail(h, e, s);
    case PutAfter(_, at, e) => InsertAfter(h, at, e, s, IndexOf(s, at));
  }

  method TakeOn<T>(h: Head<T>, op: Op<T>, ghost s: seq<Entry<T>>)
    requires Queue(h, s) && Applies(s, op) && (op.Take? || op.TakeFirst? || op.TakeUntil?)
    modifies h, s
    ensures Queue(h, Effect(s, op))
  {
    match op
    case Take(_, e) => Remove(h, e, s, IndexOf(s, e));
    case TakeFirst(_) => RemoveHead(h, s);
    case TakeUntil(_, e) => RemoveHeadUntil(h, e, s, IndexOf(s, e));
  }

  lemma ApplyFootprint<T>(ha: Head<T>, hb: Head<T>, q: Two<T>, op: Op<T>)
    requires Legal(q, op)
    ensures Footprint(ha, hb, Apply(q, op)) <= Footprint(ha, hb, q) + Args(op)
  {
  }

  /** A macro on one queue leaves the other one alone. */
  method ExecuteBeside<T>(h: Head<T>, op: Op<T>, ghost s: seq<Entry<T>>, ghost other: Head<T>, ghost t: seq<Entry<T>>)
    requires Queue(h, s) && Queue(other, t) && h != other && Disjoint(s, t) && Applies(s, op)
    requires forall x | x in t :: x !in Args(op)
    modifies h, s, Args(op)
    ensures Queue(h, Effect(s, op)) && Queue(other, t) && Disjoint(Effect(s, op), t)
  {
    ExecuteOn(h, op, s);
    assert unchanged(other) && unchanged(t) && old(Queue(other, t));
  }

  /** One macro call refines Apply on the pair and keeps both tail pointers right. */
  method Execute<T>(ha: Head<T>, hb: Head<T>, op: Op<T>, ghost q: Two<T>)
    requires Queues(ha, hb, q) && Legal(q, op)
    modifies Footprint(ha, hb, q) + Args(op)
    ensures Queues(ha, hb, Apply(q, op))
  {
    assert forall x | x in q.a || x in q.b :: x in Footprint(ha, hb, q);
    if op.Join? {
      if op.left {
        Concat(ha, hb, q.a, q.b);
      } else {
        Concat(hb, ha, q.b, q.a);
      }
    } else if op.left {
      ExecuteBeside(ha, op, q.a, hb, q.b);
    } else {
      ExecuteBeside(hb, op, q.b, ha, q.a);
    }
  }

  /** Through any legal run both heads hold what the run computes on sequences. */
  method Run<T>(ha: Head<T>, hb: Head<T>, ops: seq<Op<T>>, ghost q: Two<T>, ghost region: set<object>)
    requires Queues(ha, hb, q) && LegalRun(q, ops)
    requires Footprint(ha, hb, q) <= region
    requires forall op | op in ops :: Args(op) <= region
    modifies region
    ensures Queues(ha, hb, RunOn(q, ops))
  {
    ghost var cur := q;
    for i := 0 to |ops|
      invariant Queues(ha, hb, cur) && Footprint(ha, hb, cur) <= region
      invariant LegalRun(cur, ops[i..]) && RunOn(cur, ops[i..]) == RunOn(q, ops)
    {
      ApplyFootprint(ha, hb, cur, ops[i]);
      Execute(ha, hb, ops[i], cur);
      cur := Apply(cur, ops[i]);
      assert ops[i..][1..] == ops[i + 1..];
    }
  }

  /** A run of STAILQ_INSERT_TAILs holds the entries in the order they were inserted. */
  lemma {:induction false} InsertionOrder<T>(q: Two<T>, es: seq<Entry<T>>)
    requires Distinct(es)
    requires forall x | x in es :: x !in q.a && x !in q.b
    ensures var ops := seq(|es|, i requires 0 <= i < |es| => PutLast(true, es[i]));
            LegalRun(q, ops) && RunOn(q, ops) == Two(q.a + es, q.b)
    decreases |es|
  {
    var ops := seq(|es|, i requires 0 <= i < |es| => PutLast(true, es[i]));
    if es == [] {
      assert q.a + es == q.a;
    } else {
      var rest := seq(|es[1..]|, i requires 0 <= i < |es[1..]| => PutLast(true, es[1..][i]));
      assert ops[1..] == rest;
      var r := Apply(q, ops[0]);
      assert forall x | x in es[1..] :: x != es[0];
      InsertionOrder(r, es[1..]);
      assert q.a + es == r.a + es[1..];
    }
  }

  /** After any legal run FOREACH sees exactly the entries of either queue, in order. */
  method RunAndWalk<T>(ha: Head<T>, hb: Head<T>, ops: seq<Op<T>>, ghost q: Two<T>, ghost region: set<object>)
    returns (va: seq<Entry<T>>, vb: seq<Entry<T>>)
    requires Queues(ha, hb, q) && LegalRun(q, ops)
    requires Footprint(ha, hb, q) <= region
    requires forall op | op in ops :: Args(op) <= region
    modifies region
    ensures va == RunOn(q, ops).a && vb == RunOn(q, ops).b
  {
    Run(ha, hb, ops, q, region);
    va, vb := WalkBoth(ha, hb, RunOn(q, ops));
  }

  method WalkBoth<T>(ha: Head<T>, hb: Head<T>, ghost q: Two<T>) returns (va: seq<Entry<T>>, vb: seq<Entry<T>>)
    requires Queues(ha, hb, q)
    ensures va == q.a && vb == q.b
  {
    ghost var a, b := q.a, q.b;
    assert Queue(ha, a) && Queue(hb, b);
    va := Foreach(ha, a);
    assert Queue(hb, b) == old(Queue(hb, b));
    vb := Foreach(hb, b);
  }

  /** Entries inserted at the tail are visited behind those that were there, in insertion order. */
  method InsertAndWalk<T>(ha: Head<T>, hb: Head<T>, es: seq<Entry<T>>, ghost q: Two<T>, ghost region: set<object>)
    returns (visited: seq<Entry<T>>)
    requires Queues(ha, hb, q) && Distinct(es)
    requires forall x | x in es :: x !in q.a && x !in q.b
    requires Footprint(ha, hb, q) <= region && forall x | x in es :: x in region
    modifies region
    ensures visited == q.a + es
  {
    var ops := seq(|es|, i requires 0 <= i < |es| => PutLast(true, es[i]));
    InsertionOrder(q, es);
    var beside;
    visited, beside := RunAndWalk(ha, hb, ops, q, region);
  }
}
