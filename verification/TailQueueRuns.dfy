/**
 Runs over many tail queues at once.  The abstract heap is a map from heads to the
 sequences they hold; every macro refines one update of that map, and the heap
 invariant of all the other queues survives it.
 */
module TailQueueRuns {
  import opened Seqs
  import opened TailQueue

  datatype Op =
    | MakeEmpty(h: Head)
    | PutFirst(h: Head, e: Entry)
    | PutLast(h: Head, e: Entry)
    | PutAfter(h: Head, at: Entry, e: Entry)
    | PutBefore(h: Head, at: Entry, e: Entry)
    | Take(h: Head, e: Entry)
    | Join(h: Head, h2: Head)

  type Heads = map<Head, seq<Entry>>

  ghost predicate Unqueued(qs: Heads, e: Entry) {
    forall h | h in qs :: e !in qs[h]
  }

  /** The global heap invariant: every head holds its sequence and no entry is in two of them. */
  ghost predicate World(qs: Heads)
    reads Footprint(qs)
  {
    Separate(qs) && forall h | h in qs :: Queue(h, qs[h])
  }

  ghost predicate Separate(qs: Heads) {
    forall h, h', e | h in qs && h' in qs && e in qs[h] && e in qs[h'] :: h == h'
  }

  ghost function Footprint(qs: Heads): (r: set<object>)
    ensures forall h | h in qs :: h in r
    ensures forall h, e | h in qs && e in qs[h] :: e in r
  {
    (set h | h in qs) + (set h, e | h in qs && e in qs[h] :: e)
  }

  ghost function Args(op: Op): set<object> {
    match op
    case PutFirst(_, e) => {e}
    case PutLast(_, e) => {e}
    case PutAfter(_, _, e) => {e}
    case PutBefore(_, _, e) => {e}
    case _ => {}
  }

  ghost function IndexOf(s: seq<Entry>, e: Entry): (k: nat)
    requires e in s
    ensures k < |s| && s[k] == e
  {
    var k :| 0 <= k < |s| && s[k] == e; k
  }

  /** What the caller of each macro has to see to. */
  ghost predicate Legal(qs: Heads, op: Op) {
    op.h in qs &&
    match op
    case MakeEmpty(_) => true
    case PutFirst(_, e) => Unqueued(qs, e)
    case PutLast(_, e) => Unqueued(qs, e)
    case PutAfter(h, at, e) => Unqueued(qs, e) && at in qs[h]
    case PutBefore(h, at, e) => Unqueued(qs, e) && at in qs[h]
    case Take(h, e) => e in qs[h]
    case Join(h, h2) => h2 in qs && h != h2
  }

  /** The effect of one macro on the one queue it works on. */
  ghost function Effect(s: seq<Entry>, op: Op): seq<Entry>
    requires !op.Join?
    requires op.PutAfter? || op.PutBefore? ==> op.at in s
    requires op.Take? ==> op.e in s
  {
    match op
    case MakeEmpty(h) => []
    case PutFirst(h, e) => [e] + s
    case PutLast(h, e) => s + [e]
    case PutAfter(h, at, e) => Inserted(s, IndexOf(s, at) + 1, e)
    case PutBefore(h, at, e) => Inserted(s, IndexOf(s, at), e)
    case Take(h, e) => Cut(s, IndexOf(s, e), IndexOf(s, e) + 1)
  }

  ghost function Apply(qs: Heads, op: Op): Heads
    requires Legal(qs, op)
  {
    if op.Join? then qs[op.h := qs[op.h] + qs[op.h2]][op.h2 := []]
    else qs[op.h := Effect(qs[op.h], op)]
  }

  ghost predicate LegalRun(qs: Heads, ops: seq<Op>)
    decreases |ops|
  {
    ops == [] || (Legal(qs, ops[0]) && LegalRun(Apply(qs, ops[0]), ops[1..]))
  }

  ghost function RunOn(qs: Heads, ops: seq<Op>): Heads
    requires LegalRun(qs, ops)
    decreases |ops|
  {
    if ops == [] then qs else RunOn(Apply(qs, ops[0]), ops[1..])
  }

  method ExecuteOn(op: Op, ghost s: seq<Entry>)
    requires !op.Join? && Queue(op.h, s)
    requires op.PutAfter? || op.PutBefore? ==> op.at in s
    requires op.Take? ==> op.e in s
    requires forall e | e in s :: e !in Args(op)
    modifies op.h, s, Args(op)
    ensures Queue(op.h, Effect(s, op))
  {
    match op
    case MakeEmpty(h) =>
      Init(h);
    case PutFirst(h, e) =>
      InsertHead(h, e, s);
    case PutLast(h, e) =>
      InsertTail(h, e, s);
    case PutAfter(h, at, e) =>
      InsertAfter(h, at, e, s, IndexOf(s, at));
    case PutBefore(h, at, e) =>
      InsertBefore(at, e, h, s, IndexOf(s, at));
    case Take(h, e) =>
      MemberLinks(h, s, IndexOf(s, e));
      Remove(h, e, s, IndexOf(s, e), IndexOf(s, e) + 1);
  }

  lemma EffectElements(s: seq<Entry>, op: Op)
    requires !op.Join?
    requires op.PutAfter? || op.PutBefore? ==> op.at in s
    requires op.Take? ==> op.e in s
    ensures forall e | e in Effect(s, op) :: e in s || e in Args(op)
  {
  }

  lemma ApplySeparate(qs: Heads, op: Op)
    requires Separate(qs) && Legal(qs, op)
    ensures Separate(Apply(qs, op))
    ensures Footprint(Apply(qs, op)) <= Footprint(qs) + Args(op)
  {
    var r := Apply(qs, op);
    if !op.Join? { EffectElements(qs[op.h], op); }
    forall h, e | h in r && e in r[h]
      ensures e in Args(op) || e in Footprint(qs)
      ensures e in Args(op) ==> h == op.h
      ensures e !in Args(op) ==> e in qs[h] || (op.Join? && h == op.h && e in qs[op.h2])
    {
    }
  }

  /** One macro call refines Apply and keeps the invariant of every queue in the heap. */
  method Execute(op: Op, ghost qs: Heads)
    requires World(qs) && Legal(qs, op)
    modifies Footprint(qs) + Args(op)
    ensures World(Apply(qs, op))
    ensures Footprint(Apply(qs, op)) <= Footprint(qs) + Args(op)
  {
    ApplySeparate(qs, op);
    if op.Join? {
      ExecuteJoin(op.h, op.h2, qs);
    } else {
      ExecuteAt(op, qs);
    }
  }

  method ExecuteAt(op: Op, ghost qs: Heads)
    requires World(qs) && Legal(qs, op) && !op.Join?
    modifies Footprint(qs) + Args(op)
    ensures forall h | h in qs :: Queue(h, Apply(qs, op)[h])
  {
    ghost var s := qs[op.h];
    assert forall e | e in s :: e in Footprint(qs);
    ExecuteOn(op, s);
    forall h | h in qs && h != op.h
      ensures Queue(h, qs[h])
    {
      assert forall e | e in qs[h] :: e !in s && e !in Args(op);
      assert old(Queue(h, qs[h])) && unchanged(h) && unchanged(qs[h]);
    }
  }

  method ExecuteJoin(h1: Head, h2: Head, ghost qs: Heads)
    requires World(qs) && Legal(qs, Join(h1, h2))
    modifies Footprint(qs)
    ensures forall h | h in qs :: Queue(h, Apply(qs, Join(h1, h2))[h])
  {
    ghost var s1, s2 := qs[h1], qs[h2];
    assert forall e | e in s1 || e in s2 :: e in Footprint(qs);
    forall i, j | 0 <= i < |s1| && 0 <= j < |s2|
      ensures s1[i] != s2[j]
    {
      assert s1[i] in qs[h1] && s2[j] in qs[h2];
    }
    Concat(h1, h2, s1, s2);
    forall h | h in qs && h != h1 && h != h2
      ensures Queue(h, qs[h])
    {
      forall i | 0 <= i < |qs[h]|
        ensures unchanged(qs[h][i])
      {
        assert qs[h][i] in qs[h] && qs[h][i] !in qs[h1] && qs[h][i] !in qs[h2];
      }
      assert old(Queue(h, qs[h])) && unchanged(h) && unchanged(qs[h]);
    }
  }

  /** Any legal run leaves every head holding exactly what the run computes on sequences. */
  method Run(ops: seq<Op>, ghost qs: Heads, ghost region: set<object>)
    requires World(qs) && LegalRun(qs, ops)
    requires Footprint(qs) <= region
    requires forall op | op in ops :: Args(op) <= region
    modifies region
    ensures World(RunOn(qs, ops))
  {
    ghost var cur := qs;
    for i := 0 to |ops|
      invariant World(cur) && Footprint(cur) <= region
      invariant LegalRun(cur, ops[i..]) && RunOn(cur, ops[i..]) == RunOn(qs, ops)
    {
      Execute(ops[i], cur);
      cur := Apply(cur, ops[i]);
      assert ops[i..][1..] == ops[i + 1..];
    }
  }

  /** After any legal run both traversals of any queue see exactly its elements: FOREACH in order,
      FOREACH_REVERSE, which goes through the head-layout pun, in the opposite order. */
  method RunAndWalk(ops: seq<Op>, h: Head, ghost qs: Heads, ghost region: set<object>)
    returns (forward: seq<Entry>, backward: seq<Entry>)
    requires World(qs) && LegalRun(qs, ops) && h in RunOn(qs, ops)
    requires Footprint(qs) <= region
    requires forall op | op in ops :: Args(op) <= region
    modifies region
    ensures forward == RunOn(qs, ops)[h] && backward == Reverse(RunOn(qs, ops)[h])
  {
    Run(ops, qs, region);
    ghost var s := RunOn(qs, ops)[h];
    assert Queue(h, s);
    forward := Foreach(h, s);
    assert Queue(h, s);
    backward := ForeachReverse(h, s);
  }
}
