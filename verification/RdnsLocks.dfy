/**
 Lock discipline of the reverse-DNS cache: who holds what follows from where each
 thread is, everybody takes the locks in the order mutex, head, body, and so no set
 of threads can be waiting for each other.
 */
module RdnsLocks {
  import opened RdnsCache

  datatype Mode = No | Shared | Exclusive

  // ----- what a thread holds, by where it is

  function LookupMode(pc: LookupPc, l: Lock): Mode {
    match l
    case Mutex =>
      if pc.WantHeadToCompare? || pc.Compare? || pc.DropHeadBusy? || pc.DropHeadIdle? || pc.ChooseWait? || pc.DropMutex?
      then Exclusive else No
    case Head =>
      if pc.Compare? || pc.DropHeadBusy? || pc.DropHeadIdle? || pc.Snapshot? || pc.WantBody? || pc.DropHeadToWalk?
      then Shared
      else if pc.WantBodyToPurge? || pc.Purge? || pc.DropBodyPurged? || pc.DropHeadPurged? then Exclusive else No
    case Body =>
      if pc.DropHeadToWalk? || pc.Walk? || pc.DropBody? then Shared
      else if pc.Purge? || pc.DropBodyPurged? then Exclusive else No
  }

  function AdderMode(pc: AdderPc, l: Lock): Mode {
    match l
    case Mutex =>
      if pc.AWantHead? || pc.ALink? || pc.ADropHead? || pc.ASignal? || pc.ADropMutex? then Exclusive else No
    case Head => if pc.ALink? || pc.ADropHead? then Exclusive else No
    case Body => No
  }

  function DestroyerMode(pc: DestroyerPc, l: Lock): Mode {
    match l
    case Mutex => if pc.DTerminate? || pc.DBroadcast? || pc.DDropMutex? then Exclusive else No
    case Head => if pc.DWantBody? || pc.DFree? || pc.DDropBody? || pc.DDropHead? then Exclusive else No
    case Body => if pc.DFree? || pc.DDropBody? then Exclusive else No
  }

  function ModeOf(s: State, t: Thread, l: Lock): Mode {
    match t
    case Lookup => LookupMode(s.lookup, l)
    case Adder(i) => AdderMode(PcOf(s, i), l)
    case Destroyer => DestroyerMode(s.destroyer, l)
  }

  function OpOf(s: State, t: Thread): LockOp {
    match t
    case Lookup => LookupOp(s.lookup)
    case Adder(i) => AdderOp(PcOf(s, i))
    case Destroyer => DestroyerOp(s.destroyer)
  }

  // ----- what the lock words say

  function Granted(ls: Locks, t: Thread, l: Lock): Mode {
    if Word(ls, l).writer == Held(t) then Exclusive else if t in Word(ls, l).readers then Shared else No
  }

  ghost predicate Excludes(ls: Locks, l: Lock) {
    Word(ls, l).writer != Nobody ==> Word(ls, l).readers == {}
  }

  /** The lock words say exactly what the program counters say, and a writer excludes everybody else. */
  ghost predicate LocksAgree(s: State) {
    && (forall t, l :: Granted(s.locks, t, l) == ModeOf(s, t, l))
    && (forall l :: Excludes(s.locks, l))
  }

  /** The mode in l of a thread that performs op. */
  function ModeAfter(m: Mode, op: LockOp, l: Lock): Mode {
    if op.Take? && op.lock == l then (if op.exclusive then Exclusive else Shared)
    else if op.Drop? && op.lock == l then No
    else m
  }

  lemma DoGrants(ls: Locks, t: Thread, op: LockOp, u: Thread, l: Lock)
    requires CanDo(ls, op) && Excludes(ls, l)
    ensures Granted(Do(ls, t, op), u, l) == if u == t then ModeAfter(Granted(ls, t, l), op, l) else Granted(ls, u, l)
    ensures Excludes(Do(ls, t, op), l)
  {
  }

  /** Each thread moves on to a place whose holdings are its old ones changed by its lock operation. */
  lemma LookupMoves(s: State, e: Env, l: Lock)
    ensures LookupMode(LookupGoto(s, e), l) == ModeAfter(LookupMode(s.lookup, l), LookupOp(s.lookup), l)
  {
  }

  lemma AdderMoves(pc: AdderPc, n: Addr, l: Lock)
    ensures AdderMode(AdderGoto(pc, n), l) == ModeAfter(AdderMode(pc, l), AdderOp(pc), l)
  {
  }

  lemma DestroyerMoves(s: State, l: Lock)
    ensures DestroyerMode(DestroyerGoto(s), l) == ModeAfter(DestroyerMode(s.destroyer, l), DestroyerOp(s.destroyer), l)
  {
  }

  /** The fields the three data effects leave to the program counters and lock words. */
  lemma EffectsLeavePcs(s: State, e: Env, i: nat, n: Addr, garbage: int)
    ensures var r := LookupEffect(s, e); r.adders == s.adders && r.destroyer == s.destroyer
    ensures var r := AdderEffect(s, PcOf(s, i), n, garbage);
            r.destroyer == s.destroyer && forall l :: LookupMode(r.lookup, l) == LookupMode(s.lookup, l)
    ensures var r := DestroyerEffect(s);
            r.adders == s.adders && forall l :: LookupMode(r.lookup, l) == LookupMode(s.lookup, l)
  {
  }

  lemma StepKeepsLock(s: State, a: Action, u: Thread, l: Lock)
    requires LocksAgree(s) && Enabled(s, a)
    ensures Granted(Next(s, a).locks, u, l) == ModeOf(Next(s, a), u, l) && Excludes(Next(s, a).locks, l)
  {
    assert Excludes(s.locks, l) && Granted(s.locks, u, l) == ModeOf(s, u, l);
    match a
    case LookupStep(e) =>
      DoGrants(s.locks, Lookup, LookupOp(s.lookup), u, l);
      LookupMoves(s, e, l);
      EffectsLeavePcs(s, e, 0, 0, 0);
    case AdderStep(i, n, garbage) =>
      DoGrants(s.locks, Adder(i), AdderOp(PcOf(s, i)), u, l);
      AdderMoves(PcOf(s, i), n, l);
      EffectsLeavePcs(s, Env(0, 0, true), i, n, garbage);
    case DestroyerStep =>
      DoGrants(s.locks, Destroyer, DestroyerOp(s.destroyer), u, l);
      DestroyerMoves(s, l);
      EffectsLeavePcs(s, Env(0, 0, true), 0, 0, 0);
    case SetTtl(v) =>
  }

  lemma StepKeepsLocks(s: State, a: Action)
    requires LocksAgree(s) && Enabled(s, a)
    ensures LocksAgree(Next(s, a))
  {
    forall u, l
      ensures Granted(Next(s, a).locks, u, l) == ModeOf(Next(s, a), u, l)
    {
      StepKeepsLock(s, a, u, l);
    }
    forall l
      ensures Excludes(Next(s, a).locks, l)
    {
      StepKeepsLock(s, a, Lookup, l);
    }
  }

  // ----- waiting

  function Rank(l: Lock): nat {
    match l case Mutex => 0 case Head => 1 case Body => 2
  }

  predicate Holds(s: State, t: Thread, l: Lock) {
    Granted(s.locks, t, l) != No
  }

  /** t cannot go on before u does: u holds the lock t wants in a conflicting mode, or t wants to
      read and u is a writer queued for the same lock (a lock may prefer its writers). */
  predicate WaitsFor(s: State, t: Thread, u: Thread) {
    var op := OpOf(s, t);
    op.Take? &&
    ( (Holds(s, u, op.lock) && (op.exclusive || Granted(s.locks, u, op.lock) == Exclusive))
      || (!op.exclusive && OpOf(s, u) == Take(op.lock, true)))
  }

  /** Nobody asks for a lock of the same or a lower rank than one it holds. */
  lemma AcquiresInOrder(s: State, t: Thread, l: Lock)
    requires LocksAgree(s) && Holds(s, t, l) && OpOf(s, t).Take?
    ensures Rank(l) < Rank(OpOf(s, t).lock)
  {
  }

  function Level(op: LockOp): nat
    requires op.Take?
  {
    2 * Rank(op.lock) + if op.exclusive then 1 else 0
  }

  lemma WaitingClimbs(s: State, t: Thread, u: Thread)
    requires LocksAgree(s) && WaitsFor(s, t, u) && OpOf(s, u).Take?
    ensures Level(OpOf(s, t)) < Level(OpOf(s, u))
  {
  }

  ghost predicate WaitCycle(s: State, c: seq<Thread>) {
    c != [] && forall i | 0 <= i < |c| :: WaitsFor(s, c[i], Successor(c, i))
  }

  function Successor(c: seq<Thread>, i: nat): Thread
    requires i < |c|
  {
    if i + 1 < |c| then c[i + 1] else c[0]
  }

  /** The level of the lock a thread is queued for; threads that want none are below all others. */
  function LevelOf(s: State, t: Thread): int {
    if OpOf(s, t).Take? then Level(OpOf(s, t)) else -1
  }

  lemma CycleClimbs(s: State, c: seq<Thread>, k: nat)
    requires LocksAgree(s) && WaitCycle(s, c) && k < |c|
    ensures LevelOf(s, c[k]) < LevelOf(s, Successor(c, k))
  {
    var j := if k + 1 < |c| then k + 1 else 0;
    assert WaitsFor(s, c[k], Successor(c, k)) && WaitsFor(s, c[j], Successor(c, j));
    WaitingClimbs(s, c[k], c[j]);
  }

  /** Numbers that rise at every place of a circle: there are none. */
  ghost predicate RisesAround(levels: seq<int>) {
    forall k | 0 <= k < |levels| :: levels[k] < levels[if k + 1 < |levels| then k + 1 else 0]
  }

  lemma {:induction false} RisesAlong(levels: seq<int>, k: nat)
    requires RisesAround(levels) && k < |levels|
    ensures levels[0] <= levels[k]
  {
    if k > 0 {
      RisesAlong(levels, k - 1);
      assert levels[k - 1] < levels[if k - 1 + 1 < |levels| then k - 1 + 1 else 0];
    }
  }

  lemma CycleRises(s: State, c: seq<Thread>) returns (levels: seq<int>)
    requires LocksAgree(s) && WaitCycle(s, c)
    ensures |levels| == |c| && RisesAround(levels)
  {
    levels := seq(|c|, i requires 0 <= i < |c| => LevelOf(s, c[i]));
    forall k | 0 <= k < |c|
      ensures levels[k] < levels[if k + 1 < |c| then k + 1 else 0]
    {
      CycleClimbs(s, c, k);
    }
  }

  lemma NoWaitCycle(s: State, c: seq<Thread>)
    requires LocksAgree(s)
    ensures !WaitCycle(s, c)
  {
    if WaitCycle(s, c) {
      var levels := CycleRises(s, c);
      RisesAlong(levels, |c| - 1);
    }
  }

  // ----- and so somebody can always go on

  function StepOf(t: Thread): Action {
    match t
    case Lookup => LookupStep(Env(0, 0, true))
    case Adder(i) => AdderStep(i, 0, 0)
    case Destroyer => DestroyerStep
  }

  lemma HolderCanStep(s: State, u: Thread, l: Lock)
    requires LocksAgree(s) && Holds(s, u, l) && !OpOf(s, u).Take?
    ensures Enabled(s, StepOf(u))
  {
  }

  lemma SomeoneHolds(s: State, t: Thread) returns (u: Thread)
    requires OpOf(s, t).Take? && !CanDo(s.locks, OpOf(s, t))
    ensures Holds(s, u, OpOf(s, t).lock)
  {
    var w := Word(s.locks, OpOf(s, t).lock);
    if w.writer != Nobody { u := w.writer.owner; } else { u :| u in w.readers; }
  }

  /** Whenever a thread is kept out of a lock, some thread that holds a lock can take a step. */
  lemma {:induction false} SomeHolderCanStep(s: State, t: Thread) returns (u: Thread, l: Lock)
    requires LocksAgree(s) && OpOf(s, t).Take? && !CanDo(s.locks, OpOf(s, t))
    ensures Holds(s, u, l) && Enabled(s, StepOf(u))
    decreases 2 - Rank(OpOf(s, t).lock)
  {
    u := SomeoneHolds(s, t);
    l := OpOf(s, t).lock;
    if !OpOf(s, u).Take? {
      HolderCanStep(s, u, l);
    } else {
      AcquiresInOrder(s, u, l);
      if !CanDo(s.locks, OpOf(s, u)) {
        u, l := SomeHolderCanStep(s, u);
      }
    }
  }
}
