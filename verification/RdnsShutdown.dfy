/**
 Exactly when rdns_cache_destroy can hang: what the lookup thread may still do once the
 destroyer has broadcast its request to terminate.
 */
module RdnsShutdown {
  import opened RdnsCache
  import opened RdnsLocks
  import opened RdnsInvariants
  import opened RdnsMemory
  import opened RdnsTheorems

  /** Past the test of rdns_terminate and before the end of the wait. */
  predicate FirstPass(pc: LookupPc) {
    || pc.WantMutex? || pc.WantHeadToCompare? || pc.Compare? || pc.DropHeadBusy? || pc.DropHeadIdle?
    || pc.ChooseWait? || pc.Waiting?
  }

  // ----- the lookup thread never waits twice

  lemma StaysTold(s: State, a: Action)
    requires Enabled(s, a) && s.terminate != 0
    ensures Next(s, a).terminate != 0
    ensures !FirstPass(s.lookup) ==> !FirstPass(Next(s, a).lookup)
  {
  }

  /** After the request, a thread that is not between the test and the wait never waits. */
  lemma {:induction false} WaitsNoMore(s: State, run: seq<Action>)
    requires Possible(s, run) && s.terminate != 0 && !FirstPass(s.lookup)
    ensures !After(s, run).lookup.Waiting?
    decreases |run|
  {
    if run != [] {
      StaysTold(s, run[0]);
      WaitsNoMore(Next(s, run[0]), run[1..]);
    }
  }

  // ----- and it waits only if nothing was new

  predicate NothingNew(s: State) { s.hostlist == s.lastStart && !s.history.reused }

  /** The list has the head it had, or can get it back: with last_start's node gone from the list, a new node
      can be allocated at its address and put in front. */
  predicate HeadMayReturn(s: State) {
    s.hostlist == s.lastStart || (s.lastStart.At? && s.lastStart.a !in s.history.chain)
  }

  /** What holds from s0 on until the wait ends. */
  ghost predicate Since(s0: State, s: State) {
    && s.terminate != 0 && FirstPass(s.lookup) && s.lastStart == s0.lastStart && s.expiry == s0.expiry
    && (s.lookup.Waiting? ==> s.lookup.timed == (s.expiry != 0))
    && (!NothingNew(s0) ==> if s.lookup.Waiting? then s.history.reused else !NothingNew(s))
    && (!HeadMayReturn(s0) ==> !HeadMayReturn(s) && !s.lookup.Waiting?)
  }

  lemma LookupKeepsSince(s0: State, s: State, e: Env)
    requires Cursor(s) && Since(s0, s)
    ensures Since(s0, LookupNext(s, e)) || !FirstPass(LookupNext(s, e).lookup)
  {
  }

  lemma AdderKeepsSince(s0: State, s: State, i: nat, n: Addr, garbage: int)
    requires Linked(s) && Owned(s) && StartKnown(s) && Since(s0, s)
    ensures Since(s0, AdderNext(s, i, n, garbage)) || !FirstPass(AdderNext(s, i, n, garbage).lookup)
  {
    if PcOf(s, i).ALink? { assert Carries(s, i, PcOf(s, i).n); }
  }

  lemma DestroyerKeepsSince(s0: State, s: State)
    requires ExitSeen(s) && Since(s0, s)
    ensures Since(s0, DestroyerNext(s)) || !FirstPass(DestroyerNext(s).lookup)
  {
  }

  lemma StepKeepsSince(s0: State, s: State, a: Action)
    requires Inv(s) && Since(s0, s)
    ensures Since(s0, Next(s, a)) || !FirstPass(Next(s, a).lookup)
  {
    match a
    case LookupStep(e) => LookupKeepsSince(s0, s, e);
    case AdderStep(i, n, garbage) => AdderKeepsSince(s0, s, i, n, garbage);
    case DestroyerStep => DestroyerKeepsSince(s0, s);
    case SetTtl(_) =>
  }

  lemma {:induction false} WaitsOnlyIdle(s0: State, s: State, run: seq<Action>)
    requires Inv(s) && Since(s0, s) && Possible(s, run) && After(s, run).lookup.Waiting?
    ensures After(s, run).lookup == Waiting(s0.expiry != 0) && HeadMayReturn(s0)
    ensures NothingNew(s0) || After(s, run).history.reused
    decreases |run|
  {
    if run != [] {
      StepKeepsInv(s, run[0]);
      StepKeepsSince(s0, s, run[0]);
      StaysTold(s, run[0]);
      if FirstPass(Next(s, run[0]).lookup) {
        WaitsOnlyIdle(s0, Next(s, run[0]), run[1..]);
      } else {
        WaitsNoMore(Next(s, run[0]), run[1..]);
      }
    }
  }

  // ----- in which case it can

  lemma NobodyElse(s: State)
    requires LocksAgree(s) && s.destroyer == DDropMutex && s.lookup == WantMutex
    ensures s.locks == Locks(LockWord(Held(Destroyer), {}), FREE, FREE)
  {
    assert Granted(s.locks, Destroyer, Mutex) == ModeOf(s, Destroyer, Mutex);
    forall t: Thread, l: Lock | t != Destroyer
      ensures Granted(s.locks, t, l) == No
    {
      NotBeside(s, t, l);
    }
    forall l: Lock | l != Mutex
      ensures Word(s.locks, l) == FREE
    {
      assert Granted(s.locks, Destroyer, l) == ModeOf(s, Destroyer, l);
      UnheldIsFree(s.locks, l);
    }
    assert Excludes(s.locks, Mutex);
    assert s.locks.head == Word(s.locks, Head) && s.locks.body == Word(s.locks, Body);
  }

  /** An adder holds the head lock only together with the mutex. */
  lemma NotBeside(s: State, t: Thread, l: Lock)
    requires LocksAgree(s) && s.destroyer == DDropMutex && s.lookup == WantMutex && t != Destroyer
    ensures Granted(s.locks, t, l) == No
  {
    assert Granted(s.locks, Destroyer, Mutex) == ModeOf(s, Destroyer, Mutex);
    assert Granted(s.locks, t, Mutex) == ModeOf(s, t, Mutex) && Granted(s.locks, t, l) == ModeOf(s, t, l);
    assert Excludes(s.locks, Mutex);
  }

  lemma HolderOf(ls: Locks, l: Lock) returns (t: Thread)
    requires Word(ls, l) != FREE
    ensures Granted(ls, t, l) != No
  {
    var w := Word(ls, l);
    if w.writer.Held? { t := w.writer.owner; } else { t :| t in w.readers; }
  }

  lemma UnheldIsFree(ls: Locks, l: Lock)
    requires forall t: Thread :: Granted(ls, t, l) == No
    ensures Word(ls, l) == FREE
  {
    if Word(ls, l) != FREE { var t := HolderOf(ls, l); }
  }

  /** One more step of a run from s to t. */
  lemma Go(s: State, run: seq<Action>, t: State, a: Action) returns (longer: seq<Action>, r: State)
    requires Possible(s, run) && After(s, run) == t && Enabled(t, a)
    ensures Possible(s, longer) && After(s, longer) == r == Next(t, a)
  {
    RunExtends(s, run, a);
    longer, r := run + [a], Next(t, a);
  }

  lemma GoLookup(s: State, run: seq<Action>, t: State) returns (longer: seq<Action>, r: State)
    requires Possible(s, run) && After(s, run) == t && LookupEnabled(t, Env(0, 0, true))
    ensures Possible(s, longer) && After(s, longer) == r == LookupNext(t, Env(0, 0, true))
  {
    longer, r := Go(s, run, t, LookupStep(Env(0, 0, true)));
  }

  lemma ToCompare(s: State) returns (run: seq<Action>, r: State)
    requires s.destroyer == DDropMutex && s.lookup == WantMutex
    requires s.locks == Locks(LockWord(Held(Destroyer), {}), FREE, FREE)
    ensures Possible(s, run) && After(s, run) == r
    ensures r == s.(destroyer := DSpin, lookup := Compare,
                    locks := Locks(LockWord(Held(Lookup), {}), LockWord(Nobody, {Lookup}), FREE))
  {
    run, r := Go(s, [], s, DestroyerStep);
    assert r == s.(destroyer := DSpin, locks := Locks(FREE, FREE, FREE));
    run, r := GoLookup(s, run, r);
    run, r := GoLookup(s, run, r);
  }

  lemma ToWait(s: State, before: seq<Action>, t: State) returns (run: seq<Action>, r: State)
    requires Possible(s, before) && After(s, before) == t && t.lookup == Compare && t.hostlist == t.lastStart
    requires t.locks == Locks(LockWord(Held(Lookup), {}), LockWord(Nobody, {Lookup}), FREE)
    ensures Possible(s, run) && After(s, run) == r
    ensures r == t.(lookup := Waiting(t.expiry != 0), locks := Locks(FREE, FREE, FREE))
  {
    run, r := GoLookup(s, before, t);
    assert r == t.(lookup := DropHeadIdle);
    run, r := GoLookup(s, run, r);
    run, r := GoLookup(s, run, r);
  }

  // ----- the exact condition

  /** A schedule from s puts the lookup thread to sleep, without any address having been reused. */
  ghost predicate CanSleep(s: State, timed: bool) {
    exists run: seq<Action> ::
      Possible(s, run) && After(s, run).lookup == Waiting(timed) && !After(s, run).history.reused
  }

  lemma SleepsOnlyIdle(s: State, timed: bool)
    requires Inv(s) && s.terminate != 0 && !s.lookup.Waiting? && CanSleep(s, timed)
    ensures FirstPass(s.lookup) && NothingNew(s) && timed == (s.expiry != 0)
  {
    var run: seq<Action> :| Possible(s, run) && After(s, run).lookup == Waiting(timed) && !After(s, run).history.reused;
    if FirstPass(s.lookup) {
      WaitsOnlyIdle(s, s, run);
    } else {
      WaitsNoMore(s, run);
    }
  }

  lemma IdleCanSleep(s: State)
    requires Inv(s) && s.destroyer == DDropMutex && s.lookup == WantMutex && NothingNew(s)
    ensures CanSleep(s, s.expiry != 0)
  {
    NobodyElse(s);
    var run, t := ToCompare(s);
    run, t := ToWait(s, run, t);
  }

  /** While the destroyer holds the mutex, the lookup thread does not. */
  lemma OutsideMutex(s: State)
    requires LocksAgree(s) && s.destroyer == DDropMutex && FirstPass(s.lookup) && !s.lookup.Waiting?
    ensures s.lookup == WantMutex
  {
    OnlyHolder(s, Destroyer, Lookup, Mutex);
  }

  /** Once rdns_cache_destroy has broadcast, the lookup thread can go to sleep again without any address
      being reused exactly if it stood between its test of rdns_terminate and the mutex with nothing new
      in the list; it then sleeps with a time limit exactly if first_to_expire is set. */
  lemma SleepsAgainIff(s: State, timed: bool)
    requires Reachable(s) && s.destroyer == DBroadcast
    ensures CanSleep(Next(s, DestroyerStep), timed)
            <==> s.lookup == WantMutex && NothingNew(s) && timed == (s.expiry != 0)
  {
    var r := Next(s, DestroyerStep);
    ReachableInv(s);
    StepKeepsInv(s, DestroyerStep);
    if CanSleep(r, timed) {
      SleepsOnlyIdle(r, timed);
      OutsideMutex(r);
    }
    if s.lookup == WantMutex && NothingNew(s) && timed == (s.expiry != 0) { IdleCanSleep(r); }
  }

  // ----- stranded

  /** The destroyer spins for a 2 that the lookup thread does not store: it sleeps without a time limit, or
      it stored its 2 before the destroyer's 1 and is gone. */
  predicate Stranded(s: State) {
    s.destroyer == DSpin && s.terminate != 2 && (s.lookup == Waiting(false) || s.lookup == Exited)
  }

  /** The lookup thread is woken, by an adder's signal or for no reason. */
  predicate Wakes(s: State, a: Action) {
    s.lookup.Waiting? && (a.LookupStep? || (a.AdderStep? && PcOf(s, a.i).ASignal?))
  }

  /** A stranded shutdown stays stranded until the lookup thread is woken. */
  lemma StrandedUntilWoken(s: State, a: Action)
    requires Stranded(s) && Enabled(s, a)
    ensures Stranded(Next(s, a)) <==> !Wakes(s, a)
  {
  }

  /** Once the lookup thread is gone nothing ends it. */
  lemma {:induction false} StrandedForEver(s: State, run: seq<Action>)
    requires Stranded(s) && s.lookup == Exited && Possible(s, run)
    ensures Stranded(After(s, run))
    decreases |run|
  {
    if run != [] { StrandedForEver(Next(s, run[0]), run[1..]); }
  }

  /** The request stands, and an exit since then has been answered. */
  predicate Answered(s: State) {
    HasTold(s.destroyer) && (s.lookup == Exited ==> s.terminate == 2)
  }

  lemma StepStaysAnswered(s: State, a: Action)
    requires Answered(s) && Enabled(s, a)
    ensures Answered(Next(s, a))
  {
  }

  lemma {:induction false} StaysAnswered(s: State, run: seq<Action>)
    requires Answered(s) && Possible(s, run)
    ensures Answered(After(s, run))
    decreases |run|
  {
    if run != [] {
      StepStaysAnswered(s, run[0]);
      StaysAnswered(Next(s, run[0]), run[1..]);
    }
  }

  ghost predicate CanStrand(s: State) {
    exists run: seq<Action> :: Possible(s, run) && Stranded(After(s, run))
  }

  lemma StrandsOnlyIf(s: State)
    requires Inv(s) && s.destroyer == DDropMutex && s.terminate != 0 && !s.lookup.Waiting? && CanStrand(s)
    ensures (s.lookup == Exited && s.terminate != 2) || (s.lookup == WantMutex && s.expiry == 0 && HeadMayReturn(s))
  {
    var run: seq<Action> :| Possible(s, run) && Stranded(After(s, run));
    if s.lookup == Exited ==> s.terminate == 2 {
      StaysAnswered(s, run);
      if FirstPass(s.lookup) {
        WaitsOnlyIdle(s, s, run);
        OutsideMutex(s);
      } else {
        WaitsNoMore(s, run);
      }
    }
  }

  // ----- and how it comes to that

  lemma ExitedStrands(s: State)
    requires s.destroyer == DDropMutex && s.lookup == Exited && s.terminate != 2
    ensures CanStrand(s)
  {
    var run, r := Go(s, [], s, DestroyerStep);
  }

  lemma HeadStrands(s: State, before: seq<Action>, t: State)
    requires Possible(s, before) && After(s, before) == t && t.destroyer == DSpin && t.terminate != 2
    requires t.locks == Locks(FREE, FREE, FREE) && t.lookup == WantMutex && t.expiry == 0 && t.hostlist == t.lastStart
    ensures CanStrand(s)
  {
    var run, r := GoLookup(s, before, t);
    run, r := GoLookup(s, run, r);
    run, r := ToWait(s, run, r);
  }

  lemma GoAdder(s: State, run: seq<Action>, t: State, i: nat, n: Addr) returns (longer: seq<Action>, r: State)
    requires Possible(s, run) && After(s, run) == t && AdderEnabled(t, i, n)
    ensures Possible(s, longer) && After(s, longer) == r && PcOf(r, i) == AdderGoto(PcOf(t, i), n)
    ensures r.locks == Do(t.locks, Adder(i), AdderOp(PcOf(t, i)))
    ensures r == AdderEffect(t, PcOf(t, i), n, 0).(adders := r.adders, locks := r.locks)
  {
    longer, r := Go(s, run, t, AdderStep(i, n, 0));
  }

  lemma SoloLock(s: State, before: seq<Action>, t: State, i: nat, n: Addr) returns (run: seq<Action>, r: State)
    requires Possible(s, before) && After(s, before) == t && PcOf(t, i) == AWantMutex(n)
    requires t.locks == Locks(FREE, FREE, FREE)
    ensures Possible(s, run) && After(s, run) == r && PcOf(r, i) == ALink(n)
    ensures r.locks == Locks(LockWord(Held(Adder(i)), {}), LockWord(Held(Adder(i)), {}), FREE)
    ensures r == t.(adders := r.adders, locks := r.locks)
  {
    run, r := GoAdder(s, before, t, i, n);
    run, r := GoAdder(s, run, r, i, n);
  }

  lemma SoloUnlock(s: State, before: seq<Action>, t: State, i: nat, n: Addr) returns (run: seq<Action>, r: State)
    requires Possible(s, before) && After(s, before) == t && PcOf(t, i) == ADropHead(n) && !t.lookup.Waiting?
    requires t.locks == Locks(LockWord(Held(Adder(i)), {}), LockWord(Held(Adder(i)), {}), FREE)
    ensures Possible(s, run) && After(s, run) == r && r.locks == Locks(FREE, FREE, FREE)
    ensures r == t.(adders := r.adders, locks := r.locks)
  {
    run, r := GoAdder(s, before, t, i, n);
    run, r := GoAdder(s, run, r, i, n);
    run, r := GoAdder(s, run, r, i, n);
  }

  /** An adder alone links its node and gives up its locks. */
  lemma SoloLink(s: State, before: seq<Action>, t: State, i: nat, n: Addr) returns (run: seq<Action>, r: State)
    requires Possible(s, before) && After(s, before) == t && PcOf(t, i) == AWantMutex(n)
    requires t.locks == Locks(FREE, FREE, FREE) && !t.lookup.Waiting?
    ensures Possible(s, run) && After(s, run) == r
    ensures r.locks == Locks(FREE, FREE, FREE) && r.hostlist == At(n)
    ensures r == t.(adders := r.adders, locks := r.locks, mem := r.mem, hostlist := r.hostlist, history := r.history)
  {
    run, r := SoloLock(s, before, t, i, n);
    run, r := GoAdder(s, run, r, i, n);
    run, r := SoloUnlock(s, run, r, i, n);
  }

  lemma {:induction false} SomeoneElse(ks: set<nat>) returns (i: nat)
    ensures forall k | k in ks :: k < i
    decreases |ks|
  {
    i := 0;
    if ks != {} {
      var k :| k in ks;
      var j := SomeoneElse(ks - {k});
      i := if j > k then j else k + 1;
      assert forall l | l in ks :: l == k || l in ks - {k};
    }
  }

  /** last_start's address comes back into an adder's hands, if it is not there already. */
  lemma Reallocate(s: State, before: seq<Action>, t: State, n: Addr)
    returns (run: seq<Action>, r: State, i: nat)
    requires Inv(t) && Possible(s, before) && After(s, before) == t && n !in t.history.chain
    requires t.locks == Locks(FREE, FREE, FREE)
    ensures Possible(s, run) && After(s, run) == r && PcOf(r, i) == AWantMutex(n)
    ensures r == t.(adders := r.adders, mem := r.mem, history := r.history)
  {
    if n in t.mem {
      i :| Carries(t, i, n);
      run, r := before, t;
      assert Granted(t.locks, Adder(i), Mutex) == ModeOf(t, Adder(i), Mutex);
    } else {
      i := SomeoneElse(t.adders.Keys);
      assert PcOf(t, i) == Idle;
      run, r := GoAdder(s, before, t, i, n);
    }
  }

  lemma WantMutexStrands(s: State)
    requires Inv(s) && s.destroyer == DDropMutex && s.terminate != 0 && s.lookup == WantMutex
    requires s.expiry == 0 && HeadMayReturn(s)
    ensures CanStrand(s)
  {
    NobodyElse(s);
    var run, t := Go(s, [], s, DestroyerStep);
    StepKeepsInv(s, DestroyerStep);
    if t.hostlist != t.lastStart {
      var i: nat;
      var n := t.lastStart.a;
      run, t, i := Reallocate(s, run, t, n);
      run, t := SoloLink(s, run, t, i, n);
    }
    HeadStrands(s, run, t);
  }

  /** Once rdns_cache_destroy has broadcast, some run strands it exactly if the lookup thread has already
      exited and its 2 has been overwritten, or if it stands between its test of rdns_terminate and the
      mutex, first_to_expire is not set and the list's head is last_start or can become it again. */
  lemma ShutdownHangsIff(s: State)
    requires Reachable(s) && s.destroyer == DBroadcast
    ensures CanStrand(Next(s, DestroyerStep)) <==>
            || (s.lookup == Exited && s.terminate != 2)
            || (s.lookup == WantMutex && s.expiry == 0 && HeadMayReturn(s))
  {
    var r := Next(s, DestroyerStep);
    ReachableInv(s);
    StepKeepsInv(s, DestroyerStep);
    if CanStrand(r) { StrandsOnlyIf(r); }
    if s.lookup == Exited && s.terminate != 2 { ExitedStrands(r); }
    if s.lookup == WantMutex && s.expiry == 0 && HeadMayReturn(s) { WantMutexStrands(r); }
  }
}
