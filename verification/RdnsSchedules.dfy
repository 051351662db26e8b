/**
 Schedules of the reverse-DNS cache that show what its interleavings do not guarantee.
 */
module RdnsSchedules {
  import opened Seqs
  import opened RdnsCache
  import opened RdnsInvariants
  import opened RdnsTheorems
  import RdnsShutdown

  lemma Go(s: State, a: Action) returns (r: State)
    requires Reachable(s) && Enabled(s, a)
    ensures Reachable(r) && r == Next(s, a)
  {
    var run :| Possible(INITIAL, run) && After(INITIAL, run) == s;
    RunExtends(INITIAL, run, a);
    r := Next(s, a);
  }

  lemma Start() returns (s: State)
    ensures Reachable(s) && s == INITIAL
  {
    s := INITIAL;
    assert Possible(INITIAL, []) && After(INITIAL, []) == s;
  }

  predicate Unlocked(s: State) {
    s.locks == Locks(FREE, FREE, FREE)
  }

  lemma GoLookup(s: State, e: Env) returns (r: State)
    requires Reachable(s) && LookupEnabled(s, e)
    ensures Reachable(r) && r == LookupNext(s, e)
  {
    r := Go(s, LookupStep(e));
  }

  /** An adder's step, with its place given by name. */
  lemma GoAdder(s: State, i: nat, n: Addr, garbage: int) returns (r: State)
    requires Reachable(s) && AdderEnabled(s, i, n)
    ensures Reachable(r) && PcOf(r, i) == AdderGoto(PcOf(s, i), n)
    ensures forall j: nat | j != i :: PcOf(r, j) == PcOf(s, j)
    ensures r.locks == Do(s.locks, Adder(i), AdderOp(PcOf(s, i)))
    ensures r == AdderEffect(s, PcOf(s, i), n, garbage).(adders := r.adders, locks := r.locks)
  {
    r := Go(s, AdderStep(i, n, garbage));
  }

  lemma AddUntilLocked(s: State, i: nat, n: Addr, garbage: int) returns (r: State)
    requires Reachable(s) && Unlocked(s) && PcOf(s, i) == Idle && n !in s.mem
    ensures Reachable(r) && PcOf(r, i) == ALink(n)
    ensures forall j: nat | j != i :: PcOf(r, j) == PcOf(s, j)
    ensures r.locks == Locks(LockWord(Held(Adder(i)), {}), LockWord(Held(Adder(i)), {}), FREE)
    ensures r == s.(adders := r.adders, locks := r.locks, mem := s.mem[n := Item(Null, garbage, false)],
                    history := s.history.(mallocs := s.history.mallocs + 1,
                                          reused := s.history.reused || s.lastStart == At(n)))
  {
    r := GoAdder(s, i, n, garbage);
    r := GoAdder(r, i, n, garbage);
    r := GoAdder(r, i, n, garbage);
  }

  lemma LinkNode(s: State, i: nat, n: Addr, garbage: int) returns (r: State)
    requires Reachable(s) && PcOf(s, i) == ALink(n) && n in s.mem
    ensures Reachable(r) && PcOf(r, i) == ADropHead(n) && r.locks == s.locks
    ensures forall j: nat | j != i :: PcOf(r, j) == PcOf(s, j)
    ensures r == s.(adders := r.adders, mem := s.mem[n := s.mem[n].(next := s.hostlist)], hostlist := At(n),
                    history := s.history.(chain := [n] + s.history.chain))
  {
    r := GoAdder(s, i, n, garbage);
  }

  lemma AddUntilLinked(s: State, i: nat, n: Addr, garbage: int) returns (r: State)
    requires Reachable(s) && Unlocked(s) && PcOf(s, i) == Idle && n !in s.mem
    ensures Reachable(r) && PcOf(r, i) == ADropHead(n)
    ensures forall j: nat | j != i :: PcOf(r, j) == PcOf(s, j)
    ensures r.locks == Locks(LockWord(Held(Adder(i)), {}), LockWord(Held(Adder(i)), {}), FREE)
    ensures r == s.(adders := r.adders, locks := r.locks, mem := s.mem[n := Item(s.hostlist, garbage, false)],
                    hostlist := At(n),
                    history := s.history.(chain := [n] + s.history.chain, mallocs := s.history.mallocs + 1,
                                          reused := s.history.reused || s.lastStart == At(n)))
  {
    r := AddUntilLocked(s, i, n, garbage);
    r := LinkNode(r, i, n, garbage);
    Rewritten(s.mem, n, Item(Null, garbage, false), Item(s.hostlist, garbage, false));
  }

  lemma Rewritten(mem: map<Addr, Item>, n: Addr, first: Item, last: Item)
    ensures mem[n := first][n := last] == mem[n := last]
  {
  }

  /** An add that nobody interferes with, up to its return. */
  lemma SoloAdd(s: State, i: nat, n: Addr, garbage: int) returns (r: State)
    requires Reachable(s) && Unlocked(s) && PcOf(s, i) == Idle && n !in s.mem
    ensures Reachable(r) && Unlocked(r) && PcOf(r, i) == AReturn(n)
    ensures forall j: nat | j != i :: PcOf(r, j) == PcOf(s, j)
    ensures r == s.(adders := r.adders, mem := s.mem[n := Item(s.hostlist, garbage, false)],
                    hostlist := At(n), lookup := Wake(s.lookup),
                    history := s.history.(chain := [n] + s.history.chain, mallocs := s.history.mallocs + 1,
                                          reused := s.history.reused || s.lastStart == At(n)))
  {
    r := AddUntilLinked(s, i, n, garbage);
    r := GoAdder(r, i, n, garbage);
    r := GoAdder(r, i, n, garbage);
    r := GoAdder(r, i, n, garbage);
  }

  // ----- stretches of the lookup thread nobody interferes with

  /** From the top of the loop to the comparison. */
  lemma TakeMutex(s: State) returns (r: State)
    requires Reachable(s) && Unlocked(s) && s.lookup == WantMutex
    ensures Reachable(r)
    ensures r == s.(lookup := Compare,
                    locks := Locks(LockWord(Held(Lookup), {}), LockWord(Nobody, {Lookup}), FREE))
  {
    var e := Env(0, 0, true);
    r := GoLookup(s, e);
    assert r == s.(lookup := WantHeadToCompare, locks := Locks(LockWord(Held(Lookup), {}), FREE, FREE));
    r := GoLookup(r, e);
  }

  /** From the top of the loop to the wait, when nothing is new. */
  lemma ToSleep(s: State) returns (r: State)
    requires Reachable(s) && Unlocked(s) && s.lookup == WantMutex && s.hostlist == s.lastStart
    ensures Reachable(r) && r == s.(lookup := Waiting(s.expiry != 0))
  {
    r := BackToSleepTest(s);
    r := GoLookup(r, Env(0, 0, true));
  }

  /** From the top of the loop to the walk, when the list has a new head. */
  lemma ToRescan(s: State) returns (r: State)
    requires Reachable(s) && Unlocked(s) && s.lookup == WantMutex && s.hostlist != s.lastStart
    ensures Reachable(r) && r == s.(lookup := WantHeadToWalk)
  {
    r := TakeMutex(s);
    r := GoLookup(r, Env(0, 0, true));
    assert r.lookup == DropHeadBusy;
    r := ToMutexDrop(r);
    r := LeaveMutex(r);
  }

  lemma ToMutexDrop(s: State) returns (r: State)
    requires Reachable(s) && s.lookup == DropHeadBusy
    requires s.locks == Locks(LockWord(Held(Lookup), {}), LockWord(Nobody, {Lookup}), FREE)
    ensures Reachable(r) && r == s.(lookup := DropMutex, locks := Locks(LockWord(Held(Lookup), {}), FREE, FREE))
  {
    r := GoLookup(s, Env(0, 0, true));
  }

  lemma LeaveMutex(s: State) returns (r: State)
    requires Reachable(s) && s.lookup == DropMutex && s.locks == Locks(LockWord(Held(Lookup), {}), FREE, FREE)
    ensures Reachable(r) && r == s.(lookup := WantHeadToWalk, locks := Locks(FREE, FREE, FREE))
  {
    r := GoLookup(s, Env(0, 0, true));
  }

  lemma TakeMutexAgain(s: State) returns (r: State)
    requires Reachable(s) && Unlocked(s) && s.lookup == Woken
    ensures Reachable(r) && r == s.(lookup := DropMutex, locks := Locks(LockWord(Held(Lookup), {}), FREE, FREE))
  {
    r := GoLookup(s, Env(0, 0, true));
  }

  /** The wait ends by itself. */
  lemma WakeUp(s: State) returns (r: State)
    requires Reachable(s) && Unlocked(s) && s.lookup.Waiting?
    ensures Reachable(r) && r == s.(lookup := WantHeadToWalk)
  {
    r := GoLookup(s, Env(0, 0, true));
    assert r == s.(lookup := Woken);
    r := TakeMutexAgain(r);
    r := LeaveMutex(r);
  }

  lemma TakeSnapshot(s: State) returns (r: State)
    requires Reachable(s) && Unlocked(s) && s.lookup == WantHeadToWalk
    ensures Reachable(r)
    ensures r == s.(lookup := WantBody, lastStart := s.hostlist, history := s.history.(reused := false),
                    locks := Locks(FREE, LockWord(Nobody, {Lookup}), FREE))
  {
    var e := Env(0, 0, true);
    r := GoLookup(s, e);
    assert r == s.(lookup := Snapshot, locks := Locks(FREE, LockWord(Nobody, {Lookup}), FREE));
    r := GoLookup(r, e);
  }

  lemma StartWalk(s: State) returns (r: State)
    requires Reachable(s) && Unlocked(s) && s.lookup == WantHeadToWalk
    ensures Reachable(r)
    ensures r == s.(lookup := Walk(s.hostlist), lastStart := s.hostlist,
                    locks := Locks(FREE, FREE, LockWord(Nobody, {Lookup})),
                    history := s.history.(reused := false, rest := |s.history.chain|))
  {
    r := TakeSnapshot(s);
    r := TakeBody(r);
    r := GoLookup(r, Env(0, 0, true));
  }

  lemma TakeBody(s: State) returns (r: State)
    requires Reachable(s) && s.lookup == WantBody && s.locks == Locks(FREE, LockWord(Nobody, {Lookup}), FREE)
    ensures Reachable(r)
    ensures r == s.(lookup := DropHeadToWalk,
                    locks := Locks(FREE, LockWord(Nobody, {Lookup}), LockWord(Nobody, {Lookup})))
  {
    r := GoLookup(s, Env(0, 0, true));
  }

  lemma EndWalk(s: State) returns (r: State)
    requires Reachable(s) && s.lookup == Walk(Null)
    requires s.locks == Locks(FREE, FREE, LockWord(Nobody, {Lookup}))
    ensures Reachable(r) && r == s.(lookup := PurgeTest, locks := Locks(FREE, FREE, FREE))
  {
    r := GoLookup(s, Env(0, 0, true));
    assert r == s.(lookup := DropBody);
    r := GoLookup(r, Env(0, 0, true));
  }

  /** The end of the walk and, at time t, the decision to purge. */
  lemma DecideToPurge(s: State, t: int) returns (r: State)
    requires Reachable(s) && s.lookup == Walk(Null) && t >= 0 && s.expiry <= t
    requires s.locks == Locks(FREE, FREE, LockWord(Nobody, {Lookup}))
    ensures Reachable(r) && r == s.(lookup := WantHeadToPurge, locks := r.locks, now := t, expiry := 0)
    ensures Unlocked(r)
  {
    r := EndWalk(s);
    r := GoLookup(r, Env(t, t, true));
  }

  lemma TakeForPurge(s: State) returns (r: State)
    requires Reachable(s) && Unlocked(s) && s.lookup == WantHeadToPurge
    ensures Reachable(r)
    ensures r == s.(lookup := Purge(Null, s.hostlist),
                    locks := Locks(FREE, LockWord(Held(Lookup), {}), LockWord(Held(Lookup), {})),
                    history := s.history.(rest := |s.history.chain|, before := Stamps(s.history.chain, s.mem)))
  {
    var e := Env(0, 0, true);
    r := GoLookup(s, e);
    r := GoLookup(r, e);
  }

  lemma DropPurgedBody(s: State) returns (r: State)
    requires Reachable(s) && s.lookup.Purge? && s.lookup.cur == Null
    requires s.locks == Locks(FREE, LockWord(Held(Lookup), {}), LockWord(Held(Lookup), {}))
    ensures Reachable(r)
    ensures r == s.(lookup := DropHeadPurged, locks := Locks(FREE, LockWord(Held(Lookup), {}), FREE))
  {
    r := GoLookup(s, Env(0, 0, true));
    assert r == s.(lookup := DropBodyPurged);
    r := GoLookup(r, Env(0, 0, true));
  }

  /** The end of a purge, up to the top of the next round. */
  lemma FinishPurge(s: State) returns (r: State)
    requires Reachable(s) && s.lookup.Purge? && s.lookup.cur == Null && s.terminate == 0
    requires s.locks == Locks(FREE, LockWord(Held(Lookup), {}), LockWord(Held(Lookup), {}))
    ensures Reachable(r) && Unlocked(r) && r == s.(lookup := WantMutex, locks := r.locks)
  {
    var e := Env(0, 0, true);
    r := DropPurgedBody(s);
    r := GoLookup(r, e);
    assert r == s.(lookup := Top, locks := Locks(FREE, FREE, FREE));
    r := GoLookup(r, e);
  }

  // ----- what can go wrong

  lemma Begin() returns (s: State)
    ensures Reachable(s) && s == INITIAL.(lookup := WantMutex)
  {
    s := Start();
    s := GoLookup(s, Env(0, 0, true));
    s := GoLookup(s, Env(0, 0, true));
  }

  /** The round of the purge that frees a list's only, expired node. */
  lemma PurgeOnly(s: State, n: Addr) returns (r: State)
    requires Reachable(s) && s.lookup == Purge(Null, At(n)) && s.hostlist == At(n)
    requires s.mem.Keys == {n} && s.mem[n].next == Null && s.mem[n].ttd <= s.now
    requires s.history.chain == [n] && s.history.rest == 1
    ensures Reachable(r)
    ensures r == s.(lookup := Purge(Null, Null), hostlist := Null, mem := map[],
                    history := s.history.(chain := [], rest := 0, frees := s.history.frees + 1))
  {
    r := GoLookup(s, Env(0, 0, true));
    assert s.mem - {n} == map[];
    assert Cut([n], 0, 1) == [];
  }

  /** The round of the walk that resolves a list's only node, at time 100. */
  lemma ResolveOnly(s: State, n: Addr) returns (r: State)
    requires Reachable(s) && s.lookup == Walk(At(n)) && s.mem == map[n := Item(Null, 0, false)]
    requires s.ttl == 300 && s.expiry == 0
    ensures Reachable(r)
    ensures r == s.(lookup := Walk(Null), mem := map[n := Item(Null, 400, true)], expiry := 400,
                    history := s.history.(rest := s.history.rest - 1))
  {
    r := GoLookup(s, Env(100, 0, true));
    assert map[n := Item(Null, 0, false)][n := Item(Null, 400, true)] == map[n := Item(Null, 400, true)];
  }

  lemma FirstAdd(n: Addr) returns (s: State)
    ensures Reachable(s) && Unlocked(s) && PcOf(s, 1) == Idle && PcOf(s, 2) == Idle
    ensures s == INITIAL.(lookup := WantMutex, adders := s.adders, mem := map[n := Item(Null, 0, false)],
                          hostlist := At(n), history := History([n], 0, [], false, 1, 0))
  {
    s := Begin();
    assert PcOf(s, 1) == Idle && PcOf(s, 2) == Idle;
    s := SoloAdd(s, 0, n, 0);
    assert [n] + [] == [n];
  }

  /** A single node has been added and resolved at time 100. */
  lemma ResolvedOnce(n: Addr) returns (s: State)
    ensures Reachable(s) && s.lookup == Walk(Null) && s.lastStart == At(n) && s.hostlist == At(n)
    ensures s.locks == Locks(FREE, FREE, LockWord(Nobody, {Lookup}))
    ensures s.mem == map[n := Item(Null, 400, true)] && s.expiry == 400 && s.terminate == 0
    ensures s.history.chain == [n] && PcOf(s, 1) == Idle
  {
    s := FirstAdd(n);
    s := ToRescan(s);
    s := StartWalk(s);
    s := ResolveOnly(s, n);
  }

  /** The node has expired and been purged; last_start still holds its address. */
  lemma PurgedOnce(n: Addr) returns (s: State)
    ensures Reachable(s) && Unlocked(s) && s.lookup == WantMutex && s.lastStart == At(n)
    ensures s.mem == map[] && s.hostlist == Null && s.expiry == 0
    ensures s.history.chain == [] && PcOf(s, 1) == Idle
  {
    s := ResolvedOnce(n);
    assert PcOf(s, 1) == Idle;
    s := DecideToPurge(s, 500);
    s := TakeForPurge(s);
    s := PurgeOnly(s, n);
    s := FinishPurge(s);
  }

  /** With a reused address an add can be slept on: the list holds an unresolved entry, the lookup
      thread is in the untimed wait, no signal is on its way and no lock is held. */
  lemma ReuseLosesAnAdd() returns (s: State)
    ensures Reachable(s) && s.lookup == Waiting(false) && Unlocked(s) && !SignalPending(s)
    ensures s.history.chain == [7] && !Resolved(s, 0)
  {
    s := PurgedOnce(7);
    s := SoloAdd(s, 1, 7, 0);
    s := ToSleep(s);
  }

  /** The lookup thread has decided, on an empty list, to purge. */
  lemma AboutToPurge() returns (s: State)
    ensures Reachable(s) && Unlocked(s) && s.lookup == WantHeadToPurge && s.now == 500
    ensures s.mem == map[] && s.hostlist == Null && s.history.chain == [] && PcOf(s, 0) == Idle
  {
    s := Begin();
    s := ToSleep(s);
    s := WakeUp(s);
    s := StartWalk(s);
    s := DecideToPurge(s, 500);
  }

  /** An adder's last step, which reads the node's host_name, can find the node freed: the purge needs
      only the two list locks, and the new node's ttd may be anything. */
  lemma ReturnReadsFreedNode() returns (s: State)
    ensures Reachable(s) && PcOf(s, 0) == AReturn(7) && Enabled(s, AdderStep(0, 0, 0))
    ensures Touches(s, AdderStep(0, 0, 0)) == {7} && 7 !in s.mem
  {
    s := AboutToPurge();
    s := SoloAdd(s, 0, 7, 0);
    assert s.mem.Keys == {7};
    s := TakeForPurge(s);
    assert PcOf(s, 0) == AReturn(7);
    s := PurgeOnly(s, 7);
  }

  lemma GoDestroyer(s: State) returns (r: State)
    requires Reachable(s) && DestroyerEnabled(s)
    ensures Reachable(r) && r == DestroyerNext(s)
  {
    r := Go(s, DestroyerStep);
  }

  lemma DestroyerTells(s: State) returns (r: State)
    requires Reachable(s) && Unlocked(s) && s.destroyer == DIdle
    ensures Reachable(r)
    ensures r == s.(destroyer := DBroadcast, terminate := 1, locks := Locks(LockWord(Held(Destroyer), {}), FREE, FREE))
  {
    r := GoDestroyer(s);
    r := GoDestroyer(r);
    r := GoDestroyer(r);
  }

  /** The destroyer's way to its spin loop while the lookup thread has passed the test of
      rdns_terminate but does not wait yet. */
  lemma DestroyerSpins(s: State) returns (r: State)
    requires Reachable(s) && Unlocked(s) && s.lookup == WantMutex && s.destroyer == DIdle
    ensures Reachable(r) && r == s.(destroyer := DSpin, terminate := 1)
  {
    r := DestroyerTells(s);
    r := GoDestroyer(r);
    r := GoDestroyer(r);
  }

  /** Shutdown can hang: the destroyer's broadcast falls between the lookup thread's test of
      rdns_terminate and its wait.  The lookup thread is in the untimed wait, the destroyer cannot
      leave its spin loop, and neither will move unless a new add or a spurious wake-up comes. */
  lemma ShutdownCanHang() returns (s: State)
    ensures Reachable(s) && s.lookup == Waiting(false) && s.destroyer == DSpin && s.terminate == 1
    ensures !Enabled(s, DestroyerStep) && forall i: nat :: PcOf(s, i) == Idle
  {
    s := Begin();
    s := DestroyerSpins(s);
    s := ToSleep(s);
  }

  lemma ExitAtOnce() returns (s: State)
    ensures Reachable(s) && s == INITIAL.(lookup := Exited, terminate := 2)
  {
    s := Start();
    s := GoLookup(s, Env(0, 0, false));
    s := GoLookup(s, Env(0, 0, false));
    s := GoLookup(s, Env(0, 0, false));
  }

  /** So can it when signals cannot be blocked: the lookup thread has stored its 2 before the destroyer
      stores 1, and no step of anyone ends the destroyer's loop. */
  lemma ExitedThreadHangs() returns (s: State)
    ensures Reachable(s) && s.lookup == Exited && s.destroyer == DSpin && s.terminate == 1
    ensures forall run | Possible(s, run) :: After(s, run).destroyer == DSpin
  {
    s := ExitAtOnce();
    s := DestroyerTells(s);
    s := GoDestroyer(s);
    s := GoDestroyer(s);
    forall run | Possible(s, run)
      ensures After(s, run).destroyer == DSpin
    {
      RdnsShutdown.StrandedForEver(s, run);
    }
  }

  lemma ThreeAdds() returns (s: State)
    ensures Reachable(s) && Unlocked(s)
    ensures s == INITIAL.(lookup := WantMutex, adders := s.adders, hostlist := At(3),
                          mem := map[1 := Item(Null, 0, false), 2 := Item(At(1), 0, false), 3 := Item(At(2), 0, false)],
                          history := History([3, 2, 1], 0, [], false, 3, 0))
  {
    s := FirstAdd(1);
    s := SecondAdd(s);
    s := SoloAdd(s, 2, 3, 0);
    assert [3] + [2, 1] == [3, 2, 1];
  }

  lemma SecondAdd(s: State) returns (r: State)
    requires Reachable(s) && Unlocked(s) && PcOf(s, 1) == Idle
    requires s == INITIAL.(lookup := WantMutex, adders := s.adders, mem := map[1 := Item(Null, 0, false)],
                           hostlist := At(1), history := History([1], 0, [], false, 1, 0))
    ensures Reachable(r) && Unlocked(r) && PcOf(r, 2) == PcOf(s, 2)
    ensures r == INITIAL.(lookup := WantMutex, adders := r.adders, hostlist := At(2),
                          mem := map[1 := Item(Null, 0, false), 2 := Item(At(1), 0, false)],
                          history := History([2, 1], 0, [], false, 2, 0))
  {
    r := SoloAdd(s, 1, 2, 0);
    assert [2] + [1] == [2, 1];
  }

  /** A change of the time to live followed by the resolve of one node at time 100. */
  lemma ResolveWithTtl(s: State, a: Addr, ttl: int) returns (r: State)
    requires Reachable(s) && s.lookup == Walk(At(a)) && a in s.mem && !s.mem[a].valid
    ensures Reachable(r)
    ensures r == s.(ttl := ttl, lookup := Walk(s.mem[a].next), mem := s.mem[a := Item(s.mem[a].next, 100 + ttl, true)],
                    expiry := Earliest(s.expiry, 100 + ttl),
                    history := s.history.(rest := s.history.rest - 1))
  {
    r := Go(s, SetTtl(ttl));
    r := GoLookup(r, Env(100, 0, true));
  }

  lemma ResolveThree(s: State) returns (r: State)
    requires Reachable(s) && s.lookup == Walk(At(3)) && s.expiry == 0
    requires s.mem == map[1 := Item(Null, 0, false), 2 := Item(At(1), 0, false), 3 := Item(At(2), 0, false)]
    ensures Reachable(r)
    ensures r == s.(ttl := 900, lookup := Walk(Null), expiry := 1000, history := r.history,
                    mem := map[1 := Item(Null, 1000, true), 2 := Item(At(1), 0, true), 3 := Item(At(2), 400, true)])
    ensures r.history.chain == s.history.chain
  {
    r := ResolveWithTtl(s, 3, 300);
    r := ResolveWithTtl(r, 2, -100);
    r := ResolveWithTtl(r, 1, 900);
    assert r.mem == map[1 := Item(Null, 1000, true), 2 := Item(At(1), 0, true), 3 := Item(At(2), 400, true)];
  }

  /** Three nodes resolved at time 100 with the stamps 400, 0 and 1000. */
  lemma ThreeStamps() returns (s: State)
    ensures Reachable(s) && s.lookup == Walk(Null) && s.locks == Locks(FREE, FREE, LockWord(Nobody, {Lookup}))
    ensures s.hostlist == At(3) == s.lastStart && s.history.chain == [3, 2, 1] && s.terminate == 0
    ensures s.mem == map[1 := Item(Null, 1000, true), 2 := Item(At(1), 0, true), 3 := Item(At(2), 400, true)]
    ensures s.expiry == 1000
  {
    s := ThreeAdds();
    s := ToRescan(s);
    s := StartWalk(s);
    s := ResolveThree(s);
  }

  /** With a stamp of 0 in the list the watermark is lost: the first node expires at 400, and at
      the sleep decision first_to_expire is 1000. */
  lemma ZeroStampOversleeps() returns (s: State)
    ensures Reachable(s) && s.lookup == ChooseWait && s.expiry == 1000
    ensures s.history.chain == [3, 2, 1] && Resolved(s, 0) && s.mem[3].ttd == 400
    ensures Resolved(s, 1) && s.mem[2].ttd == 0
  {
    s := ThreeStamps();
    s := EndWalk(s);
    s := SkipPurge(s);
    s := BackToSleepTest(s);
  }

  /** Nothing has expired yet. */
  lemma SkipPurge(s: State) returns (r: State)
    requires Reachable(s) && s.lookup == PurgeTest && s.expiry > 0 && s.terminate == 0
    ensures Reachable(r) && r == s.(lookup := WantMutex)
  {
    r := GoLookup(s, Env(0, 0, true));
    assert r == s.(lookup := Top);
    r := GoLookup(r, Env(0, 0, true));
  }

  /** Nothing is new either. */
  lemma BackToSleepTest(s: State) returns (r: State)
    requires Reachable(s) && Unlocked(s) && s.lookup == WantMutex && s.hostlist == s.lastStart
    ensures Reachable(r)
    ensures r == s.(lookup := ChooseWait, locks := Locks(LockWord(Held(Lookup), {}), FREE, FREE))
  {
    r := TakeMutex(s);
    r := GoLookup(r, Env(0, 0, true));
    assert r.lookup == DropHeadIdle;
    r := GoLookup(r, Env(0, 0, true));
  }
}
