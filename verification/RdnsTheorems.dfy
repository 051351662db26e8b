/**
 What holds of the reverse-DNS cache in every reachable state, for any number of adders
 and every interleaving.
 */
module RdnsTheorems {
  import opened Seqs
  import opened RdnsCache
  import opened RdnsLocks
  import opened RdnsInvariants
  import opened RdnsMemory
  import opened RdnsSleep
  import opened RdnsExpiry

  // ----- induction over runs

  lemma StepKeepsInv(s: State, a: Action)
    requires Inv(s) && Enabled(s, a)
    ensures Inv(Next(s, a))
  {
    StepKeepsLocks(s, a);
    StepKeepsMemory(s, a);
    StepKeepsExitSeen(s, a);
    StepKeepsStart(s, a);
    StepKeepsSleep(s, a);
    StepKeepsExpiry(s, a);
  }

  lemma {:induction false} RunKeepsInv(s: State, run: seq<Action>)
    requires Inv(s) && Possible(s, run)
    ensures Inv(After(s, run))
    decreases |run|
  {
    if run != [] {
      StepKeepsInv(s, run[0]);
      RunKeepsInv(Next(s, run[0]), run[1..]);
    }
  }

  lemma {:induction false} RunExtends(s: State, run: seq<Action>, a: Action)
    requires Possible(s, run) && Enabled(After(s, run), a)
    ensures Possible(s, run + [a]) && After(s, run + [a]) == Next(After(s, run), a)
    decreases |run|
  {
    if run == [] {
      assert [a][1..] == [];
    } else {
      RunExtends(Next(s, run[0]), run[1..], a);
      assert (run + [a])[1..] == run[1..] + [a];
    }
  }

  lemma ReachableInv(s: State)
    requires Reachable(s)
    ensures Inv(s)
  {
    var run :| Possible(INITIAL, run) && After(INITIAL, run) == s;
    InitialInv();
    RunKeepsInv(INITIAL, run);
  }

  // ----- the theorems

  ghost predicate AllResolved(s: State) {
    forall j | 0 <= j < |s.history.chain| :: Resolved(s, j)
  }

  /** No add is ever slept on.  While the lookup thread is blocked and no signal is on its way to
      it, every entry is resolved, exactly unless last_start's address was allocated again after
      the purge had freed it; and while one is on its way, the only unresolved entry is the new
      node at the front, whose adder has yet to signal. */
  lemma NoAddSleptOn(s: State)
    requires Reachable(s) && s.lookup.Waiting?
    ensures !SignalPending(s) ==> (AllResolved(s) <==> !s.history.reused)
    ensures SignalPending(s) && !s.history.reused ==> forall j | 1 <= j < |s.history.chain| :: Resolved(s, j)
    ensures s.locks.mutex.writer == Nobody ==> !SignalPending(s)
  {
    ReachableInv(s);
    var chain := s.history.chain;
    if !s.history.reused {
      forall j | 0 <= j < |chain| && (j == 0 ==> !SignalPending(s))
        ensures Resolved(s, j)
      {
        var i := if SignalPending(s) then 1 else 0;
        assert At(chain[i]) == s.lastStart;
      }
    } else if !SignalPending(s) {
      assert LinkAt(s, 0);
      assert !Resolved(s, 0);
    }
  }

  /** The wait the thread is about to start ends no later than the entry at j expires. */
  ghost predicate WakesFor(s: State, j: nat)
    requires j < |s.history.chain|
  {
    s.expiry != 0 && s.expiry <= Deref(s, s.history.chain[j]).ttd
  }

  /** At the sleep decision the wait is timed and ends no later than any resolved entry expires,
      exactly if no resolved entry in the list carries the stamp 0. */
  lemma NeverOversleeps(s: State, e: Env)
    requires Reachable(s) && s.lookup == ChooseWait
    ensures LookupNext(s, e).lookup == Waiting(s.expiry != 0)
    ensures (forall j | 0 <= j < |s.history.chain| && Resolved(s, j) :: WakesFor(s, j)) <==>
            (forall j | 0 <= j < |s.history.chain| && Resolved(s, j) :: Deref(s, s.history.chain[j]).ttd != 0)
  {
    ReachableInv(s);
    forall j | 0 <= j < |s.history.chain|
      ensures Fields(s.mem, s.history.chain[j]) == Deref(s, s.history.chain[j])
    {
    }
  }

  predicate SetsPositive(a: Action) { a.SetTtl? ==> a.v > 0 }

  /** The time to live and every resolved entry's stamp are positive. */
  ghost predicate PositiveStamps(s: State) {
    s.ttl > 0 && forall n | n in s.mem && s.mem[n].valid :: s.mem[n].ttd > 0
  }

  lemma StepKeepsPositive(s: State, a: Action)
    requires Linked(s) && Owned(s) && Cursor(s) && PositiveStamps(s) && Enabled(s, a) && SetsPositive(a)
    ensures PositiveStamps(Next(s, a))
  {
    match a
    case LookupStep(e) => LookupKeepsPositive(s, e);
    case AdderStep(i, n, garbage) => AdderKeepsPositive(s, i, n, garbage);
    case DestroyerStep => DestroyerKeepsPositive(s);
    case SetTtl(_) =>
  }

  lemma AdderKeepsPositive(s: State, i: nat, n: Addr, garbage: int)
    requires PositiveStamps(s)
    ensures PositiveStamps(AdderNext(s, i, n, garbage))
  {
  }

  lemma DestroyerKeepsPositive(s: State)
    requires PositiveStamps(s)
    ensures PositiveStamps(DestroyerNext(s))
  {
  }

  lemma LookupKeepsPositive(s: State, e: Env)
    requires PositiveStamps(s) && LookupEnabled(s, e)
    ensures PositiveStamps(LookupNext(s, e))
  {
  }

  lemma {:induction false} RunKeepsPositive(s: State, run: seq<Action>)
    requires Inv(s) && PositiveStamps(s) && Possible(s, run)
    requires forall i | 0 <= i < |run| :: SetsPositive(run[i])
    ensures PositiveStamps(After(s, run))
    decreases |run|
  {
    if run != [] {
      StepKeepsInv(s, run[0]);
      StepKeepsPositive(s, run[0]);
      RunKeepsPositive(Next(s, run[0]), run[1..]);
    }
  }

  /** In a run whose calls of rdns_cache_set_ttl all set a positive time no stamp is ever 0, and so no wait
      ends later than a resolved entry expires. */
  lemma PositiveNeverOversleeps(run: seq<Action>)
    requires Possible(INITIAL, run) && forall i | 0 <= i < |run| :: SetsPositive(run[i])
    ensures var s := After(INITIAL, run);
            forall j | 0 <= j < |s.history.chain| && Resolved(s, j) ::
              Deref(s, s.history.chain[j]).ttd > 0 && (s.lookup == ChooseWait ==> WakesFor(s, j))
  {
    var s := After(INITIAL, run);
    InitialInv();
    RunKeepsPositive(INITIAL, run);
    ReachableInv(s);
    forall j | 0 <= j < |s.history.chain| && Resolved(s, j)
      ensures Deref(s, s.history.chain[j]).ttd > 0
    {
      assert LinkAt(s, j);
    }
    if s.lookup == ChooseWait { NeverOversleeps(s, Env(0, 0, true)); }
  }

  /** A finished purge leaves exactly the entries with ttd > now, in their order, and sets
      first_to_expire to the earliest ttd among them, or to 0 if none is left. */
  lemma PurgeExact(s: State)
    requires Reachable(s) && s.lookup == DropBodyPurged
    ensures Linked(s) && s.history.chain == Survivors(s.history.before, s.now)
    ensures s.expiry == 0 <==> s.history.chain == []
    ensures forall b | b in s.history.before && b.ttd > s.now :: s.expiry <= b.ttd
    ensures s.history.chain != [] ==> exists b :: b in s.history.before && b.ttd > s.now && b.ttd == s.expiry
  {
    ReachableInv(s);
    EarliestIsMinimum(s.history.before, s.now);
  }

  lemma {:induction false} EarliestIsMinimum(b: seq<Stamped>, now: int)
    requires now >= 0
    ensures EarliestOf(b, now) == 0 <==> Survivors(b, now) == []
    ensures forall x | x in b && x.ttd > now :: 0 != EarliestOf(b, now) <= x.ttd
    ensures Survivors(b, now) != [] ==> exists x :: x in b && x.ttd > now && x.ttd == EarliestOf(b, now)
    decreases |b|
  {
    if b != [] {
      var init, last := b[..|b| - 1], b[|b| - 1];
      EarliestIsMinimum(init, now);
      assert b == init + [last];
      assert forall x :: x in b <==> x in init || x == last;
      if Survivors(b, now) != [] {
        var x := if last.ttd > now && (Survivors(init, now) == [] || last.ttd < EarliestOf(init, now)) then last
                 else var y :| y in init && y.ttd > now && y.ttd == EarliestOf(init, now); y;
        assert x in b && x.ttd > now && x.ttd == EarliestOf(b, now);
      }
    }
  }

  /** The nodes a step reads, writes or frees. */
  function Touches(s: State, a: Action): set<Addr> {
    match a
    case LookupStep(_) => (
      match s.lookup
      case Walk(At(n)) => {n}
      case Purge(Null, At(n)) => {n}
      case Purge(At(p), At(n)) => {p, n}
      case _ => {})
    case AdderStep(i, _, _) => (
      match PcOf(s, i)
      case ALink(n) => {n}
      case AReturn(n) => {n}
      case _ => {})
    case DestroyerStep => if s.destroyer.DFree? && s.hostlist.At? then {s.hostlist.a} else {}
    case SetTtl(_) => {}
  }

  lemma LookupTouchesLive(s: State, e: Env)
    requires Linked(s) && Cursor(s)
    ensures Touches(s, LookupStep(e)) <= s.mem.Keys
  {
    var k := |s.history.chain| - s.history.rest;
    if s.lookup.Walk? && s.lookup.item.At? { assert LinkAt(s, k); }
    if s.lookup.Purge? && s.lookup.cur.At? {
      assert LinkAt(s, k);
      if k > 0 { assert LinkAt(s, k - 1); }
    }
  }

  lemma AdderTouchesLive(s: State, i: nat, n: Addr, garbage: int)
    requires Owned(s) && !PcOf(s, i).AReturn?
    ensures Touches(s, AdderStep(i, n, garbage)) <= s.mem.Keys
  {
    if PcOf(s, i).ALink? { assert Carries(s, i, PcOf(s, i).n); }
  }

  lemma DestroyerTouchesLive(s: State)
    requires Linked(s)
    ensures Touches(s, DestroyerStep) <= s.mem.Keys
  {
    if s.destroyer.DFree? && s.hostlist.At? { assert LinkAt(s, 0); }
  }

  /** No step but an adder's last one touches a node that is not allocated: no use after free and
      no double free, with adders prepending during the walk under the head lock alone.  When that last
      step is safe is said by RdnsReturns.ReturnIsSafe. */
  lemma AccessesAreLive(s: State, a: Action)
    requires Reachable(s) && Enabled(s, a)
    requires !(a.AdderStep? && PcOf(s, a.i).AReturn?)
    ensures Touches(s, a) <= s.mem.Keys
  {
    ReachableInv(s);
    match a
    case LookupStep(e) => LookupTouchesLive(s, e);
    case AdderStep(i, n, garbage) => AdderTouchesLive(s, i, n, garbage);
    case DestroyerStep => DestroyerTouchesLive(s);
    case SetTtl(_) =>
  }

  /** Conservation: the allocated nodes are those of the list, each there once, and those in the
      hands of one adder each; every other node ever allocated has been freed once. */
  lemma NodesConserved(s: State)
    requires Reachable(s)
    ensures Distinct(s.history.chain) && Linked(s)
    ensures forall n :: n in s.mem <==> n in s.history.chain || exists i :: Carries(s, i, n)
    ensures forall i, n | Carries(s, i, n) :: n !in s.history.chain && forall j | Carries(s, j, n) :: i == j
    ensures s.history.mallocs == s.history.frees + |s.mem|
  {
    ReachableInv(s);
    forall n | n in s.history.chain
      ensures n in s.mem
    {
      var j :| 0 <= j < |s.history.chain| && s.history.chain[j] == n;
      assert LinkAt(s, j);
    }
  }

  /** No set of threads waits in a circle, whatever policy the locks have towards writers. */
  lemma NoDeadlock(s: State, c: seq<Thread>)
    requires Reachable(s)
    ensures !WaitCycle(s, c)
  {
    ReachableInv(s);
    NoWaitCycle(s, c);
  }

  /** A thread is kept out of a lock only while a lock holder can take a step. */
  lemma BlockedMeansProgress(s: State, t: Thread) returns (u: Thread, l: Lock)
    requires Reachable(s) && OpOf(s, t).Take? && !CanDo(s.locks, OpOf(s, t))
    ensures Holds(s, u, l) && Enabled(s, StepOf(u))
  {
    ReachableInv(s);
    u, l := SomeHolderCanStep(s, t);
  }

  // ----- stamps

  /** The stamp of an entry that is allocated and resolved. */
  predicate StampedWith(s: State, n: Addr, ttd: int) { n in s.mem && s.mem[n].valid && s.mem[n].ttd == ttd }

  lemma LookupStamps(s: State, e: Env, n: Addr, ttd: int)
    ensures var r := LookupNext(s, e);
            && (StampedWith(s, n, ttd) && n in r.mem ==> StampedWith(r, n, ttd))
            && (StampedWith(r, n, ttd) && !StampedWith(s, n, ttd) ==>
                  s.lookup == Walk(At(n)) && ttd == e.t + s.ttl && !(n in s.mem && s.mem[n].valid))
  {
  }

  lemma AdderStamps(s: State, i: nat, m: Addr, garbage: int, n: Addr, ttd: int)
    requires AdderEnabled(s, i, m)
    ensures StampedWith(s, n, ttd) ==> StampedWith(AdderNext(s, i, m, garbage), n, ttd)
    ensures StampedWith(AdderNext(s, i, m, garbage), n, ttd) ==> StampedWith(s, n, ttd)
  {
  }

  lemma DestroyerStamps(s: State, n: Addr, ttd: int)
    ensures StampedWith(s, n, ttd) && n in DestroyerNext(s).mem ==> StampedWith(DestroyerNext(s), n, ttd)
    ensures StampedWith(DestroyerNext(s), n, ttd) ==> StampedWith(s, n, ttd)
  {
  }

  /** Over every step: a resolved entry keeps its stamp for as long as it is allocated, and an entry gets one only
      from the walk, which resolves it and stamps it with the clock of that moment plus the time to live then
      in force. */
  lemma StampIsOfItsMoment(s: State, a: Action, n: Addr, ttd: int)
    requires Enabled(s, a)
    ensures StampedWith(s, n, ttd) && n in Next(s, a).mem ==> StampedWith(Next(s, a), n, ttd)
    ensures StampedWith(Next(s, a), n, ttd) && !StampedWith(s, n, ttd) ==>
      a.LookupStep? && s.lookup == Walk(At(n)) && ttd == a.env.t + s.ttl && !(n in s.mem && s.mem[n].valid)
  {
    match a
    case LookupStep(e) => LookupStamps(s, e, n, ttd);
    case AdderStep(i, m, garbage) => AdderStamps(s, i, m, garbage, n, ttd);
    case DestroyerStep => DestroyerStamps(s, n, ttd);
    case SetTtl(_) =>
  }

  // ----- what rdns_cache_destroy leaves

  predicate Emptied(s: State) { s.destroyer.DDropBody? || s.destroyer.DDropHead? ==> s.history.chain == [] }

  lemma StepKeepsEmptied(s: State, a: Action)
    requires Inv(s) && Enabled(s, a) && Emptied(s)
    ensures Emptied(Next(s, a))
  {
    match a
    case LookupStep(e) =>
    case AdderStep(i, n, garbage) =>
      if s.destroyer.DDropBody? || s.destroyer.DDropHead? { OnlyHolder(s, Destroyer, Adder(i), Head); }
    case DestroyerStep =>
    case SetTtl(_) =>
  }

  lemma {:induction false} RunKeepsEmptied(s: State, run: seq<Action>)
    requires Inv(s) && Emptied(s) && Possible(s, run)
    ensures Emptied(After(s, run))
    decreases |run|
  {
    if run != [] {
      StepKeepsInv(s, run[0]);
      StepKeepsEmptied(s, run[0]);
      RunKeepsEmptied(Next(s, run[0]), run[1..]);
    }
  }

  /** When rdns_cache_destroy gives up its locks the list is empty: every node of it has been freed. */
  lemma DestroyedIsEmpty(s: State)
    requires Reachable(s) && (s.destroyer.DDropBody? || s.destroyer.DDropHead?)
    ensures s.hostlist == Null && s.history.chain == []
    ensures forall n | n in s.mem :: exists i :: Carries(s, i, n)
  {
    ReachableInv(s);
    InitialInv();
    var run :| Possible(INITIAL, run) && After(INITIAL, run) == s;
    RunKeepsEmptied(INITIAL, run);
  }

  /** After a walk a purge begins exactly if first_to_expire is not in the future, and it goes by the clock of that
      moment. */
  lemma PurgeBegins(s: State, e: Env)
    requires s.lookup == PurgeTest && LookupEnabled(s, e)
    ensures var r := LookupNext(s, e);
            && (s.expiry <= e.t ==> r.lookup == WantHeadToPurge && r.now == e.now)
            && (s.expiry > e.t ==> r == s.(lookup := Top))
  {
  }
}
