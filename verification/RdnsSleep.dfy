/**
 Every step of the reverse-DNS cache keeps what is known about the nodes behind
 last_start, and with it the reason why the lookup thread may sleep.
 */
module RdnsSleep {
  import opened Seqs
  import opened RdnsCache
  import opened RdnsLocks
  import opened RdnsInvariants
  import opened RdnsMemory

  /** Where position j of the cut list was before, and that its node is otherwise as it was. */
  lemma CutSame(s: State, r: State, k: nat, j: nat) returns (was: nat)
    requires Linked(s) && CutAt(s, r, k) && j < |r.history.chain|
    ensures was == (if j < k then j else j + 1) < |s.history.chain|
    ensures r.history.chain[j] == s.history.chain[was]
    ensures Deref(r, r.history.chain[j]).valid == Deref(s, s.history.chain[was]).valid
    ensures Deref(r, r.history.chain[j]).ttd == Deref(s, s.history.chain[was]).ttd
  {
    was := if j < k then j else j + 1;
    assert LinkAt(s, was) && LinkAt(s, k);
    if k > 0 { assert LinkAt(s, k - 1); }
  }

  /** Cutting a node out keeps the nodes behind last_start resolved. */
  lemma CutKeepsResolved(s: State, r: State, k: nat)
    requires Linked(s) && CutAt(s, r, k) && r.lastStart == s.lastStart
    requires ResolvedUpTo(s, |s.history.chain|)
    ensures ResolvedUpTo(r, |r.history.chain|)
  {
    forall i, j | 0 <= i <= j < |r.history.chain| && At(r.history.chain[i]) == r.lastStart
      ensures Resolved(r, j)
    {
      var i' := CutSame(s, r, k, i);
      var j' := CutSame(s, r, k, j);
      assert Resolved(s, j');
    }
  }

  // ----- the lookup thread

  lemma WalkKeepsStart(s: State, r: State, k: nat)
    requires StartKnown(s) && WalkedAt(s, r, k)
    ensures StartKnown(r)
  {
    SameAdders(s, r);
    forall i, j | 0 <= i <= j <= k && At(r.history.chain[i]) == r.lastStart
      ensures Resolved(r, j)
    {
      if j < k { assert Resolved(s, j); }
    }
  }

  lemma CutOrSameKeepsStart(s: State, r: State, k: nat)
    requires Linked(s) && Owned(s) && StartKnown(s) && r.adders == s.adders
    requires CutAt(s, r, k) || SameMemory(s, r)
    requires r.lastStart == s.lastStart && r.history.reused == s.history.reused
    requires !Rescanning(s.lookup) && !Rescanning(r.lookup)
    ensures StartKnown(r)
  {
    if CutAt(s, r, k) {
      SameAdders(s, r);
      CutKeepsStart(s, r, k);
    } else {
      SameKeepsStart(s, r);
    }
  }

  /** Steps that change neither the list nor last_start, and do not start or end a rescan. */
  lemma SameKeepsStart(s: State, r: State)
    requires StartKnown(s) && r.adders == s.adders && SameMemory(s, r)
    requires r.lastStart == s.lastStart && r.history.reused == s.history.reused
    requires || (r.lookup == s.lookup && r.history.rest == s.history.rest)
             || (!Rescanning(s.lookup) && !Rescanning(r.lookup))
    ensures StartKnown(r)
  {
    SameAdders(s, r);
    assert forall j | 0 <= j < |s.history.chain| :: Resolved(r, j) == Resolved(s, j);
  }

  lemma CutKeepsStart(s: State, r: State, k: nat)
    requires Linked(s) && Owned(s) && StartKnown(s) && CutAt(s, r, k) && SameHands(s, r)
    requires r.lastStart == s.lastStart && r.history.reused == s.history.reused
    requires !Rescanning(s.lookup) && !Rescanning(r.lookup)
    ensures StartKnown(r)
  {
    CutKeys(s, r, k);
    if s.history.reused && s.lastStart.a in r.mem {
      assert LinkAt(s, k);
      if k > 0 { assert LinkAt(s, k - 1); }
    }
    if !s.history.reused { CutKeepsResolved(s, r, k); }
  }

  lemma LookupKeepsStart(s: State, e: Env)
    requires Linked(s) && Owned(s) && Cursor(s) && StartKnown(s)
    ensures StartKnown(LookupNext(s, e))
  {
    if s.lookup.Walk? && s.lookup.item.At? {
      var k := WalkRound(s, e);
      WalkKeepsStart(s, LookupNext(s, e), k);
    } else if s.lookup.Purge? && s.lookup.cur.At? {
      var k := PurgeRound(s, e);
      CutOrSameKeepsStart(s, LookupNext(s, e), k);
    } else if Rescanning(s.lookup) || s.lookup.Snapshot? {
      RescanKeepsStart(s, e, LookupNext(s, e));
    } else {
      QuietKeepsStart(s, e, LookupNext(s, e));
    }
  }

  lemma RescanKeepsStart(s: State, e: Env, r: State)
    requires Linked(s) && Owned(s) && Cursor(s) && StartKnown(s) && r == LookupNext(s, e)
    requires || s.lookup.Snapshot? || s.lookup.WantBody? || s.lookup.DropHeadToWalk? || s.lookup == Walk(Null)
             || s.lookup.DropBody?
    ensures StartKnown(r)
  {
    SameAdders(s, r);
    assert forall j | 0 <= j < |s.history.chain| :: Resolved(r, j) == Resolved(s, j);
  }

  lemma QuietKeepsStart(s: State, e: Env, r: State)
    requires StartKnown(s) && r == LookupNext(s, e)
    requires !Rescanning(s.lookup) && !s.lookup.Snapshot? && !(s.lookup.Purge? && s.lookup.cur.At?)
    ensures StartKnown(r)
  {
    SameKeepsStart(s, r);
  }

  // ----- adders

  lemma AllocKeepsStart(s: State, i: nat, n: Addr, garbage: int)
    requires Linked(s) && Owned(s) && StartKnown(s) && PcOf(s, i) == Idle && n !in s.mem
    ensures StartKnown(AdderNext(s, i, n, garbage))
  {
    var r := AdderNext(s, i, n, garbage);
    assert forall j, m :: Carries(r, j, m) == if j == i then m == n else Carries(s, j, m);
    forall j | 0 <= j < |s.history.chain|
      ensures Resolved(r, j) == Resolved(s, j) && s.history.chain[j] in s.mem
    {
      assert LinkAt(s, j);
    }
  }

  lemma LinkKeepsStart(s: State, i: nat, n: Addr, garbage: int)
    requires LocksAgree(s) && Linked(s) && Owned(s) && StartKnown(s) && PcOf(s, i).ALink?
    ensures StartKnown(AdderNext(s, i, n, garbage))
  {
    var r, m, chain := AdderNext(s, i, n, garbage), PcOf(s, i).n, s.history.chain;
    OnlyHolder(s, Adder(i), Lookup, Head);
    assert Carries(s, i, m);
    assert forall j, p :: Carries(r, j, p) ==> Carries(s, j, p);
    assert forall j | 0 <= j < |chain| :: r.history.chain[j + 1] == chain[j];
    forall k, j | 0 <= k <= j < |r.history.chain| && At(r.history.chain[k]) == r.lastStart && !s.history.reused
      ensures k > 0 && At(chain[k - 1]) == s.lastStart
      ensures Resolved(s, j - 1) ==> Resolved(r, j)
    {
      assert LinkAt(s, j - 1);
    }
  }

  lemma AdderKeepsStart(s: State, i: nat, n: Addr, garbage: int)
    requires LocksAgree(s) && Linked(s) && Owned(s) && StartKnown(s) && AdderEnabled(s, i, n)
    ensures StartKnown(AdderNext(s, i, n, garbage))
  {
    if PcOf(s, i) == Idle {
      AllocKeepsStart(s, i, n, garbage);
    } else if PcOf(s, i).ALink? {
      LinkKeepsStart(s, i, n, garbage);
    } else {
      var r := AdderNext(s, i, n, garbage);
      forall j, m
        ensures Carries(r, j, m) == Carries(s, j, m)
      {
        assert PcOf(r, j) == if j == i then AdderGoto(PcOf(s, i), n) else PcOf(s, j);
      }
      assert SameMemory(s, r);
      assert forall j | 0 <= j < |s.history.chain| :: Resolved(r, j) == Resolved(s, j);
    }
  }

  lemma DestroyerLeaves(s: State, r: State)
    requires r == DestroyerNext(s)
    ensures r.adders == s.adders && r.lastStart == s.lastStart && r.history.reused == s.history.reused
    ensures r.lookup == s.lookup || (s.lookup.Waiting? && r.lookup.Woken?)
    ensures !s.destroyer.DFree? ==> r.mem == s.mem && r.history == s.history
  {
  }

  /** Once the destroyer has seen the exit it frees; before that it leaves the list alone. */
  lemma DestroyerKeepsStart(s: State, r: State)
    requires Linked(s) && Owned(s) && Cursor(s) && ExitSeen(s) && StartKnown(s) && r == DestroyerNext(s)
    ensures StartKnown(r)
  {
    DestroyerLeaves(s, r);
    if s.destroyer.DFree? {
      DestroyerCuts(s);
      CutOrSameKeepsStart(s, r, 0);
    } else {
      SameKeepsStart(s, r);
    }
  }

  lemma StepKeepsStart(s: State, a: Action)
    requires LocksAgree(s) && Linked(s) && Owned(s) && ExitSeen(s) && Cursor(s) && StartKnown(s) && Enabled(s, a)
    ensures StartKnown(Next(s, a))
  {
    match a
    case LookupStep(e) => LookupKeepsStart(s, e);
    case AdderStep(i, n, garbage) => AdderKeepsStart(s, i, n, garbage);
    case DestroyerStep => DestroyerKeepsStart(s, Next(s, a));
    case SetTtl(v) =>
      SameKeepsStart(s, Next(s, a));
  }

  // ----- asleep

  lemma AdderKeepsSleep(s: State, i: nat, n: Addr, garbage: int)
    requires LocksAgree(s) && Linked(s) && SleepJustified(s) && AdderEnabled(s, i, n)
    ensures SleepJustified(AdderNext(s, i, n, garbage))
  {
    assert Granted(s.locks, Adder(i), Mutex) == ModeOf(s, Adder(i), Mutex);
    assert Excludes(s.locks, Mutex);
    var r := AdderNext(s, i, n, garbage);
    if PcOf(s, i).ALink? && s.lookup.Waiting? {
      assert PcOf(r, i) == ADropHead(PcOf(s, i).n);
      assert PtrAt(r.history.chain, 1) == PtrAt(s.history.chain, 0);
    }
  }

  lemma LookupKeepsSleep(s: State, e: Env)
    requires Cursor(s) && SleepJustified(s)
    ensures SleepJustified(LookupNext(s, e))
  {
  }

  lemma DestroyerKeepsSleep(s: State)
    requires LocksAgree(s) && ExitSeen(s) && SleepJustified(s) && DestroyerEnabled(s)
    ensures SleepJustified(DestroyerNext(s))
  {
  }

  lemma StepKeepsSleep(s: State, a: Action)
    requires LocksAgree(s) && Linked(s) && ExitSeen(s) && Cursor(s) && SleepJustified(s) && Enabled(s, a)
    ensures SleepJustified(Next(s, a))
  {
    match a
    case LookupStep(e) => LookupKeepsSleep(s, e);
    case AdderStep(i, n, garbage) => AdderKeepsSleep(s, i, n, garbage);
    case DestroyerStep => DestroyerKeepsSleep(s);
    case SetTtl(v) =>
  }
}
