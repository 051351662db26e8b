/**
 Every step of the reverse-DNS cache keeps the list linked and every node owned exactly
 once, and keeps the walk and the purge at their places.
 */
module RdnsMemory {
  import opened Seqs
  import opened RdnsCache
  import opened RdnsLocks
  import opened RdnsInvariants

  lemma OnlyHolder(s: State, t: Thread, u: Thread, l: Lock)
    requires LocksAgree(s) && ModeOf(s, t, l) == Exclusive && u != t
    ensures ModeOf(s, u, l) == No
  {
    assert Excludes(s.locks, l);
    assert Granted(s.locks, t, l) == ModeOf(s, t, l) && Granted(s.locks, u, l) == ModeOf(s, u, l);
  }

  ghost predicate SameHands(s: State, r: State) {
    forall i, n :: Carries(r, i, n) == Carries(s, i, n)
  }

  lemma SameAdders(s: State, r: State)
    requires r.adders == s.adders
    ensures SameHands(s, r)
  {
  }

  /** Steps that touch no node, no link and nobody's hands. */
  lemma MemoryFrame(s: State, r: State)
    requires Linked(s) && Owned(s)
    requires r.mem == s.mem && r.hostlist == s.hostlist && r.history.chain == s.history.chain
    requires r.history.mallocs == s.history.mallocs && r.history.frees == s.history.frees
    requires SameHands(s, r)
    ensures Linked(r) && Owned(r)
  {
    forall i | 0 <= i < |r.history.chain|
      ensures LinkAt(r, i)
    {
      assert LinkAt(s, i);
    }
    forall n | n in r.mem
      ensures n in r.history.chain || exists i :: Carries(r, i, n)
    {
      if n !in s.history.chain {
        var i :| Carries(s, i, n);
        assert Carries(r, i, n);
      }
    }
  }

  /** A change of the node at position k that keeps its link. */
  lemma MemoryUpdate(s: State, r: State, k: nat, item: Item)
    requires Linked(s) && Owned(s) && k < |s.history.chain|
    requires item.next == Deref(s, s.history.chain[k]).next
    requires r.mem == s.mem[s.history.chain[k] := item]
    requires r.hostlist == s.hostlist && r.history.chain == s.history.chain
    requires r.history.mallocs == s.history.mallocs && r.history.frees == s.history.frees
    requires SameHands(s, r)
    ensures Linked(r) && Owned(r)
  {
    assert LinkAt(s, k);
    assert r.mem.Keys == s.mem.Keys;
    forall i | 0 <= i < |r.history.chain|
      ensures LinkAt(r, i)
    {
      assert LinkAt(s, i);
    }
    forall n | n in r.mem
      ensures n in r.history.chain || exists i :: Carries(r, i, n)
    {
      if n !in s.history.chain {
        var i :| Carries(s, i, n);
        assert Carries(r, i, n);
      }
    }
    assert |r.mem| == |r.mem.Keys| == |s.mem.Keys| == |s.mem|;
  }

  /** Unlinking and freeing the node at position k. */
  ghost predicate CutAt(s: State, r: State, k: nat) {
    var chain := s.history.chain;
    && k < |chain|
    && r.history.chain == Cut(chain, k, k + 1)
    && r.history.mallocs == s.history.mallocs && r.history.frees == s.history.frees + 1
    && (if k == 0 then r.hostlist == Deref(s, chain[k]).next && r.mem == s.mem - {chain[k]}
        else r.hostlist == s.hostlist
             && r.mem == s.mem[chain[k - 1] := Deref(s, chain[k - 1]).(next := Deref(s, chain[k]).next)] - {chain[k]})
  }

  lemma CutKeepsLinked(s: State, r: State, k: nat)
    requires Linked(s) && CutAt(s, r, k)
    ensures Linked(r)
  {
    var chain, c := s.history.chain, r.history.chain;
    CutDistinct(chain, k, k + 1);
    assert LinkAt(s, k);
    if k > 0 { assert LinkAt(s, k - 1); }
    forall i | 0 <= i < |c|
      ensures LinkAt(r, i)
    {
      if i < k { assert LinkAt(s, i); } else { assert LinkAt(s, i + 1); }
    }
  }

  lemma CutKeys(s: State, r: State, k: nat)
    requires Linked(s) && CutAt(s, r, k)
    ensures r.mem.Keys == s.mem.Keys - {s.history.chain[k]} && |r.mem| == |s.mem| - 1
    ensures forall n | n in r.mem && n !in s.history.chain :: r.mem[n] == s.mem[n]
    ensures forall n :: n in r.history.chain <==> n in s.history.chain && n != s.history.chain[k]
  {
    var gone := s.history.chain[k];
    assert LinkAt(s, k);
    if k > 0 { assert LinkAt(s, k - 1); }
    assert r.mem.Keys == s.mem.Keys - {gone};
    assert |r.mem| == |r.mem.Keys| && |s.mem| == |s.mem.Keys|;
    CutElements(s.history.chain, k);
  }

  lemma CutKeepsOwned(s: State, r: State, k: nat)
    requires Linked(s) && Owned(s) && CutAt(s, r, k) && SameHands(s, r)
    ensures Owned(r)
  {
    CutKeys(s, r, k);
    forall n | n in r.mem
      ensures n in r.history.chain || exists i :: Carries(r, i, n)
    {
      if n !in s.history.chain {
        var i :| Carries(s, i, n);
        assert Carries(r, i, n);
      }
    }
    forall i, n | Carries(r, i, n)
      ensures n in r.mem && !r.mem[n].valid && n !in r.history.chain
    {
      assert Carries(s, i, n);
    }
  }

  ghost predicate SameMemory(s: State, r: State) {
    && r.mem == s.mem && r.hostlist == s.hostlist && r.history.chain == s.history.chain
    && r.history.mallocs == s.history.mallocs && r.history.frees == s.history.frees
  }

  lemma CutKeepsMemory(s: State, r: State, k: nat)
    requires Linked(s) && Owned(s) && (CutAt(s, r, k) || SameMemory(s, r)) && r.adders == s.adders
    ensures Linked(r) && Owned(r)
  {
    SameAdders(s, r);
    if CutAt(s, r, k) {
      CutKeepsLinked(s, r, k);
      CutKeepsOwned(s, r, k);
    } else {
      MemoryFrame(s, r);
    }
  }

  // ----- the lookup thread

  /** What one round of the walk, at position k, does. */
  ghost predicate WalkedAt(s: State, r: State, k: nat) {
    var chain := s.history.chain;
    && k == |chain| - s.history.rest < |chain| && chain[k] in s.mem
    && s.lookup == Walk(At(chain[k])) && r.lookup == Walk(s.mem[chain[k]].next)
    && r.adders == s.adders && r.hostlist == s.hostlist && r.lastStart == s.lastStart
    && r.history == s.history.(rest := s.history.rest - 1)
    && if s.mem[chain[k]].valid then r.mem == s.mem && r.expiry == s.expiry
       else
         var ttd := Deref(r, chain[k]).ttd;
         && r.mem == s.mem[chain[k] := Item(s.mem[chain[k]].next, ttd, true)]
         && r.expiry == Earliest(s.expiry, ttd)
  }

  lemma WalkRound(s: State, e: Env) returns (k: nat)
    requires Linked(s) && Cursor(s) && s.lookup.Walk? && s.lookup.item.At?
    ensures WalkedAt(s, LookupNext(s, e), k)
  {
    k := |s.history.chain| - s.history.rest;
    assert LinkAt(s, k);
  }

  lemma WalkKeepsMemory(s: State, r: State, k: nat)
    requires Linked(s) && Owned(s) && WalkedAt(s, r, k)
    ensures Linked(r) && Owned(r)
  {
    SameAdders(s, r);
    assert LinkAt(s, k);
    if s.mem[s.history.chain[k]].valid {
      MemoryFrame(s, r);
    } else {
      MemoryUpdate(s, r, k, r.mem[s.history.chain[k]]);
    }
  }

  lemma WalkKeepsCursor(s: State, e: Env)
    requires Linked(s) && Cursor(s) && s.lookup.Walk? && s.lookup.item.At?
    ensures Cursor(LookupNext(s, e))
  {
    assert LinkAt(s, |s.history.chain| - s.history.rest);
  }

  /** What one round of the purge, at position k, does. */
  ghost predicate PurgedAt(s: State, r: State, k: nat) {
    var chain := s.history.chain;
    && k == |chain| - s.history.rest < |chain| && chain[k] in s.mem
    && s.lookup.Purge? && r.lookup.Purge? && s.lookup.cur == At(chain[k])
    && r.adders == s.adders && r.lastStart == s.lastStart && r.now == s.now
    && r.history.rest == s.history.rest - 1 && r.history.before == s.history.before
    && r.history.reused == s.history.reused
    && var ttd := s.mem[chain[k]].ttd;
       if ttd <= s.now then CutAt(s, r, k) && r.expiry == s.expiry
       else SameMemory(s, r) && r.expiry == Earliest(s.expiry, ttd)
  }

  lemma PurgeRound(s: State, e: Env) returns (k: nat)
    requires Linked(s) && Cursor(s) && s.lookup.Purge? && s.lookup.cur.At?
    ensures PurgedAt(s, LookupNext(s, e), k)
  {
    k := |s.history.chain| - s.history.rest;
    assert LinkAt(s, k);
  }

  lemma PurgeKeepsCursor(s: State, e: Env)
    requires Linked(s) && Cursor(s) && s.lookup.Purge? && s.lookup.cur.At?
    ensures Cursor(LookupNext(s, e))
  {
    assert LinkAt(s, |s.history.chain| - s.history.rest);
  }

  lemma QuietKeepsMemory(s: State, e: Env)
    requires Linked(s) && Owned(s) && Cursor(s)
    requires !(s.lookup.Walk? && s.lookup.item.At?) && !(s.lookup.Purge? && s.lookup.cur.At?)
    ensures Linked(LookupNext(s, e)) && Owned(LookupNext(s, e)) && Cursor(LookupNext(s, e))
  {
    SameAdders(s, LookupNext(s, e));
    MemoryFrame(s, LookupNext(s, e));
  }

  lemma LookupKeepsMemory(s: State, e: Env)
    requires Linked(s) && Owned(s) && Cursor(s)
    ensures Linked(LookupNext(s, e)) && Owned(LookupNext(s, e)) && Cursor(LookupNext(s, e))
  {
    if s.lookup.Walk? && s.lookup.item.At? {
      var k := WalkRound(s, e);
      WalkKeepsMemory(s, LookupNext(s, e), k);
      WalkKeepsCursor(s, e);
    } else if s.lookup.Purge? && s.lookup.cur.At? {
      var k := PurgeRound(s, e);
      CutKeepsMemory(s, LookupNext(s, e), k);
      PurgeKeepsCursor(s, e);
    } else {
      QuietKeepsMemory(s, e);
    }
  }

  // ----- adders

  lemma AllocKeepsLinked(s: State, i: nat, n: Addr, garbage: int, r: State)
    requires Linked(s) && Cursor(s) && PcOf(s, i) == Idle && n !in s.mem && r == AdderNext(s, i, n, garbage)
    ensures Linked(r) && Cursor(r) && n !in r.history.chain
  {
    forall j | 0 <= j < |s.history.chain|
      ensures LinkAt(r, j) && s.history.chain[j] != n
    {
      assert LinkAt(s, j);
    }
  }

  /** Adder i has taken a new node into its hands. */
  ghost predicate Allocated(s: State, r: State, i: nat, item: Item, n: Addr) {
    && r.mem == s.mem[n := item] && r.history.chain == s.history.chain
    && r.history.mallocs == s.history.mallocs + 1 && r.history.frees == s.history.frees
    && forall j, m :: Carries(r, j, m) == if j == i then m == n else Carries(s, j, m)
  }

  lemma AllocHands(s: State, i: nat, n: Addr, garbage: int, r: State)
    requires PcOf(s, i) == Idle && r == AdderNext(s, i, n, garbage)
    ensures Allocated(s, r, i, Item(Null, garbage, false), n)
  {
    forall j, m
      ensures Carries(r, j, m) == if j == i then m == n else Carries(s, j, m)
    {
      assert PcOf(r, j) == if j == i then AWantMutex(n) else PcOf(s, j);
    }
  }

  lemma AllocKeepsOwned(s: State, r: State, i: nat, item: Item, n: Addr)
    requires Owned(s) && Allocated(s, r, i, item, n) && !item.valid && n !in s.mem && n !in s.history.chain
    requires forall m :: !Carries(s, i, m)
    ensures Owned(r)
  {
    forall m | m in r.mem
      ensures m in r.history.chain || exists j :: Carries(r, j, m)
    {
      if m == n {
        assert Carries(r, i, n);
      } else if m !in s.history.chain {
        var j :| Carries(s, j, m);
        assert Carries(r, j, m);
      }
    }
    OneMoreNode(s.mem, n, item);
  }

  lemma OneMoreNode(mem: map<Addr, Item>, n: Addr, item: Item)
    requires n !in mem
    ensures |mem[n := item]| == |mem| + 1
  {
    var more := mem[n := item];
    assert more.Keys == mem.Keys + {n};
    assert |more| == |more.Keys| && |mem| == |mem.Keys|;
  }

  lemma LinkKeepsLinked(s: State, i: nat, n: Addr, garbage: int, r: State)
    requires LocksAgree(s) && Linked(s) && Owned(s) && Cursor(s) && PcOf(s, i).ALink?
    requires r == AdderNext(s, i, n, garbage)
    ensures Linked(r) && Cursor(r)
  {
    var m := PcOf(s, i).n;
    OnlyHolder(s, Adder(i), Lookup, Head);
    OnlyHolder(s, Adder(i), Lookup, Mutex);
    assert Carries(s, i, m);
    InsertedDistinct(s.history.chain, 0, m);
    assert r.history.chain == Inserted(s.history.chain, 0, m);
    forall j | 0 <= j < |r.history.chain|
      ensures LinkAt(r, j)
    {
      if j > 0 { assert LinkAt(s, j - 1); }
    }
  }

  lemma LinkKeepsOwned(s: State, i: nat, n: Addr, garbage: int, r: State)
    requires Owned(s) && PcOf(s, i).ALink? && r == AdderNext(s, i, n, garbage)
    ensures Owned(r)
  {
    var m := PcOf(s, i).n;
    assert Carries(s, i, m);
    assert forall j, p :: Carries(r, j, p) == (j != i && Carries(s, j, p));
    forall p | p in r.mem
      ensures p in r.history.chain || exists j :: Carries(r, j, p)
    {
      if p != m && p !in s.history.chain {
        var j :| Carries(s, j, p);
        assert Carries(r, j, p);
      }
    }
    assert r.mem.Keys == s.mem.Keys;
    assert |r.mem| == |r.mem.Keys| == |s.mem.Keys|;
  }

  lemma AdderKeepsMemory(s: State, i: nat, n: Addr, garbage: int)
    requires LocksAgree(s) && Linked(s) && Owned(s) && Cursor(s) && AdderEnabled(s, i, n)
    ensures Linked(AdderNext(s, i, n, garbage)) && Owned(AdderNext(s, i, n, garbage))
    ensures Cursor(AdderNext(s, i, n, garbage))
  {
    if PcOf(s, i) == Idle {
      AllocKeepsLinked(s, i, n, garbage, AdderNext(s, i, n, garbage));
      AllocHands(s, i, n, garbage, AdderNext(s, i, n, garbage));
      AllocKeepsOwned(s, AdderNext(s, i, n, garbage), i, Item(Null, garbage, false), n);
    } else if PcOf(s, i).ALink? {
      LinkKeepsLinked(s, i, n, garbage, AdderNext(s, i, n, garbage));
      LinkKeepsOwned(s, i, n, garbage, AdderNext(s, i, n, garbage));
    } else {
      var r := AdderNext(s, i, n, garbage);
      forall j, m
        ensures Carries(r, j, m) == Carries(s, j, m)
      {
        assert PcOf(r, j) == if j == i then AdderGoto(PcOf(s, i), n) else PcOf(s, j);
      }
      MemoryFrame(s, r);
    }
  }

  // ----- the destroyer

  lemma DestroyerCuts(s: State)
    requires Linked(s) && Cursor(s) && ExitSeen(s)
    ensures var r := DestroyerNext(s);
            (CutAt(s, r, 0) || SameMemory(s, r)) && r.adders == s.adders && Cursor(r)
  {
    if s.destroyer.DFree? && s.hostlist.At? {
      assert LinkAt(s, 0);
      assert CutAt(s, DestroyerNext(s), 0);
    }
  }

  lemma DestroyerKeepsMemory(s: State)
    requires Linked(s) && Owned(s) && Cursor(s) && ExitSeen(s)
    ensures Linked(DestroyerNext(s)) && Owned(DestroyerNext(s)) && Cursor(DestroyerNext(s))
  {
    DestroyerCuts(s);
    CutKeepsMemory(s, DestroyerNext(s), 0);
  }

  lemma StepKeepsMemory(s: State, a: Action)
    requires LocksAgree(s) && Linked(s) && Owned(s) && Cursor(s) && ExitSeen(s) && Enabled(s, a)
    ensures Linked(Next(s, a)) && Owned(Next(s, a)) && Cursor(Next(s, a))
  {
    match a
    case LookupStep(e) => LookupKeepsMemory(s, e);
    case AdderStep(i, n, garbage) => AdderKeepsMemory(s, i, n, garbage);
    case DestroyerStep => DestroyerKeepsMemory(s);
    case SetTtl(v) =>
      SameAdders(s, Next(s, a));
      MemoryFrame(s, Next(s, a));
  }

  lemma StepKeepsExitSeen(s: State, a: Action)
    requires LocksAgree(s) && ExitSeen(s) && Enabled(s, a)
    ensures ExitSeen(Next(s, a))
  {
  }
}
