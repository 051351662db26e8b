/**
 Every step of the reverse-DNS cache keeps first_to_expire a lower bound of the resolved
 nodes' ttds, and the purge leaves exactly the nodes that have not expired, in order.
 */
module RdnsExpiry {
  import opened Seqs
  import opened RdnsCache
  import opened RdnsLocks
  import opened RdnsInvariants
  import opened RdnsMemory
  import opened RdnsSleep

  // ----- the lookup thread

  lemma WalkKeepsWatermark(s: State, r: State, k: nat)
    requires Watermark(s) && WalkedAt(s, r, k)
    ensures Watermark(r)
  {
  }

  lemma PurgeKeepsWatermark(s: State, r: State, k: nat)
    requires Linked(s) && Watermark(s) && PurgedAt(s, r, k) && s.now >= 0
    ensures Watermark(r)
  {
  }

  /** The step that ends the purge: everything left is covered. */
  lemma PurgeEndKeepsWatermark(s: State, e: Env, r: State)
    requires Cursor(s) && Watermark(s) && s.lookup.Purge? && s.lookup.cur == Null && r == LookupNext(s, e)
    ensures Watermark(r)
  {
  }

  lemma LookupKeepsWatermark(s: State, e: Env, r: State)
    requires Linked(s) && Cursor(s) && Watermark(s) && PurgeShape(s) && r == LookupNext(s, e)
    ensures Watermark(r)
  {
    if s.lookup.Walk? && s.lookup.item.At? {
      var k := WalkRound(s, e);
      WalkKeepsWatermark(s, r, k);
    } else if s.lookup.Purge? && s.lookup.cur.At? {
      var k := PurgeRound(s, e);
      PurgeKeepsWatermark(s, r, k);
    } else if s.lookup.Purge? {
      PurgeEndKeepsWatermark(s, e, r);
    } else {
      QuietKeepsWatermark(s, e, r);
    }
  }

  lemma QuietLeaves(s: State, e: Env, r: State)
    requires r == LookupNext(s, e)
    requires !(s.lookup.Walk? && s.lookup.item.At?) && !s.lookup.Purge?
    ensures r.mem == s.mem && r.history.chain == s.history.chain && (r.expiry == s.expiry || s.lookup.PurgeTest?)
    ensures PhaseOf(r.lookup) == Clearing || PhaseOf(r.lookup) == Elsewhere || r.lookup.Purge?
    ensures PhaseOf(r.lookup) == Elsewhere ==> r.expiry == s.expiry && PhaseOf(s.lookup) != Clearing
    ensures r.lookup.Purge? ==> r.history.rest == |r.history.chain|
    ensures s.lookup.Exited? ==> r.lookup.Exited?
  {
  }

  lemma QuietKeepsWatermark(s: State, e: Env, r: State)
    requires Watermark(s) && r == LookupNext(s, e)
    requires !(s.lookup.Walk? && s.lookup.item.At?) && !s.lookup.Purge?
    ensures Watermark(r)
  {
    QuietLeaves(s, e, r);
  }

  /** A purge is skipped only with first_to_expire in the future, and stamps it anew otherwise. */
  lemma LookupKeepsNotPast(s: State, e: Env, r: State)
    requires NotPast(s) && PurgeShape(s) && LookupEnabled(s, e) && r == LookupNext(s, e)
    ensures NotPast(r)
  {
  }

  // ----- the others

  /** Nodes that keep their place from the end keep their fields when an adder steps. */
  lemma AdderShifts(s: State, i: nat, n: Addr, garbage: int, j: nat)
    requires LocksAgree(s) && Linked(s) && Owned(s) && AdderEnabled(s, i, n)
    requires j < |AdderNext(s, i, n, garbage).history.chain|
    ensures var r, d := AdderNext(s, i, n, garbage), if PcOf(s, i).ALink? then 1 else 0;
            && |r.history.chain| == |s.history.chain| + d
            && (j < d ==> !Fields(r.mem, r.history.chain[j]).valid)
            && (j >= d ==> r.history.chain[j] == s.history.chain[j - d]
                           && Fields(r.mem, r.history.chain[j]).valid == Fields(s.mem, s.history.chain[j - d]).valid
                           && Fields(r.mem, r.history.chain[j]).ttd == Fields(s.mem, s.history.chain[j - d]).ttd)
  {
    if PcOf(s, i).ALink? {
      assert Carries(s, i, PcOf(s, i).n);
      if j > 0 { assert LinkAt(s, j - 1); }
    } else {
      assert LinkAt(s, j);
    }
  }

  lemma AdderKeepsZeroStamp(s: State, i: nat, n: Addr, garbage: int, r: State)
    requires LocksAgree(s) && Linked(s) && Owned(s) && AdderEnabled(s, i, n)
    requires r == AdderNext(s, i, n, garbage) && ZeroStamped(s.history.chain, s.mem)
    ensures ZeroStamped(r.history.chain, r.mem)
  {
    var j :| 0 <= j < |s.history.chain| && Fields(s.mem, s.history.chain[j]).valid
             && Fields(s.mem, s.history.chain[j]).ttd == 0;
    AdderShifts(s, i, n, garbage, if PcOf(s, i).ALink? then j + 1 else j);
  }

  lemma AdderKeepsBounds(s: State, i: nat, n: Addr, garbage: int, r: State)
    requires LocksAgree(s) && Linked(s) && Owned(s) && AdderEnabled(s, i, n)
    requires r == AdderNext(s, i, n, garbage) && PhaseOf(r.lookup) == PhaseOf(s.lookup)
    requires Bounds(PhaseOf(s.lookup), s.history.chain, s.mem, s.history.rest, s.expiry)
    ensures Bounds(PhaseOf(r.lookup), r.history.chain, r.mem, r.history.rest, r.expiry)
  {
    if PcOf(s, i).ALink? { OnlyHolder(s, Adder(i), Lookup, Head); }
    if PhaseOf(s.lookup) == Purging {
      forall j | 0 <= j < |r.history.chain| - r.history.rest && j < |r.history.chain|
        ensures Covers(r.expiry, Fields(r.mem, r.history.chain[j]).ttd)
      {
        AdderShifts(s, i, n, garbage, j);
      }
    } else if PhaseOf(s.lookup) != Clearing {
      forall j | 0 <= j < |r.history.chain| && Fields(r.mem, r.history.chain[j]).valid
        ensures Covers(r.expiry, Fields(r.mem, r.history.chain[j]).ttd)
      {
        AdderShifts(s, i, n, garbage, j);
      }
    }
  }

  lemma AdderKeepsWatermark(s: State, i: nat, n: Addr, garbage: int, r: State)
    requires LocksAgree(s) && Linked(s) && Owned(s) && Watermark(s) && AdderEnabled(s, i, n)
    requires r == AdderNext(s, i, n, garbage)
    ensures Watermark(r)
  {
    AdderLeaves(s, i, n, garbage);
    if PhaseOf(s.lookup).Elsewhere? && ZeroStamped(s.history.chain, s.mem) {
      AdderKeepsZeroStamp(s, i, n, garbage, r);
    } else if !s.lookup.Exited? {
      AdderKeepsBounds(s, i, n, garbage, r);
    }
  }

  /** The destroyer frees nodes only when the lookup thread has gone. */
  lemma DestroyerKeepsWatermark(s: State, r: State)
    requires ExitSeen(s) && Watermark(s) && r == DestroyerNext(s)
    ensures Watermark(r)
  {
    assert PhaseOf(r.lookup) == PhaseOf(s.lookup);
    assert !s.lookup.Exited? ==> r.history == s.history && r.mem == s.mem;
  }

  // ----- what the purge leaves

  /** One more entry of the record looked at. */
  lemma SurvivorsStep(b: seq<Stamped>, p: nat, now: int)
    requires p < |b|
    ensures Survivors(b[..p + 1], now) == Survivors(b[..p], now) + if b[p].ttd > now then [b[p].a] else []
    ensures EarliestOf(b[..p + 1], now)
         == if b[p].ttd > now then Earliest(EarliestOf(b[..p], now), b[p].ttd) else EarliestOf(b[..p], now)
  {
    assert b[..p + 1][..p] == b[..p];
  }

  lemma RoundKeepsShape(s: State, r: State, k: nat)
    requires Linked(s) && PurgeShape(s) && PurgedAt(s, r, k)
    ensures PurgeShape(r)
  {
    var b, rest := s.history.before, s.history.rest;
    var p := |b| - rest;
    assert b[p].a == s.history.chain[k];
    if s.mem[s.history.chain[k]].ttd <= s.now {
      RoundCuts(s, r, k, p);
      PurgingShape(r.lookup, r.history.chain, r.mem, b, rest - 1, s.now, r.expiry, k, p + 1);
    } else {
      RoundKeeps(s, r, k, p);
      PurgingShape(r.lookup, r.history.chain, r.mem, b, rest - 1, s.now, r.expiry, k + 1, p + 1);
    }
  }

  /** Shape during the purge, with the two positions given. */
  lemma PurgingShape(pc: LookupPc, chain: seq<Addr>, mem: map<Addr, Item>, b: seq<Stamped>, rest: int,
                     now: int, expiry: int, k: nat, p: nat)
    requires pc.Purge? && now >= 0 && 0 <= rest && k + rest == |chain| && p + rest == |b|
    requires chain[..k] == Survivors(b[..p], now) && expiry == EarliestOf(b[..p], now)
    requires TailUntouched(chain, mem, b, k, p)
    ensures Shape(PhaseOf(pc), chain, mem, b, rest, now, expiry)
  {
  }

  /** The node at k has expired: it is gone, and the record has one more entry looked at. */
  lemma RoundCuts(s: State, r: State, k: nat, p: nat)
    requires Linked(s) && CutAt(s, r, k) && p < |s.history.before|
    requires s.history.chain[..k] == Survivors(s.history.before[..p], s.now)
    requires TailUntouched(s.history.chain, s.mem, s.history.before, k, p)
    requires Fields(s.mem, s.history.chain[k]).ttd <= s.now
    ensures r.history.chain[..k] == Survivors(s.history.before[..p + 1], s.now)
    ensures EarliestOf(s.history.before[..p + 1], s.now) == EarliestOf(s.history.before[..p], s.now)
    ensures TailUntouched(r.history.chain, r.mem, s.history.before, k, p + 1)
  {
    SurvivorsStep(s.history.before, p, s.now);
    PurgeCutTail(s, r, k, p);
    CutKeepsFront(s.history.chain, k);
    assert s.history.before[p].a == s.history.chain[k];
  }

  /** The node at k has not expired: it joins the survivors. */
  lemma RoundKeeps(s: State, r: State, k: nat, p: nat)
    requires SameMemory(s, r) && k < |s.history.chain| && p < |s.history.before|
    requires s.history.chain[..k] == Survivors(s.history.before[..p], s.now)
    requires TailUntouched(s.history.chain, s.mem, s.history.before, k, p)
    requires Fields(s.mem, s.history.chain[k]).ttd > s.now
    ensures r.history.chain[..k + 1] == Survivors(s.history.before[..p + 1], s.now)
    ensures EarliestOf(s.history.before[..p + 1], s.now)
         == Earliest(EarliestOf(s.history.before[..p], s.now), Fields(s.mem, s.history.chain[k]).ttd)
    ensures TailUntouched(r.history.chain, r.mem, s.history.before, k + 1, p + 1)
  {
    SurvivorsStep(s.history.before, p, s.now);
    KeptTail(s.history.chain, s.mem, s.history.before, k, p);
    assert s.history.before[p].a == s.history.chain[k];
  }

  lemma CutKeepsFront(chain: seq<Addr>, k: nat)
    requires k < |chain|
    ensures Cut(chain, k, k + 1)[..k] == chain[..k]
  {
  }

  lemma KeptTail(chain: seq<Addr>, mem: map<Addr, Item>, b: seq<Stamped>, k: nat, p: nat)
    requires k < |chain| && TailUntouched(chain, mem, b, k, p)
    ensures chain[..k + 1] == chain[..k] + [chain[k]]
    ensures TailUntouched(chain, mem, b, k + 1, p + 1)
  {
  }

  lemma PurgeCutTail(s: State, r: State, k: nat, p: nat)
    requires Linked(s) && CutAt(s, r, k) && p < |s.history.before|
    requires TailUntouched(s.history.chain, s.mem, s.history.before, k, p)
    ensures TailUntouched(r.history.chain, r.mem, s.history.before, k, p + 1)
  {
  }

  lemma PurgeStartShape(s: State, e: Env, r: State)
    requires Linked(s) && PurgeShape(s) && s.lookup.WantBodyToPurge? && r == LookupNext(s, e)
    ensures PurgeShape(r)
  {
  }

  lemma LookupKeepsShape(s: State, e: Env, r: State)
    requires Linked(s) && Cursor(s) && PurgeShape(s) && LookupEnabled(s, e) && r == LookupNext(s, e)
    ensures PurgeShape(r)
  {
    if s.lookup.Purge? && s.lookup.cur.At? {
      var k := PurgeRound(s, e);
      RoundKeepsShape(s, r, k);
    } else if s.lookup.Purge? {
      var b := s.history.before;
      assert b[..|b|] == b && s.history.chain[..|s.history.chain|] == s.history.chain;
    } else if s.lookup.WantBodyToPurge? {
      PurgeStartShape(s, e, r);
    } else {
      QuietKeepsShape(s, e, r);
    }
  }

  lemma QuietKeepsShape(s: State, e: Env, r: State)
    requires PurgeShape(s) && LookupEnabled(s, e) && r == LookupNext(s, e)
    requires !s.lookup.Purge? && !s.lookup.WantBodyToPurge?
    ensures PurgeShape(r)
  {
    assert PhaseOf(r.lookup) == if r.lookup.WantHeadToPurge? || r.lookup.WantBodyToPurge? then Clearing else Elsewhere;
  }

  lemma AdderKeepsTtds(s: State, i: nat, n: Addr, garbage: int)
    requires LocksAgree(s) && Linked(s) && Owned(s) && AdderEnabled(s, i, n) && !PcOf(s, i).ALink?
    ensures var mem := AdderNext(s, i, n, garbage).mem;
            forall j | 0 <= j < |s.history.chain| ::
              Fields(mem, s.history.chain[j]).ttd == Fields(s.mem, s.history.chain[j]).ttd
  {
    forall j | 0 <= j < |s.history.chain|
      ensures Fields(AdderNext(s, i, n, garbage).mem, s.history.chain[j]).ttd == Fields(s.mem, s.history.chain[j]).ttd
    {
      AdderShifts(s, i, n, garbage, j);
    }
  }

  /** What an adder leaves alone: everything Shape speaks of but the list and the nodes. */
  lemma AdderLeaves(s: State, i: nat, n: Addr, garbage: int)
    ensures var r := AdderNext(s, i, n, garbage);
            && PhaseOf(r.lookup) == PhaseOf(s.lookup) && r.now == s.now && r.expiry == s.expiry
            && r.history.before == s.history.before && r.history.rest == s.history.rest
            && (!PcOf(s, i).ALink? ==> r.history.chain == s.history.chain)
  {
  }

  lemma LinkMeansNoPurge(s: State, i: nat)
    requires LocksAgree(s) && PcOf(s, i).ALink?
    ensures PhaseOf(s.lookup) == Clearing || PhaseOf(s.lookup) == Elsewhere
  {
    OnlyHolder(s, Adder(i), Lookup, Head);
  }

  lemma AdderKeepsShape(s: State, i: nat, n: Addr, garbage: int, r: State)
    requires LocksAgree(s) && Linked(s) && Owned(s) && PurgeShape(s) && AdderEnabled(s, i, n)
    requires r == AdderNext(s, i, n, garbage)
    ensures PurgeShape(r)
  {
    AdderLeaves(s, i, n, garbage);
    if PcOf(s, i).ALink? {
      LinkMeansNoPurge(s, i);
    } else {
      AdderKeepsTtds(s, i, n, garbage);
      ShapeStays(s, r);
    }
  }

  lemma ShapeStays(s: State, r: State)
    requires PurgeShape(s)
    requires PhaseOf(r.lookup) == PhaseOf(s.lookup) && r.now == s.now && r.expiry == s.expiry
    requires r.history.before == s.history.before && r.history.rest == s.history.rest
    requires r.history.chain == s.history.chain
    requires forall j | 0 <= j < |s.history.chain| ::
               Fields(r.mem, s.history.chain[j]).ttd == Fields(s.mem, s.history.chain[j]).ttd
    ensures PurgeShape(r)
  {
  }

  lemma DestroyerKeepsShape(s: State, r: State)
    requires ExitSeen(s) && PurgeShape(s) && r == DestroyerNext(s)
    ensures PurgeShape(r)
  {
    assert PhaseOf(r.lookup) == PhaseOf(s.lookup);
    assert PhaseOf(s.lookup) != Elsewhere ==> r.history == s.history && r.mem == s.mem;
  }

  lemma StepKeepsExpiry(s: State, a: Action)
    requires LocksAgree(s) && Linked(s) && Owned(s) && ExitSeen(s) && Cursor(s)
    requires Watermark(s) && NotPast(s) && PurgeShape(s) && Enabled(s, a)
    ensures Watermark(Next(s, a)) && NotPast(Next(s, a)) && PurgeShape(Next(s, a))
  {
    match a
    case LookupStep(e) =>
      LookupKeepsWatermark(s, e, Next(s, a));
      LookupKeepsNotPast(s, e, Next(s, a));
      LookupKeepsShape(s, e, Next(s, a));
    case AdderStep(i, n, garbage) =>
      AdderKeepsWatermark(s, i, n, garbage, Next(s, a));
      AdderKeepsShape(s, i, n, garbage, Next(s, a));
    case DestroyerStep =>
      DestroyerKeepsWatermark(s, Next(s, a));
      DestroyerKeepsShape(s, Next(s, a));
    case SetTtl(v) =>
  }
}
