/**
 What becomes of a node once its adder has linked it: when add_to_list's last step, which
 reads the node's host_name without any lock, is safe.
 */
module RdnsReturns {
  import opened Seqs
  import opened RdnsCache
  import opened RdnsLocks
  import opened RdnsInvariants
  import opened RdnsMemory
  import opened RdnsTheorems

  /** The step frees n: a round of the purge finds it expired, or the destroyer finds it in front. */
  predicate Frees(s: State, a: Action, n: Addr) {
    || (a.LookupStep? && s.lookup.Purge? && s.lookup.cur == At(n) && Deref(s, n).ttd <= s.now)
    || (a.DestroyerStep? && s.destroyer.DFree? && s.hostlist == At(n))
  }

  predicate FreedIn(s: State, run: seq<Action>, n: Addr)
    decreases |run|
  {
    run != [] && (Frees(s, run[0], n) || FreedIn(Next(s, run[0]), run[1..], n))
  }

  /** n is in the list now and after every step of the run; an address that leaves the list and comes
      back as another node does not count. */
  predicate StaysListed(s: State, run: seq<Action>, n: Addr)
    decreases |run|
  {
    n in s.history.chain && (run != [] ==> StaysListed(Next(s, run[0]), run[1..], n))
  }

  // ----- one step

  lemma CutLoses(s: State, r: State, k: nat, n: Addr)
    requires Linked(s) && CutAt(s, r, k) && n in s.history.chain
    ensures n in r.history.chain <==> n != s.history.chain[k]
  {
    CutElements(s.history.chain, k);
  }

  lemma PurgeLoses(s: State, e: Env, n: Addr)
    requires Linked(s) && Cursor(s) && s.lookup.Purge? && s.lookup.cur.At? && n in s.history.chain
    ensures n in LookupNext(s, e).history.chain <==> !Frees(s, LookupStep(e), n)
  {
    var r := LookupNext(s, e);
    var k := PurgeRound(s, e);
    if CutAt(s, r, k) { CutLoses(s, r, k, n); }
  }

  lemma QuietLoses(s: State, e: Env, n: Addr)
    requires !(s.lookup.Purge? && s.lookup.cur.At?) && n in s.history.chain
    ensures n in LookupNext(s, e).history.chain && !Frees(s, LookupStep(e), n)
  {
  }

  lemma DestroyerLoses(s: State, n: Addr)
    requires Linked(s) && n in s.history.chain
    ensures n in DestroyerNext(s).history.chain <==> !Frees(s, DestroyerStep, n)
  {
    if s.destroyer.DFree? && s.hostlist.At? { CutElements(s.history.chain, 0); }
  }

  lemma StepLoses(s: State, a: Action, n: Addr)
    requires Linked(s) && Cursor(s) && n in s.history.chain
    ensures n in Next(s, a).history.chain <==> !Frees(s, a, n)
  {
    match a
    case LookupStep(e) =>
      if s.lookup.Purge? && s.lookup.cur.At? { PurgeLoses(s, e, n); } else { QuietLoses(s, e, n); }
    case AdderStep(i, m, garbage) =>
    case DestroyerStep => DestroyerLoses(s, n);
    case SetTtl(_) =>
  }

  // ----- runs

  /** A listed node stays in the list over a run exactly if no step of the run frees it. */
  lemma {:induction false} StaysUnlessFreed(s: State, run: seq<Action>, n: Addr)
    requires Inv(s) && Possible(s, run) && n in s.history.chain
    ensures StaysListed(s, run, n) <==> !FreedIn(s, run, n)
    decreases |run|
  {
    if run != [] {
      StepLoses(s, run[0], n);
      StepKeepsInv(s, run[0]);
      if !Frees(s, run[0], n) { StaysUnlessFreed(Next(s, run[0]), run[1..], n); }
    }
  }

  lemma {:induction false} StaysToTheEnd(s: State, run: seq<Action>, n: Addr)
    requires Possible(s, run) && StaysListed(s, run, n)
    ensures n in After(s, run).history.chain
    decreases |run|
  {
    if run != [] { StaysToTheEnd(Next(s, run[0]), run[1..], n); }
  }

  lemma ListedIsLive(s: State, n: Addr)
    requires Linked(s) && n in s.history.chain
    ensures n in s.mem
  {
    var j :| 0 <= j < |s.history.chain| && s.history.chain[j] == n;
    assert LinkAt(s, j);
  }

  lemma LinkLists(s: State, link: Action)
    requires Inv(s) && link.AdderStep? && Enabled(s, link) && PcOf(s, link.i).ALink?
    ensures Inv(Next(s, link)) && PcOf(s, link.i).n in Next(s, link).history.chain
  {
    StepKeepsInv(s, link);
  }

  lemma ListedAtTheEnd(s: State, run: seq<Action>, n: Addr)
    requires Inv(s) && Possible(s, run) && StaysListed(s, run, n)
    ensures n in After(s, run).mem
  {
    StaysToTheEnd(s, run, n);
    RunKeepsInv(s, run);
    ListedIsLive(After(s, run), n);
  }

  /** From an adder's link step on, whatever the threads do, its node stays in the list, so that the
      return's read is of a live node and of its own, exactly if no purge round has since found the
      node expired and the destroyer has not found it in front. */
  lemma ReturnIsSafe(s: State, link: Action, run: seq<Action>)
    requires Reachable(s) && link.AdderStep? && Enabled(s, link) && PcOf(s, link.i).ALink?
    requires Possible(Next(s, link), run)
    ensures var n, r := PcOf(s, link.i).n, Next(s, link);
            && (StaysListed(r, run, n) <==> !FreedIn(r, run, n))
            && (!FreedIn(r, run, n) ==> n in After(r, run).mem)
            && (!FreedIn(r, run, n) && PcOf(After(r, run), link.i) == AReturn(n) ==>
                  Touches(After(r, run), link) <= After(r, run).mem.Keys)
  {
    var n, r := PcOf(s, link.i).n, Next(s, link);
    ReachableInv(s);
    LinkLists(s, link);
    StaysUnlessFreed(r, run, n);
    if StaysListed(r, run, n) { ListedAtTheEnd(r, run, n); }
  }
}
