/**
 What every interleaving of the reverse-DNS cache keeps: the links spell out one list,
 every allocated node is in that list or still in its adder's hands, the walk and the
 purge stand where they should, and nothing behind last_start is unresolved.
 */
module RdnsInvariants {
  import opened Seqs
  import opened RdnsCache
  import opened RdnsLocks

  function PtrAt(chain: seq<Addr>, i: nat): Ptr {
    if i < |chain| then At(chain[i]) else Null
  }

  // ----- memory

  ghost predicate LinkAt(s: State, i: nat)
    requires i < |s.history.chain|
  {
    var a := s.history.chain[i];
    a in s.mem && s.mem[a].next == PtrAt(s.history.chain, i + 1)
  }

  ghost predicate Linked(s: State) {
    && Distinct(s.history.chain)
    && s.hostlist == PtrAt(s.history.chain, 0)
    && forall i | 0 <= i < |s.history.chain| :: LinkAt(s, i)
  }

  /** Adder i has allocated n and not linked it yet. */
  predicate Carries(s: State, i: nat, n: Addr) {
    PcOf(s, i) == AWantMutex(n) || PcOf(s, i) == AWantHead(n) || PcOf(s, i) == ALink(n)
  }

  /** Each allocated node is in the list, once, or in the hands of one adder, and nowhere else. */
  ghost predicate Owned(s: State) {
    && (forall i, n | Carries(s, i, n) :: n in s.mem && !s.mem[n].valid && n !in s.history.chain)
    && (forall i, j, n | Carries(s, i, n) && Carries(s, j, n) :: i == j)
    && (forall n | n in s.mem :: n in s.history.chain || exists i :: Carries(s, i, n))
    && s.history.mallocs == s.history.frees + |s.mem|
  }

  // ----- control

  predicate PastSpin(pc: DestroyerPc) {
    pc.DWantHead? || pc.DWantBody? || pc.DFree? || pc.DDropBody? || pc.DDropHead? || pc.DDone?
  }

  predicate HasTold(pc: DestroyerPc) {
    pc.DBroadcast? || pc.DDropMutex? || pc.DSpin? || PastSpin(pc)
  }

  /** Only the lookup thread's exit stores 2, the destroyer frees nothing before it has seen that, and
      nothing takes its request to terminate back. */
  ghost predicate ExitSeen(s: State) {
    && (s.terminate == 2 ==> s.lookup == Exited)
    && (PastSpin(s.destroyer) ==> s.lookup == Exited)
    && (HasTold(s.destroyer) ==> s.terminate != 0)
  }

  // ----- where the walk and the purge stand

  predicate Rescanning(pc: LookupPc) {
    pc.WantBody? || pc.DropHeadToWalk? || pc.Walk? || pc.DropBody?
  }

  ghost predicate Cursor(s: State) {
    var chain, k := s.history.chain, |s.history.chain| - s.history.rest;
    match s.lookup
    case DropHeadIdle => s.hostlist == s.lastStart
    case ChooseWait => s.hostlist == s.lastStart
    case WantBody => s.hostlist == s.lastStart
    case DropHeadToWalk => s.hostlist == s.lastStart
    case Walk(item) => 0 <= k <= |chain| && item == PtrAt(chain, k)
    case Purge(prev, cur) =>
      0 <= k <= |chain| && cur == PtrAt(chain, k) && prev == if k == 0 then Null else At(chain[k - 1])
    case _ => true
  }

  // ----- nothing behind last_start is unresolved

  /** The nodes from last_start up to position n, if last_start is in the list at all, are resolved. */
  ghost predicate ResolvedUpTo(s: State, n: int) {
    forall i, j | 0 <= i <= j < n && j < |s.history.chain| ::
      At(s.history.chain[i]) == s.lastStart ==> Resolved(s, j)
  }

  ghost predicate Resolved(s: State, j: nat)
    requires j < |s.history.chain|
  {
    Deref(s, s.history.chain[j]).valid
  }

  ghost predicate StartKnown(s: State) {
    && (Rescanning(s.lookup) ==>
          !s.history.reused && (s.lastStart == Null || s.lastStart.a in s.history.chain))
    && (s.history.reused ==>
          s.lastStart.At? && (s.lastStart.a in s.mem ==> !s.mem[s.lastStart.a].valid))
    && (!s.history.reused ==>
          forall i, n | Carries(s, i, n) :: At(n) != s.lastStart)
    && (!s.history.reused && !s.lookup.WantBody? && !s.lookup.DropHeadToWalk? ==>
          ResolvedUpTo(s, if s.lookup.Walk? then |s.history.chain| - s.history.rest else |s.history.chain|))
  }

  // ----- asleep

  /** An adder has put its node at the front of the list and is about to signal. */
  predicate AboutToSignal(s: State, i: nat, n: Addr) {
    PcOf(s, i) == ADropHead(n) || PcOf(s, i) == ASignal(n)
  }

  ghost predicate SignalPending(s: State) {
    && s.locks.mutex.writer.Held?
    && s.locks.mutex.writer.owner.Adder?
    && s.history.chain != []
    && AboutToSignal(s, s.locks.mutex.writer.owner.id, s.history.chain[0])
    && PtrAt(s.history.chain, 1) == s.lastStart
  }

  ghost predicate SleepJustified(s: State) {
    s.lookup.Waiting? ==> s.hostlist == s.lastStart || SignalPending(s)
  }

  // ----- the expiry watermark

  datatype Phase = Clearing | Purging | Purged | Elsewhere

  function PhaseOf(pc: LookupPc): Phase {
    if pc.WantHeadToPurge? || pc.WantBodyToPurge? then Clearing
    else if pc.Purge? then Purging
    else if pc.DropBodyPurged? then Purged
    else Elsewhere
  }

  function Fields(mem: map<Addr, Item>, a: Addr): Item {
    if a in mem then mem[a] else Item(Null, 0, false)
  }

  ghost predicate Covers(expiry: int, ttd: int) {
    expiry != 0 && expiry <= ttd
  }

  /** Before and after a purge first_to_expire is a lower bound of every resolved node's ttd; during
      the purge it is one of every node kept so far. */
  ghost predicate Bounds(phase: Phase, chain: seq<Addr>, mem: map<Addr, Item>, rest: int, expiry: int) {
    match phase
    case Clearing => true
    case Purging =>
      forall i | 0 <= i < |chain| - rest && i < |chain| :: Covers(expiry, Fields(mem, chain[i]).ttd)
    case _ =>
      forall i | 0 <= i < |chain| && Fields(mem, chain[i]).valid :: Covers(expiry, Fields(mem, chain[i]).ttd)
  }

  /** A resolved entry carries the stamp that first_to_expire takes for "none". */
  ghost predicate ZeroStamped(chain: seq<Addr>, mem: map<Addr, Item>) {
    exists i | 0 <= i < |chain| :: Fields(mem, chain[i]).valid && Fields(mem, chain[i]).ttd == 0
  }

  ghost predicate Watermark(s: State) {
    || s.lookup.Exited?
    || (PhaseOf(s.lookup).Elsewhere? && ZeroStamped(s.history.chain, s.mem))
    || Bounds(PhaseOf(s.lookup), s.history.chain, s.mem, s.history.rest, s.expiry)
  }

  /** Between a walk and the test for a purge first_to_expire may be in the past; elsewhere it is not. */
  ghost predicate NotPast(s: State) {
    s.lookup.Walk? || s.lookup.DropBody? || s.lookup.PurgeTest? || s.expiry >= 0
  }

  // ----- what the purge leaves

  ghost function Survivors(b: seq<Stamped>, now: int): (r: seq<Addr>)
    ensures forall x | x in r :: exists i | 0 <= i < |b| :: b[i].a == x && b[i].ttd > now
  {
    if b == [] then []
    else Survivors(b[..|b| - 1], now) + if b[|b| - 1].ttd > now then [b[|b| - 1].a] else []
  }

  ghost function EarliestOf(b: seq<Stamped>, now: int): int
  {
    if b == [] then 0
    else
      var e := EarliestOf(b[..|b| - 1], now);
      if b[|b| - 1].ttd > now then Earliest(e, b[|b| - 1].ttd) else e
  }

  /** From position k of the list and p of the record on, the purge has not touched anything. */
  ghost predicate TailUntouched(chain: seq<Addr>, mem: map<Addr, Item>, b: seq<Stamped>, k: int, p: int) {
    && 0 <= k && 0 <= p && |chain| - k == |b| - p
    && forall j | p <= j < |b| :: b[j].a == chain[k + j - p] && Fields(mem, b[j].a).ttd == b[j].ttd
  }

  ghost predicate Shape(phase: Phase, chain: seq<Addr>, mem: map<Addr, Item>, b: seq<Stamped>, rest: int,
                        now: int, expiry: int)
  {
    match phase
    case Clearing => now >= 0 && expiry == 0
    case Purging =>
      && now >= 0
      && 0 <= rest <= |chain| && rest <= |b|
      && chain[..|chain| - rest] == Survivors(b[..|b| - rest], now)
      && expiry == EarliestOf(b[..|b| - rest], now)
      && TailUntouched(chain, mem, b, |chain| - rest, |b| - rest)
    case Purged => chain == Survivors(b, now) && expiry == EarliestOf(b, now) && now >= 0
    case Elsewhere => true
  }

  ghost predicate PurgeShape(s: State) {
    Shape(PhaseOf(s.lookup), s.history.chain, s.mem, s.history.before, s.history.rest, s.now, s.expiry)
  }

  ghost predicate Inv(s: State) {
    && LocksAgree(s)
    && Linked(s)
    && Owned(s)
    && ExitSeen(s)
    && Cursor(s)
    && StartKnown(s)
    && SleepJustified(s)
    && Watermark(s)
    && NotPast(s)
    && PurgeShape(s)
  }

  lemma InitialInv()
    ensures Inv(INITIAL)
  {
  }
}
