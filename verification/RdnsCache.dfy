/**
 The reverse-DNS cache of src/rdns_cache.c as a state machine: one lookup thread, any
 number of adders and the thread that destroys the cache, interleaved at every lock
 operation and every loop iteration.

 Node addresses come from an allocator that may hand out a freed address again.
 */
module RdnsCache {
  import opened Seqs

  type Addr = nat

  datatype Ptr = Null | At(a: Addr)

  /** The fields of rdns_list_t the list code uses.  ttd is garbage until the node is resolved. */
  datatype Item = Item(next: Ptr, ttd: int, valid: bool)

  datatype Thread = Lookup | Adder(id: nat) | Destroyer

  datatype Holder = Nobody | Held(owner: Thread)

  datatype Lock = Mutex | Head | Body

  /** A lock word; rdns_mutex is a lock nobody asks to read. */
  datatype LockWord = LockWord(writer: Holder, readers: set<Thread>)

  datatype Locks = Locks(mutex: LockWord, head: LockWord, body: LockWord)

  /** Where the lookup thread is, by the line it is about to execute. */
  datatype LookupPc =
    | Start                           // 139: block signals
    | Top                             // 143: read rdns_terminate
    | WantMutex                       // 145
    | WantHeadToCompare               // 146
    | Compare                         // 148
    | DropHeadBusy                    // 150: the list has a new head
    | DropHeadIdle                    // 154: nothing new
    | ChooseWait                      // 157: the sleep decision
    | Waiting(timed: bool)            // 159/165: blocked, mutex released
    | Woken                           // 159/165: has to take the mutex again
    | DropMutex                       // 170
    | WantHeadToWalk                  // 173
    | Snapshot                        // 174-175
    | WantBody                        // 178
    | DropHeadToWalk                  // 180
    | Walk(item: Ptr)                 // 182-223
    | DropBody                        // 225
    | PurgeTest                       // 227-232
    | WantHeadToPurge                 // 234
    | WantBodyToPurge                 // 236-239
    | Purge(prev: Ptr, cur: Ptr)      // 241-267
    | DropBodyPurged                  // 269
    | DropHeadPurged                  // 271
    | Exiting                         // 276
    | Exited

  datatype AdderPc =
    | Idle                            // outside add_to_list
    | AWantMutex(n: Addr)             // 109: node allocated and filled in
    | AWantHead(n: Addr)              // 110
    | ALink(n: Addr)                  // 111-112
    | ADropHead(n: Addr)              // 115
    | ASignal(n: Addr)                // 116
    | ADropMutex(n: Addr)             // 117
    | AReturn(n: Addr)                // 119: reads newitem->host_name

  datatype DestroyerPc =
    | DIdle
    | DWantMutex                      // 287
    | DTerminate                      // 288
    | DBroadcast                      // 289
    | DDropMutex                      // 290
    | DSpin                           // 294
    | DWantHead                       // 296
    | DWantBody                       // 297
    | DFree                           // 299-306
    | DDropBody                       // 308
    | DDropHead                       // 309
    | DDone

  /** A list entry as the purge found it. */
  datatype Stamped = Stamped(a: Addr, ttd: int)

  datatype State = State(
    locks: Locks,
    // shared memory
    terminate: int,
    hostlist: Ptr,
    mem: map<Addr, Item>,             // the allocated nodes
    ttl: int,                         // rdns_default_ttl
    // the threads
    lookup: LookupPc,
    lastStart: Ptr,                   // last_start
    expiry: int,                      // first_to_expire
    now: int,
    adders: map<nat, AdderPc>,
    destroyer: DestroyerPc,
    history: History)

  /** What has happened; no thread's choice depends on it. */
  datatype History = History(
    chain: seq<Addr>,                 // the nodes the links spell out
    rest: int,                        // how many of them the walk or purge has yet to look at
    before: seq<Stamped>,             // the list as the latest purge found it
    reused: bool,                     // last_start's address has been allocated again
    mallocs: nat,
    frees: nat)

  /** What the outside world decides: clock readings, whether signals could be blocked. */
  datatype Env = Env(t: int, now: int, ok: bool)

  datatype Action =
    | LookupStep(env: Env)
    | AdderStep(i: nat, n: Addr, garbage: int)
    | DestroyerStep
    | SetTtl(v: int)

  const FREE := LockWord(Nobody, {})

  const INITIAL := State(Locks(FREE, FREE, FREE), 0, Null, map[], 300, Start, Null, 0, 0, map[], DIdle,
                         History([], 0, [], false, 0, 0))

  function PcOf(s: State, i: nat): AdderPc {
    if i in s.adders then s.adders[i] else Idle
  }

  /** A read through a pointer; reads of unallocated memory are ruled out by AccessesAreLive. */
  function Deref(s: State, a: Addr): Item {
    if a in s.mem then s.mem[a] else Item(Null, 0, false)
  }

  // ----- lock operations

  datatype LockOp = Nothing | Take(lock: Lock, exclusive: bool) | Drop(lock: Lock)

  function Word(ls: Locks, l: Lock): LockWord {
    match l case Mutex => ls.mutex case Head => ls.head case Body => ls.body
  }

  function WithWord(ls: Locks, l: Lock, w: LockWord): Locks {
    match l case Mutex => ls.(mutex := w) case Head => ls.(head := w) case Body => ls.(body := w)
  }

  predicate CanDo(ls: Locks, op: LockOp) {
    op.Take? ==> Word(ls, op.lock).writer == Nobody && (op.exclusive ==> Word(ls, op.lock).readers == {})
  }

  function Do(ls: Locks, t: Thread, op: LockOp): Locks {
    match op
    case Nothing => ls
    case Take(l, exclusive) =>
      var w := Word(ls, l);
      WithWord(ls, l, if exclusive then w.(writer := Held(t)) else w.(readers := w.readers + {t}))
    case Drop(l) =>
      var w := Word(ls, l);
      WithWord(ls, l, if w.writer == Held(t) then w.(writer := Nobody) else w.(readers := w.readers - {t}))
  }

  // ----- the lookup thread

  function LookupOp(pc: LookupPc): LockOp {
    match pc
    case WantMutex => Take(Mutex, true)
    case WantHeadToCompare => Take(Head, false)
    case DropHeadBusy => Drop(Head)
    case DropHeadIdle => Drop(Head)
    case ChooseWait => Drop(Mutex)             // pthread_cond_wait
    case Woken => Take(Mutex, true)
    case DropMutex => Drop(Mutex)
    case WantHeadToWalk => Take(Head, false)
    case WantBody => Take(Body, false)
    case DropHeadToWalk => Drop(Head)
    case DropBody => Drop(Body)
    case WantHeadToPurge => Take(Head, true)
    case WantBodyToPurge => Take(Body, true)
    case DropBodyPurged => Drop(Body)
    case DropHeadPurged => Drop(Head)
    case _ => Nothing
  }

  predicate LookupEnabled(s: State, e: Env) {
    && CanDo(s.locks, LookupOp(s.lookup))
    && s.lookup != Exited
    && (s.lookup == PurgeTest ==> e.t >= 0 && e.now >= 0)   // time(NULL)
    && (s.lookup.Walk? ==> e.t >= 0)
  }

  function LookupGoto(s: State, e: Env): LookupPc {
    match s.lookup
    case Start => Top
    case Top => if s.terminate == 0 then WantMutex else Exiting
    case WantMutex => WantHeadToCompare
    case WantHeadToCompare => Compare
    case Compare => if s.hostlist != s.lastStart then DropHeadBusy else DropHeadIdle
    case DropHeadBusy => DropMutex
    case DropHeadIdle => ChooseWait
    case ChooseWait => Waiting(s.expiry != 0)
    case Waiting(_) => Woken                   // time-out or spurious wake-up
    case Woken => DropMutex
    case DropMutex => WantHeadToWalk
    case WantHeadToWalk => Snapshot
    case Snapshot => WantBody
    case WantBody => DropHeadToWalk
    case DropHeadToWalk => Walk(s.lastStart)
    case Walk(item) => if item == Null then DropBody else Walk(Deref(s, item.a).next)
    case DropBody => PurgeTest
    case PurgeTest => if s.expiry <= e.t then WantHeadToPurge else Top
    case WantHeadToPurge => WantBodyToPurge
    case WantBodyToPurge => Purge(Null, s.hostlist)
    case Purge(prev, cur) =>
      if cur == Null then DropBodyPurged
      else Purge(if Deref(s, cur.a).ttd <= s.now then prev else cur, Deref(s, cur.a).next)
    case DropBodyPurged => DropHeadPurged
    case DropHeadPurged => Top
    case Exiting => Exited
    case Exited => Exited
  }

  function LookupEffect(s: State, e: Env): State {
    match s.lookup
    case Start => s.(terminate := if e.ok then s.terminate else 1)
    case Snapshot => s.(lastStart := s.hostlist, history := s.history.(reused := false))
    case DropHeadToWalk => s.(history := s.history.(rest := |s.history.chain|))
    case Walk(item) => if item == Null then s else WalkEffect(s, item.a, e.t)
    case PurgeTest => if s.expiry <= e.t then s.(now := e.now, expiry := 0) else s
    case WantBodyToPurge =>
      s.(history := s.history.(rest := |s.history.chain|, before := Stamps(s.history.chain, s.mem)))
    case Purge(prev, cur) => if cur == Null then s else PurgeEffect(s, prev, cur.a)
    case Exiting => s.(terminate := 2)
    case _ => s
  }

  function LookupNext(s: State, e: Env): State {
    LookupEffect(s, e).(lookup := LookupGoto(s, e), locks := Do(s.locks, Lookup, LookupOp(s.lookup)))
  }

  /** One round of the resolve walk (182-223). */
  function WalkEffect(s: State, a: Addr, t: int): State {
    var item := Deref(s, a);
    var h := s.history.(rest := s.history.rest - 1);
    if item.valid then s.(history := h)
    else
      var ttd := t + s.ttl;
      s.(mem := s.mem[a := item.(ttd := ttd, valid := true)],
         expiry := Earliest(s.expiry, ttd),
         history := h)
  }

  /** One round of the purge (241-267): unlink and free, or keep and fold into the earliest expiry. */
  function PurgeEffect(s: State, prev: Ptr, a: Addr): State {
    var item := Deref(s, a);
    var h := s.history;
    if item.ttd <= s.now then
      var freed := h.(chain := Dropped(h.chain, h.rest), rest := h.rest - 1, frees := h.frees + 1);
      if prev == Null then s.(hostlist := item.next, mem := s.mem - {a}, history := freed)
      else s.(mem := s.mem[prev.a := Deref(s, prev.a).(next := item.next)] - {a}, history := freed)
    else
      s.(expiry := Earliest(s.expiry, item.ttd), history := h.(rest := h.rest - 1))
  }

  function Earliest(expiry: int, ttd: int): int {
    if expiry == 0 || ttd < expiry then ttd else expiry
  }

  /** chain without the element that has rest elements from it on */
  function Dropped(chain: seq<Addr>, rest: int): seq<Addr> {
    if 0 < rest <= |chain| then Cut(chain, |chain| - rest, |chain| - rest + 1) else chain
  }

  function Stamps(chain: seq<Addr>, mem: map<Addr, Item>): (r: seq<Stamped>)
    ensures |r| == |chain|
    ensures forall i | 0 <= i < |chain| :: r[i].a == chain[i] && (chain[i] in mem ==> r[i].ttd == mem[chain[i]].ttd)
  {
    seq(|chain|, i requires 0 <= i < |chain| =>
      Stamped(chain[i], if chain[i] in mem then mem[chain[i]].ttd else 0))
  }

  // ----- add_to_list

  function AdderOp(pc: AdderPc): LockOp {
    match pc
    case AWantMutex(_) => Take(Mutex, true)
    case AWantHead(_) => Take(Head, true)
    case ADropHead(_) => Drop(Head)
    case ADropMutex(_) => Drop(Mutex)
    case _ => Nothing
  }

  predicate AdderEnabled(s: State, i: nat, n: Addr) {
    CanDo(s.locks, AdderOp(PcOf(s, i))) && (PcOf(s, i) == Idle ==> n !in s.mem)
  }

  function AdderGoto(pc: AdderPc, n: Addr): AdderPc {
    match pc
    case Idle => AWantMutex(n)
    case AWantMutex(m) => AWantHead(m)
    case AWantHead(m) => ALink(m)
    case ALink(m) => ADropHead(m)
    case ADropHead(m) => ASignal(m)
    case ASignal(m) => ADropMutex(m)
    case ADropMutex(m) => AReturn(m)
    case AReturn(_) => Idle
  }

  function AdderEffect(s: State, pc: AdderPc, n: Addr, garbage: int): State {
    match pc
    case Idle =>
      s.(mem := s.mem[n := Item(Null, garbage, false)],
         history := s.history.(mallocs := s.history.mallocs + 1,
                               reused := s.history.reused || s.lastStart == At(n)))
    case ALink(m) =>
      s.(mem := s.mem[m := Deref(s, m).(next := s.hostlist)], hostlist := At(m),
         history := s.history.(chain := [m] + s.history.chain))
    case ASignal(_) => s.(lookup := Wake(s.lookup))
    case _ => s
  }

  function AdderNext(s: State, i: nat, n: Addr, garbage: int): State {
    AdderEffect(s, PcOf(s, i), n, garbage).(
      adders := s.adders[i := AdderGoto(PcOf(s, i), n)],
      locks := Do(s.locks, Adder(i), AdderOp(PcOf(s, i))))
  }

  /** pthread_cond_signal and broadcast: the lookup thread is the only one that ever waits. */
  function Wake(pc: LookupPc): LookupPc {
    if pc.Waiting? then Woken else pc
  }

  // ----- rdns_cache_destroy

  function DestroyerOp(pc: DestroyerPc): LockOp {
    match pc
    case DWantMutex => Take(Mutex, true)
    case DDropMutex => Drop(Mutex)
    case DWantHead => Take(Head, true)
    case DWantBody => Take(Body, true)
    case DDropBody => Drop(Body)
    case DDropHead => Drop(Head)
    case _ => Nothing
  }

  predicate DestroyerEnabled(s: State) {
    && CanDo(s.locks, DestroyerOp(s.destroyer))
    && s.destroyer != DDone
    && (s.destroyer == DSpin ==> s.terminate == 2)
  }

  function DestroyerGoto(s: State): DestroyerPc {
    match s.destroyer
    case DIdle => DWantMutex
    case DWantMutex => DTerminate
    case DTerminate => DBroadcast
    case DBroadcast => DDropMutex
    case DDropMutex => DSpin
    case DSpin => DWantHead
    case DWantHead => DWantBody
    case DWantBody => DFree
    case DFree => if s.hostlist == Null then DDropBody else DFree
    case DDropBody => DDropHead
    case DDropHead => DDone
    case DDone => DDone
  }

  function DestroyerEffect(s: State): State {
    match s.destroyer
    case DTerminate => s.(terminate := 1)
    case DBroadcast => s.(lookup := Wake(s.lookup))
    case DFree =>
      if s.hostlist == Null then s
      else s.(hostlist := Deref(s, s.hostlist.a).next, mem := s.mem - {s.hostlist.a},
              history := s.history.(frees := s.history.frees + 1,
                                    chain := Dropped(s.history.chain, |s.history.chain|)))
    case _ => s
  }

  function DestroyerNext(s: State): State {
    DestroyerEffect(s).(destroyer := DestroyerGoto(s),
                        locks := Do(s.locks, Destroyer, DestroyerOp(s.destroyer)))
  }

  // ----- steps and runs

  predicate Enabled(s: State, a: Action) {
    match a
    case LookupStep(e) => LookupEnabled(s, e)
    case AdderStep(i, n, _) => AdderEnabled(s, i, n)
    case DestroyerStep => DestroyerEnabled(s)
    case SetTtl(_) => true
  }

  function Next(s: State, a: Action): State {
    match a
    case LookupStep(e) => LookupNext(s, e)
    case AdderStep(i, n, garbage) => AdderNext(s, i, n, garbage)
    case DestroyerStep => DestroyerNext(s)
    case SetTtl(v) => s.(ttl := v)
  }

  /** run is a schedule the threads can follow from s. */
  predicate Possible(s: State, run: seq<Action>)
    decreases |run|
  {
    run == [] || (Enabled(s, run[0]) && Possible(Next(s, run[0]), run[1..]))
  }

  function After(s: State, run: seq<Action>): State
    decreases |run|
  {
    if run == [] then s else After(Next(s, run[0]), run[1..])
  }

  ghost predicate Reachable(s: State) {
    exists run: seq<Action> :: Possible(INITIAL, run) && After(INITIAL, run) == s
  }
}
