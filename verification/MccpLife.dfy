/**
 The whole life of a connection: compression is switched on and off any number of times between
 plain and compressed texts, and the game does not look at what compressEnd answers.
 */
module MccpLife {
  import opened Seqs
  import opened Mccp

  datatype Command = Start(v2: bool, initOk: bool) | Send(txt: seq<Byte>) | Retry | End

  /** What a stretch of the connection is: an announcement, a plain text, or a stream with the texts it has been
      given and the calls of deflate it took. */
  datatype Kind = Header(v2: bool) | Plain(txt: seq<Byte>) | Stream(texts: seq<Byte>, calls: seq<Call>)

  /** A stretch and what has been sent of it. */
  datatype Segment = Segment(kind: Kind, bytes: seq<Byte>)

  /** The connection so far, and whether its last stretch is a running stream. */
  datatype State = State(log: seq<Segment>, on: bool)

  function Bytes(log: seq<Segment>): seq<Byte> {
    if log == [] then [] else Bytes(log[..|log| - 1]) + log[|log| - 1].bytes
  }

  function Carried(kind: Kind): seq<Byte> {
    match kind
    case Header(_) => []
    case Plain(txt) => txt
    case Stream(texts, _) => texts
  }

  function Payload(log: seq<Segment>): seq<Byte> {
    if log == [] then [] else Payload(log[..|log| - 1]) + Carried(log[|log| - 1].kind)
  }

  function Texts(cmds: seq<Command>): seq<Byte> {
    if cmds == [] then []
    else
      var last := cmds[|cmds| - 1];
      Texts(cmds[..|cmds| - 1]) + if last.Send? then last.txt else []
  }

  // ----- what is sent of a stretch

  /** Of an announcement a part may be missing at the end, of a text nothing, of a stream what the buffer
      still holds or held when it was dropped. */
  ghost predicate Sound(codec: Codec, g: Segment) {
    match g.kind
    case Header(v2) => g.bytes <= HeaderOf(v2)
    case Plain(txt) => g.bytes == txt
    case Stream(texts, calls) => g.bytes <= Emitted(codec, calls) && Consumed(codec, calls) == texts
  }

  ghost predicate AllSound(codec: Codec, log: seq<Segment>) {
    forall i | 0 <= i < |log| :: Sound(codec, log[i])
  }

  /** A stream whose last call has left nothing inside deflate, and of which nothing is left to send. */
  predicate Whole(codec: Codec, g: Segment) {
    g.kind.Stream? && g.kind.calls != [] && Flushed(codec, g.kind.calls) && g.bytes == Emitted(codec, g.kind.calls)
  }

  /** What the peer inflates of a stream is a prefix of its texts, and all of them if it is whole. */
  ghost predicate Decodes(codec: Codec, inflate: Inflate, g: Segment) {
    g.kind.Stream? ==>
      inflate(g.bytes) <= g.kind.texts && (Whole(codec, g) ==> inflate(g.bytes) == g.kind.texts)
  }

  lemma SoundDecodes(codec: Codec, inflate: Inflate, g: Segment)
    requires Lossless(codec, inflate) && Sound(codec, g)
    ensures Decodes(codec, inflate, g)
  {
    if g.kind.Stream? {
      var all := Emitted(codec, g.kind.calls);
      PeerReads(codec, inflate, g.kind.calls, g.bytes, all);
      if Whole(codec, g) { PeerSeesAll(codec, inflate, g.kind.calls, g.bytes); }
    }
  }

  lemma PeerReads(codec: Codec, inflate: Inflate, calls: seq<Call>, bytes: seq<Byte>, all: seq<Byte>)
    requires Lossless(codec, inflate) && all == Emitted(codec, calls) && bytes <= all
    ensures inflate(bytes) <= Consumed(codec, calls)
  {
    assert all == bytes + all[|bytes|..];
    PeerSeesPrefix(codec, inflate, calls, bytes, all[|bytes|..]);
  }

  // ----- what the commands do to the connection

  function Last(log: seq<Segment>): Segment
    requires log != []
  {
    log[|log| - 1]
  }

  /** The last stretch is now of that kind, and more of it has been sent. */
  predicate Grows(log: seq<Segment>, r: seq<Segment>, kind: Kind) {
    && log != [] && |r| == |log| && r[..|log| - 1] == log[..|log| - 1]
    && Last(r).kind == kind && Last(log).bytes <= Last(r).bytes
  }

  predicate Opens(log: seq<Segment>, v2: bool, r: seq<Segment>) {
    && |r| == |log| + 2 && r[..|log|] == log
    && r[|log|].kind == Header(v2) && r[|log| + 1] == Segment(Stream([], []), [])
  }

  predicate InStream(log: seq<Segment>) { log != [] && Last(log).kind.Stream? }

  /** The running stream has been given a text, and deflate the calls that take it. */
  ghost predicate Lengthens(codec: Codec, size: nat, log: seq<Segment>, txt: seq<Byte>, r: seq<Segment>)
    requires Bounded(codec)
  {
    && InStream(log) && InStream(r)
    && Grows(log, r, Stream(Last(log).kind.texts + txt, Last(r).kind.calls))
    && Rounds(codec, size, Last(log).kind.calls, txt, Last(r).kind.calls, [])
  }

  /** The running stream has had a call of deflate to finish it, successful if ok says so; if no write has
      failed, ok says no more than that. */
  ghost predicate Finishes(codec: Codec, size: nat, clean: bool, log: seq<Segment>, ok: bool, r: seq<Segment>) {
    && InStream(log) && InStream(r)
    && Grows(log, r, Stream(Last(log).kind.texts, Last(r).kind.calls))
    && FinishCall(codec, size, clean, Last(log).kind.calls, ok, Last(r).kind.calls)
  }

  predicate FinishCall(codec: Codec, size: nat, clean: bool, h: seq<Call>, ok: bool, t: seq<Call>) {
    && |t| == |h| + 1 && t[..|h|] == h
    && t[|h|].flush == Finish && t[|h|].input == [] && t[|h|].room <= size
    && (ok ==> codec(t).status == StreamEnd) && (clean && codec(t).status == StreamEnd ==> ok)
  }

  /** The command, answered with ok, takes the connection from s to t. */
  ghost predicate StepTo(codec: Codec, size: nat, clean: bool, s: State, c: Command, ok: bool, t: State)
    requires Bounded(codec)
  {
    match c
    case Start(v2, initOk) =>
      ok == (s.on || initOk) && if s.on || !initOk then t == s else t.on && Opens(s.log, v2, t.log)
    case Send(txt) =>
      ok && t.on == s.on &&
      if s.on then Lengthens(codec, size, s.log, txt, t.log) else t.log == s.log + [Segment(Plain(txt), txt)]
    case Retry =>
      ok && t.on == s.on && if s.on then InStream(s.log) && Grows(s.log, t.log, Last(s.log).kind) else t.log == s.log
    case End =>
      if s.on then t.on == !ok && Finishes(codec, size, clean, s.log, ok, t.log) else ok && t == s
  }

  ghost predicate StepAt(codec: Codec, size: nat, clean: bool, cmds: seq<Command>, answers: seq<bool>,
                         states: seq<State>, i: nat)
    requires Bounded(codec) && i < |cmds| && |states| == |cmds| + 1 && |answers| == |cmds|
  {
    StepTo(codec, size, clean, states[i], cmds[i], answers[i], states[i + 1])
  }

  /** The states of a run, from an unused connection on. */
  ghost predicate Follows(codec: Codec, size: nat, clean: bool, cmds: seq<Command>, answers: seq<bool>,
                          states: seq<State>)
    requires Bounded(codec)
  {
    && |states| == |cmds| + 1 && |answers| == |cmds| && states[0] == State([], false)
    && (forall i | 0 <= i < |cmds| :: StepAt(codec, size, clean, cmds, answers, states, i))
    && forall i | 0 <= i < |states| :: AllSound(codec, states[i].log)
  }

  lemma {:induction false} AddedSegment(log: seq<Segment>, g: Segment)
    ensures Bytes(log + [g]) == Bytes(log) + g.bytes && Payload(log + [g]) == Payload(log) + Carried(g.kind)
  {
    assert (log + [g])[..|log|] == log;
  }

  lemma GrownPayload(log: seq<Segment>, r: seq<Segment>, kind: Kind, txt: seq<Byte>)
    requires Grows(log, r, kind) && Carried(kind) == Carried(Last(log).kind) + txt
    ensures Payload(r) == Payload(log) + txt
  {
    var init := log[..|log| - 1];
    Associate(Payload(init), Carried(Last(log).kind), txt);
  }

  lemma StepCarries(codec: Codec, size: nat, clean: bool, s: State, c: Command, ok: bool, t: State)
    requires Bounded(codec) && StepTo(codec, size, clean, s, c, ok, t)
    ensures Payload(t.log) == Payload(s.log) + if c.Send? then c.txt else []
  {
    Nothing(Payload(s.log));
    match c
    case Start(v2, initOk) => if !s.on && initOk { OpensCarries(s.log, v2, t.log); }
    case Send(txt) =>
      if s.on {
        GrownPayload(s.log, t.log, Last(t.log).kind, txt);
      } else {
        AddedSegment(s.log, Segment(Plain(txt), txt));
      }
    case Retry => if s.on { SameTexts(s.log, t.log); }
    case End => if s.on { SameTexts(s.log, t.log); }
  }

  lemma OpensCarries(log: seq<Segment>, v2: bool, r: seq<Segment>)
    requires Opens(log, v2, r)
    ensures Payload(r) == Payload(log)
  {
    var header, stream := r[|log|], r[|log| + 1];
    TwoAdded(log, header, stream);
    Nothing(Payload(log));
    assert r == log + [header, stream];
  }

  lemma TwoAdded(log: seq<Segment>, g: Segment, h: Segment)
    requires h == Segment(Stream([], []), [])
    ensures Bytes(log + [g, h]) == Bytes(log) + g.bytes
    ensures Payload(log + [g, h]) == Payload(log) + Carried(g.kind)
  {
    AddedSegment(log, g);
    AddedSegment(log + [g], h);
    Nothing(Bytes(log + [g]));
    Nothing(Payload(log + [g]));
    assert log + [g, h] == log + [g] + [h];
  }

  lemma SameTexts(log: seq<Segment>, r: seq<Segment>)
    requires InStream(log) && InStream(r) && Grows(log, r, Last(r).kind) && Last(r).kind.texts == Last(log).kind.texts
    ensures Payload(r) == Payload(log)
  {
    Nothing(Last(log).kind.texts);
    GrownPayload(log, r, Last(r).kind, []);
    Nothing(Payload(log));
  }

  lemma Nothing(s: seq<Byte>)
    ensures s + [] == s
  {
  }

  lemma OneMoreText(cmds: seq<Command>, i: nat)
    requires i < |cmds|
    ensures Texts(cmds[..i + 1]) == Texts(cmds[..i]) + if cmds[i].Send? then cmds[i].txt else []
  {
    assert cmds[..i + 1][..i] == cmds[..i];
  }

  lemma StepOf(codec: Codec, size: nat, clean: bool, cmds: seq<Command>, answers: seq<bool>, states: seq<State>,
               i: nat)
    requires Bounded(codec) && Follows(codec, size, clean, cmds, answers, states) && i < |cmds|
    ensures StepTo(codec, size, clean, states[i], cmds[i], answers[i], states[i + 1])
  {
    assert StepAt(codec, size, clean, cmds, answers, states, i);
  }

  /** The stretches of a run carry exactly the texts given, in order, at every moment of it. */
  lemma {:induction false} RunCarries(codec: Codec, size: nat, clean: bool, cmds: seq<Command>, answers: seq<bool>,
                                      states: seq<State>, n: nat)
    requires Bounded(codec) && Follows(codec, size, clean, cmds, answers, states) && n <= |cmds|
    ensures Payload(states[n].log) == Texts(cmds[..n])
  {
    if n > 0 {
      RunCarries(codec, size, clean, cmds, answers, states, n - 1);
      StepOf(codec, size, clean, cmds, answers, states, n - 1);
      StepCarries(codec, size, clean, states[n - 1], cmds[n - 1], answers[n - 1], states[n]);
      OneMoreText(cmds, n - 1);
    }
  }

  // ----- the commands

  /** The state is what has been sent, and its last stretch the running stream. */
  ghost predicate Written(d: Descriptor, s: State)
    reads d, d.socket
  {
    && d.socket.sent == Bytes(s.log) && d.compressing == s.on
    && (s.on ==>
          d.base <= |d.socket.sent| && s.log != [] && Last(s.log) == Segment(Stream(d.texts, d.calls), d.Wire()))
  }

  /** Some write has returned an error. */
  ghost predicate ErredSince(s: Socket, start: nat)
    reads s
  {
    exists i | start <= i < s.calls :: s.accepts(i) < 0
  }

  /** write_to_descriptor_2: every error ends it, and fuel bounds the writes that take nothing. */
  method SendPlain(s: Socket, txt: seq<Byte>, fuel: nat) returns (out: Outcome)
    modifies s
    ensures old(s.calls) <= s.calls && old(s.sent) <= s.sent
    ensures out == Done ==> s.sent == old(s.sent) + txt
    ensures out == Failed ==> ErredSince(s, old(s.calls))
    ensures out == Spinning ==> s.StalledSince(old(s.calls))
  {
    var iStart, n := 0, 0;
    while iStart < |txt|
      invariant iStart <= |txt| && n <= fuel
      invariant old(s.calls) <= s.calls && s.sent == old(s.sent) + txt[..iStart]
      decreases |txt| - iStart, fuel - n
    {
      var nBlock := Min(|txt| - iStart, 4096);
      var nWrite, eagain := s.Write(txt[iStart..iStart + nBlock]);
      if nWrite < 0 {
        assert s.accepts(s.calls - 1) < 0;
        return Failed;
      }
      if nWrite == 0 {
        assert s.accepts(s.calls - 1) <= 0;
        if n == fuel { return Spinning; }
        n := n + 1;
      }
      assert txt[iStart..iStart + nBlock][..nWrite] == txt[iStart..iStart + nWrite];
      assert txt[..iStart] + txt[iStart..iStart + nWrite] == txt[..iStart + nWrite];
      iStart := iStart + nWrite;
    }
    return Done;
  }

  /** The last stretch, which began at base, with all that has been sent by now. */
  lemma Regrown(log: seq<Segment>, now: seq<Byte>, base: nat, kind: Kind) returns (r: seq<Segment>)
    requires log != [] && base <= |Bytes(log)| && Last(log).bytes == Bytes(log)[base..] && Bytes(log) <= now
    ensures r == log[..|log| - 1] + [Segment(kind, now[base..])]
    ensures Bytes(r) == now && Grows(log, r, kind)
  {
    var init := log[..|log| - 1];
    r := init + [Segment(kind, now[base..])];
    AddedSegment(init, Segment(kind, now[base..]));
    assert |Bytes(init)| == base;
    assert Bytes(init) == Bytes(log)[..base] == now[..base];
  }

  /** The running stream as it is now. */
  lemma StreamNow(d: Descriptor, log: seq<Segment>, texts: seq<Byte>, calls: seq<Call>) returns (r: seq<Segment>)
    requires d.Valid()
    requires d.compressing && AllSound(d.codec, log) && log != [] && d.base <= |Bytes(log)|
    requires Last(log) == Segment(Stream(texts, calls), Bytes(log)[d.base..]) && Bytes(log) <= d.socket.sent
    ensures Written(d, State(r, true))
    ensures AllSound(d.codec, r)
    ensures Grows(log, r, Stream(d.texts, d.calls)) && InStream(log) && InStream(r)
  {
    r := Regrown(log, d.socket.sent, d.base, Stream(d.texts, d.calls));
    d.PipeIsWhole();
  }

  /** A stream that has been ended, and what the buffer still held. */
  lemma StreamEnded(d: Descriptor, log: seq<Segment>, texts: seq<Byte>, calls: seq<Call>, residue: seq<Byte>)
    returns (r: seq<Segment>)
    requires !d.compressing && AllSound(d.codec, log) && log != [] && d.base <= |Bytes(log)|
    requires Last(log) == Segment(Stream(texts, calls), Bytes(log)[d.base..]) && Bytes(log) <= d.socket.sent
    requires d.calls != [] && Flushed(d.codec, d.calls)
    requires Emitted(d.codec, d.calls) == d.Wire() + residue && Consumed(d.codec, d.calls) == d.texts
    ensures Written(d, State(r, false))
    ensures AllSound(d.codec, r)
    ensures Grows(log, r, Stream(d.texts, d.calls)) && InStream(log) && InStream(r)
    ensures Whole(d.codec, Last(r)) <==> residue == []
  {
    r := Regrown(log, d.socket.sent, d.base, Stream(d.texts, d.calls));
    if residue == [] { Nothing(d.Wire()); }
  }

  method DoStart(d: Descriptor, v2: bool, initOk: bool, ghost s: State) returns (ok: bool, ghost t: State)
    requires d.Valid()
    requires Written(d, s)
    requires AllSound(d.codec, s.log)
    modifies d, d.socket
    ensures d.Valid()
    ensures Written(d, t)
    ensures AllSound(d.codec, t.log)
    ensures StepTo(d.codec, d.size, true, s, Start(v2, initOk), ok, t)
    ensures (d.buf == old(d.buf) || fresh(d.buf)) && old(d.socket.calls) <= d.socket.calls
    ensures old(d.socket.sent) <= d.socket.sent
  {
    ok := d.CompressStart(v2, initOk);
    t := s;
    if ok && !s.on { t := Opened(d.codec, s.log, v2, d.socket.sent); }
  }

  lemma Opened(codec: Codec, log: seq<Segment>, v2: bool, now: seq<Byte>) returns (t: State)
    requires Bytes(log) <= now && now[|Bytes(log)|..] <= HeaderOf(v2) && AllSound(codec, log)
    ensures t.on && Opens(log, v2, t.log) && AllSound(codec, t.log) && Bytes(t.log) == now
    ensures t.log != [] && Last(t.log) == Segment(Stream([], []), [])
  {
    var header, stream := Segment(Header(v2), now[|Bytes(log)|..]), Segment(Stream([], []), []);
    TwoAdded(log, header, stream);
    NothingIsSound(codec);
    t := State(log + [header, stream], true);
  }

  lemma NothingIsSound(codec: Codec)
    ensures Sound(codec, Segment(Stream([], []), []))
  {
    assert Emitted(codec, []) == [] && Consumed(codec, []) == [];
  }

  method DoSend(d: Descriptor, txt: seq<Byte>, fuel: nat, ghost s: State) returns (out: Outcome, ghost t: State)
    requires d.Valid()
    requires Written(d, s)
    requires AllSound(d.codec, s.log)
    modifies d, d.buf, d.socket
    ensures out == Done ==> d.Valid()
    ensures out == Done ==> Written(d, t)
    ensures out == Done ==> AllSound(d.codec, t.log)
    ensures out == Done ==> StepTo(d.codec, d.size, true, s, Send(txt), true, t)
    ensures out == Failed ==> ErredSince(d.socket, old(d.socket.calls)) || d.Refused()
    ensures out == Spinning ==> d.Stuck(fuel, |txt|, old(d.socket.calls), 0)
    ensures d.buf == old(d.buf) && old(d.socket.calls) <= d.socket.calls
    ensures old(d.socket.sent) <= d.socket.sent
  {
    t := s;
    ghost var texts, calls := d.texts, d.calls;
    if d.compressing {
      out := d.WriteCompressed(txt, fuel);
      if out == Done {
        ghost var r := StreamNow(d, s.log, texts, calls);
        t := State(r, true);
      }
    } else {
      out := SendPlain(d.socket, txt, fuel);
      if out == Done {
        t := State(s.log + [Segment(Plain(txt), txt)], false);
        AddedSegment(s.log, Segment(Plain(txt), txt));
      }
    }
  }

  method DoRetry(d: Descriptor, ghost s: State) returns (out: Outcome, ghost t: State)
    requires d.Valid()
    requires Written(d, s)
    requires AllSound(d.codec, s.log)
    modifies d, d.buf, d.socket
    ensures out == Done ==> d.Valid()
    ensures out == Done ==> Written(d, t)
    ensures out == Done ==> AllSound(d.codec, t.log)
    ensures out == Done ==> StepTo(d.codec, d.size, true, s, Retry, true, t)
    ensures out == Failed ==> ErredSince(d.socket, old(d.socket.calls))
    ensures d.buf == old(d.buf) && old(d.socket.calls) <= d.socket.calls && out != Spinning
    ensures old(d.socket.sent) <= d.socket.sent
  {
    t := s;
    ghost var texts, calls := d.texts, d.calls;
    var ok := d.ProcessCompressed();
    out := if ok then Done else Failed;
    if ok && d.compressing {
      ghost var r := StreamNow(d, s.log, texts, calls);
      t := State(r, true);
    }
  }

  /** The game does not look at what compressEnd answers.  The run is followed unless a write has failed behind
      bytes that went out, which then are still in the buffer and go out again. */
  method DoEnd(d: Descriptor, ghost s: State) returns (out: Outcome, ok: bool, ghost t: State)
    requires d.Valid()
    requires Written(d, s)
    requires AllSound(d.codec, s.log)
    modifies d, d.buf, d.socket
    ensures out == Done ==> d.Valid()
    ensures out == Done ==> Written(d, t)
    ensures out == Done ==> AllSound(d.codec, t.log)
    ensures out == Done ==>
      StepTo(d.codec, d.size, !d.socket.FailedSince(old(d.socket.calls)), s, End, ok, t)
    ensures out == Done && s.on && ok ==> t.log != [] && (Whole(d.codec, Last(t.log)) <==> d.nextOut == 0)
    ensures out == Failed ==> ErredSince(d.socket, old(d.socket.calls))
    ensures out == Failed ==> old(d.socket.sent) < d.socket.sent && d.compressing && !d.Valid()
    ensures d.buf == old(d.buf) && old(d.socket.calls) <= d.socket.calls && out != Spinning
    ensures old(d.socket.sent) <= d.socket.sent
  {
    t := s;
    if !d.compressing { return Done, true, s; }
    ghost var texts, calls := d.texts, d.calls;
    var before := |d.socket.sent|;
    ghost var residue;
    ok, residue := d.CompressEnd();
    if !ok && |d.socket.sent| != before { return Failed, false, s; }
    out := Done;
    ghost var r;
    if ok { r := StreamEnded(d, s.log, texts, calls, residue); } else { r := StreamNow(d, s.log, texts, calls); }
    t := State(r, !ok);
  }

  /** Why a command has not been carried out: an error of a write, a flush that deflate refused, or a wait
      longer than fuel allows. */
  ghost predicate Halted(d: Descriptor, c: Command, out: Outcome, fuel: nat, start: nat)
    reads d, d.socket
  {
    && (out == Failed ==> ErredSince(d.socket, start) || d.Refused())
    && (out == Spinning ==> c.Send? && d.Stuck(fuel, |c.txt|, start, 0))
  }

  lemma HaltedSince(d: Descriptor, c: Command, out: Outcome, fuel: nat, start: nat, earlier: nat)
    requires Halted(d, c, out, fuel, start) && earlier <= start
    ensures Halted(d, c, out, fuel, earlier)
  {
  }

  /** One command of the game loop or of the peer's negotiation. */
  method Perform(d: Descriptor, c: Command, fuel: nat, ghost s: State)
    returns (out: Outcome, ok: bool, ghost t: State)
    requires d.Valid()
    requires Written(d, s)
    requires AllSound(d.codec, s.log)
    modifies d, d.buf, d.socket
    ensures out == Done ==> d.Valid()
    ensures out == Done ==> Written(d, t)
    ensures out == Done ==> AllSound(d.codec, t.log)
    ensures out == Done ==>
      StepTo(d.codec, d.size, !d.socket.FailedSince(old(d.socket.calls)), s, c, ok, t)
    ensures out == Done && c.End? && s.on && ok ==>
      t.log != [] && (Whole(d.codec, Last(t.log)) <==> d.nextOut == 0)
    ensures Halted(d, c, out, fuel, old(d.socket.calls))
    ensures (d.buf == old(d.buf) || fresh(d.buf)) && old(d.socket.calls) <= d.socket.calls
    ensures old(d.socket.sent) <= d.socket.sent
  {
    ok := true;
    match c
    case Start(v2, initOk) =>
      ok, t := DoStart(d, v2, initOk, s);
      out := Done;
    case Send(txt) => out, t := DoSend(d, txt, fuel, s);
    case Retry => out, t := DoRetry(d, s);
    case End => out, ok, t := DoEnd(d, s);
  }

  lemma Weaker(codec: Codec, size: nat, clean: bool, s: State, c: Command, ok: bool, t: State, still: bool)
    requires Bounded(codec) && StepTo(codec, size, clean, s, c, ok, t) && (still ==> clean)
    ensures StepTo(codec, size, still, s, c, ok, t)
  {
  }

  lemma StepStays(codec: Codec, size: nat, clean: bool, cmds: seq<Command>, answers: seq<bool>, states: seq<State>,
                  c: Command, ok: bool, t: State, still: bool, i: nat)
    requires Bounded(codec) && |states| == |cmds| + 1 && |answers| == |cmds| && i < |cmds|
    requires StepAt(codec, size, clean, cmds, answers, states, i) && (still ==> clean)
    ensures StepAt(codec, size, still, cmds + [c], answers + [ok], states + [t], i)
  {
    Weaker(codec, size, clean, states[i], cmds[i], answers[i], states[i + 1], still);
  }

  /** One more command of a run; knowing less of the writes only says less. */
  lemma FollowsNext(codec: Codec, size: nat, clean: bool, cmds: seq<Command>, answers: seq<bool>, states: seq<State>,
                    c: Command, now: bool, ok: bool, t: State, still: bool)
    requires Bounded(codec) && Follows(codec, size, clean, cmds, answers, states)
    requires StepTo(codec, size, now, states[|cmds|], c, ok, t) && AllSound(codec, t.log)
    requires still ==> clean && now
    ensures Follows(codec, size, still, cmds + [c], answers + [ok], states + [t])
  {
    var cs, bs, ts, n := cmds + [c], answers + [ok], states + [t], |cmds|;
    forall i | 0 <= i < |cs|
      ensures StepAt(codec, size, still, cs, bs, ts, i)
    {
      if i < n {
        StepStays(codec, size, clean, cmds, answers, states, c, ok, t, still, i);
      } else {
        StepLast(codec, size, now, cmds, answers, states, c, ok, t, still);
      }
    }
  }

  lemma StepLast(codec: Codec, size: nat, clean: bool, cmds: seq<Command>, answers: seq<bool>, states: seq<State>,
                 c: Command, ok: bool, t: State, still: bool)
    requires Bounded(codec) && |states| == |cmds| + 1 && |answers| == |cmds|
    requires StepTo(codec, size, clean, states[|cmds|], c, ok, t) && (still ==> clean)
    ensures StepAt(codec, size, still, cmds + [c], answers + [ok], states + [t], |cmds|)
  {
    Weaker(codec, size, clean, states[|cmds|], c, ok, t, still);
  }

  /** The commands that have been carried out, their answers, and the states they have led through. */
  ghost predicate Lived(d: Descriptor, cmds: seq<Command>, answers: seq<bool>, states: seq<State>, start: nat)
    reads d, d.socket
  {
    Bounded(d.codec) && Follows(d.codec, d.size, !d.socket.FailedSince(start), cmds, answers, states)
  }

  /** Any run of starts, texts, retries and ends, carried out up to the first command that is halted. */
  method Run(d: Descriptor, cmds: seq<Command>, fuel: nat)
    returns (out: Outcome, answers: seq<bool>, ghost states: seq<State>)
    requires d.Valid()
    requires !d.compressing && d.socket.sent == []
    modifies d, d.buf, d.socket
    ensures |answers| <= |cmds| && (out == Done <==> |answers| == |cmds|)
    ensures Lived(d, cmds[..|answers|], answers, states, old(d.socket.calls))
    ensures Bytes(states[|answers|].log) <= d.socket.sent
    ensures out == Done ==> d.Valid()
    ensures out == Done ==> Written(d, states[|cmds|])
    ensures out != Done ==> Halted(d, cmds[|answers|], out, fuel, old(d.socket.calls))
  {
    answers, states := [], [State([], false)];
    ghost var start := d.socket.calls;
    for i := 0 to |cmds|
      invariant d.Valid()
      invariant |answers| == i
      invariant Lived(d, cmds[..i], answers, states, start)
      invariant Written(d, states[i])
      invariant start <= d.socket.calls && (d.buf == old(d.buf) || fresh(d.buf))
    {
      var ok;
      ghost var t;
      out, ok, t := Advance(d, cmds, i, fuel, answers, states, start);
      if out != Done { return; }
      answers, states := answers + [ok], states + [t];
    }
    out := Done;
    assert cmds[..|cmds|] == cmds;
  }

  /** The next command of a run. */
  method Advance(d: Descriptor, cmds: seq<Command>, i: nat, fuel: nat, answers: seq<bool>, ghost states: seq<State>,
                 ghost start: nat)
    returns (out: Outcome, ok: bool, ghost t: State)
    requires d.Valid()
    requires i < |cmds| && |answers| == i && start <= d.socket.calls
    requires Lived(d, cmds[..i], answers, states, start)
    requires Written(d, states[i])
    modifies d, d.buf, d.socket
    ensures out == Done ==> d.Valid()
    ensures out == Done ==> Lived(d, cmds[..i + 1], answers + [ok], states + [t], start)
    ensures out == Done ==> Written(d, t)
    ensures out != Done ==> Lived(d, cmds[..i], answers, states, start)
    ensures out != Done ==> Halted(d, cmds[i], out, fuel, start)
    ensures (d.buf == old(d.buf) || fresh(d.buf)) && old(d.socket.calls) <= d.socket.calls
    ensures Bytes(states[i].log) <= d.socket.sent
  {
    ghost var clean, before := !d.socket.FailedSince(start), d.socket.calls;
    SoundAt(d, cmds[..i], answers, states, start, i);
    out, ok, t := Perform(d, cmds[i], fuel, states[i]);
    ghost var still := !d.socket.FailedSince(start);
    if out == Done {
      FollowsNext(d.codec, d.size, clean, cmds[..i], answers, states, cmds[i],
                  !d.socket.FailedSince(before), ok, t, still);
      assert cmds[..i + 1] == cmds[..i] + [cmds[i]];
    } else {
      StillFollows(d.codec, d.size, clean, cmds[..i], answers, states, still);
      HaltedSince(d, cmds[i], out, fuel, before, start);
    }
  }

  lemma SoundAt(d: Descriptor, cmds: seq<Command>, answers: seq<bool>, states: seq<State>, start: nat, i: nat)
    requires Lived(d, cmds, answers, states, start) && i <= |cmds|
    ensures AllSound(d.codec, states[i].log)
  {
  }

  lemma StillFollows(codec: Codec, size: nat, clean: bool, cmds: seq<Command>, answers: seq<bool>, states: seq<State>,
                     still: bool)
    requires Bounded(codec) && Follows(codec, size, clean, cmds, answers, states) && (still ==> clean)
    ensures Follows(codec, size, still, cmds, answers, states)
  {
    forall i | 0 <= i < |cmds|
      ensures StepAt(codec, size, still, cmds, answers, states, i)
    {
      StepOf(codec, size, clean, cmds, answers, states, i);
      Weaker(codec, size, clean, states[i], cmds[i], answers[i], states[i + 1], still);
    }
  }

  // ----- what the peer makes of it

  /** A compressEnd answered with TRUE leaves nothing inside deflate: the stream is whole exactly if all that
      deflate has emitted went out, and it stays as it is from then on. */
  lemma EndedStream(codec: Codec, size: nat, clean: bool, s: State, t: State, c: Command, ok: bool, u: State)
    requires Bounded(codec) && s.on && StepTo(codec, size, clean, s, End, true, t)
    requires StepTo(codec, size, clean, t, c, ok, u)
    ensures !t.on && InStream(t.log) && |t.log| == |s.log| <= |u.log| && u.log[|t.log| - 1] == Last(t.log)
    ensures Whole(codec, Last(t.log)) <==> Last(t.log).bytes == Emitted(codec, Last(t.log).kind.calls)
  {
  }

  /** At every moment of a run: the stretches carry exactly the texts given by then, in order, and what the peer
      inflates of each stream is a prefix of its texts, and all of them if it is whole. */
  ghost predicate Understood(codec: Codec, inflate: Inflate, cmds: seq<Command>, s: State) {
    && Payload(s.log) == Texts(cmds)
    && forall j | 0 <= j < |s.log| :: Decodes(codec, inflate, s.log[j])
  }

  lemma RunIsUnderstood(codec: Codec, size: nat, clean: bool, inflate: Inflate, cmds: seq<Command>,
                        answers: seq<bool>, states: seq<State>, n: nat)
    requires Lossless(codec, inflate) && Follows(codec, size, clean, cmds, answers, states) && n <= |cmds|
    ensures Understood(codec, inflate, cmds[..n], states[n])
  {
    RunCarries(codec, size, clean, cmds, answers, states, n);
    var log := states[n].log;
    forall j | 0 <= j < |log|
      ensures Decodes(codec, inflate, log[j])
    {
      assert AllSound(codec, log);
      SoundDecodes(codec, inflate, log[j]);
    }
  }

  /** Through any run of starts, texts, retries and ends, whatever the socket does: the commands carried out have
      led through states each of which the peer understands, the last of them being what has been sent; the
      run stops only at a command that is halted. */
  method Live(d: Descriptor, cmds: seq<Command>, fuel: nat, ghost inflate: Inflate)
    returns (out: Outcome, answers: seq<bool>, ghost states: seq<State>)
    requires d.Valid()
    requires !d.compressing && d.socket.sent == [] && Lossless(d.codec, inflate)
    modifies d, d.buf, d.socket
    ensures |answers| <= |cmds| && (out == Done <==> |answers| == |cmds|)
    ensures Lived(d, cmds[..|answers|], answers, states, old(d.socket.calls))
    ensures forall n | 0 <= n <= |answers| :: Understood(d.codec, inflate, cmds[..n], states[n])
    ensures Bytes(states[|answers|].log) <= d.socket.sent
    ensures out == Done ==> d.Valid()
    ensures out == Done ==> Written(d, states[|cmds|])
    ensures out != Done ==> Halted(d, cmds[|answers|], out, fuel, old(d.socket.calls))
  {
    ghost var start := d.socket.calls;
    out, answers, states := Run(d, cmds, fuel);
    forall n | 0 <= n <= |answers|
      ensures Understood(d.codec, inflate, cmds[..n], states[n])
    {
      RunIsUnderstood(d.codec, d.size, !d.socket.FailedSince(start), inflate, cmds[..|answers|], answers, states, n);
      assert cmds[..|answers|][..n] == cmds[..n];
    }
  }
}
