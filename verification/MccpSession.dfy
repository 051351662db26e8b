/**
 Whole conversations over the compressed pipe, and two codecs: one shows that the codec
 contract can be met, the other that writeCompressed can leave text inside deflate.
 */
module MccpSession {
  import opened Mccp
  import opened Seqs

  /** What the game does with a compressed descriptor: write a text, or retry pending output. */
  datatype Command = Write(txt: seq<Byte>) | Retry

  function Texts(cmds: seq<Command>): seq<Byte> {
    if cmds == [] then []
    else
      var last := cmds[|cmds| - 1];
      Texts(cmds[..|cmds| - 1]) + if last.Write? then last.txt else []
  }

  /** Why a command is answered with FALSE: a write has failed, deflate has refused a flush, or a text would
      have to wait longer than fuel allows. */
  ghost predicate Broken(d: Descriptor, cmd: Command, fuel: nat, start: nat)
    reads d, d.socket
  {
    d.socket.FailedSince(start) || d.Refused() || (cmd.Write? && d.Stuck(fuel, |cmd.txt|, start, 0))
  }

  /** One command; FALSE ends the connection. */
  method Perform(d: Descriptor, cmd: Command, fuel: nat) returns (ok: bool)
    requires d.Valid() && d.compressing
    modifies d`nextOut, d`availOut, d`nextIn, d`calls, d`texts, d.buf, d.socket
    ensures ok ==> d.Valid() && d.texts == old(d.texts) + if cmd.Write? then cmd.txt else []
    ensures old(d.socket.calls) <= d.socket.calls
    ensures !ok ==> Broken(d, cmd, fuel, old(d.socket.calls))
  {
    match cmd
    case Write(txt) =>
      var out := d.WriteCompressed(txt, fuel);
      ok := out == Done;
    case Retry =>
      ok := d.ProcessCompressed();
  }

  lemma ValidMeansPrefix(d: Descriptor, inflate: Inflate)
    requires d.Valid() && d.compressing && Lossless(d.codec, inflate)
    ensures inflate(d.Wire()) <= d.texts
  {
  }

  lemma OneMoreCommand(cmds: seq<Command>, i: nat)
    requires i < |cmds|
    ensures Texts(cmds[..i + 1]) == Texts(cmds[..i]) + if cmds[i].Write? then cmds[i].txt else []
  {
    assert cmds[..i + 1][..i] == cmds[..i];
  }

  lemma BrokenSince(d: Descriptor, cmd: Command, fuel: nat, start: nat, earlier: nat)
    requires Broken(d, cmd, fuel, start) && earlier <= start
    ensures Broken(d, cmd, fuel, earlier)
  {
  }

  /** While every call returns TRUE, whatever the socket does, what the peer decodes from the bytes
      sent so far is a prefix of the texts written so far. */
  method Converse(d: Descriptor, cmds: seq<Command>, fuel: nat, ghost inflate: Inflate) returns (ok: bool)
    requires d.Valid() && d.compressing && d.texts == [] && Lossless(d.codec, inflate)
    modifies d`nextOut, d`availOut, d`nextIn, d`calls, d`texts, d.buf, d.socket
    ensures ok ==> d.Valid() && d.texts == Texts(cmds) && inflate(d.Wire()) <= Texts(cmds)
    ensures old(d.socket.calls) <= d.socket.calls
    ensures !ok ==> exists i | 0 <= i < |cmds| :: Broken(d, cmds[i], fuel, old(d.socket.calls))
  {
    ok := true;
    for i := 0 to |cmds|
      invariant ok ==> d.Valid() && d.texts == Texts(cmds[..i]) && inflate(d.Wire()) <= Texts(cmds[..i])
      invariant ok && old(d.socket.calls) <= d.socket.calls
    {
      OneMoreCommand(cmds, i);
      ghost var start := d.socket.calls;
      ok := Perform(d, cmds[i], fuel);
      if !ok {
        BrokenSince(d, cmds[i], fuel, start, old(d.socket.calls));
        return;
      }
      ValidMeansPrefix(d, inflate);
    }
    assert cmds[..|cmds|] == cmds;
  }

  /** deflate was told to finish and did not get to the end of the stream. */
  predicate Unfinished(d: Descriptor)
    reads d
  {
    d.calls != [] && d.calls[|d.calls| - 1].flush == Finish && d.codec(d.calls).status != StreamEnd
  }

  /** A conversation ended by compressEnd: the stream is finished, the residue is what the socket did not
      take of the buffer, and if it took all the peer has decoded exactly the texts written. */
  method ConverseAndEnd(d: Descriptor, cmds: seq<Command>, fuel: nat, ghost inflate: Inflate)
    returns (ok: bool, ghost residue: seq<Byte>)
    requires d.Valid() && d.compressing && d.texts == [] && Lossless(d.codec, inflate)
    modifies d, d.buf, d.socket
    ensures ok ==> !d.compressing && d.base <= |d.socket.sent| && inflate(d.Wire()) <= Texts(cmds)
    ensures ok && residue == [] ==> inflate(d.Wire()) == Texts(cmds)
    ensures ok ==> d.calls != [] && Flushed(d.codec, d.calls) && Consumed(d.codec, d.calls) == Texts(cmds)
    ensures ok ==> Emitted(d.codec, d.calls) == d.Wire() + residue && |residue| == d.nextOut
    ensures ok && d.nextOut == 0 ==> inflate(d.Wire()) == Texts(cmds)
    ensures !ok ==>
      || (exists i | 0 <= i < |cmds| :: Broken(d, cmds[i], fuel, old(d.socket.calls)))
      || d.socket.FailedSince(old(d.socket.calls)) || Unfinished(d)
  {
    residue := [];
    ok := Converse(d, cmds, fuel, inflate);
    if !ok { return; }
    ghost var mid := d.socket.calls;
    ok, residue := d.CompressEnd();
    if ok {
      EndDecodes(d.codec, inflate, d.calls, d.Wire(), residue);
    } else if d.socket.FailedSince(mid) {
      FailedSinceEarlier(d.socket, mid, old(d.socket.calls));
    } else {
      assert Unfinished(d);
    }
  }

  lemma FailedSinceEarlier(s: Socket, start: nat, earlier: nat)
    requires s.FailedSince(start) && earlier <= start
    ensures s.FailedSince(earlier)
  {
  }

  lemma EndDecodes(codec: Codec, inflate: Inflate, calls: seq<Call>, wire: seq<Byte>, residue: seq<Byte>)
    requires Lossless(codec, inflate) && Emitted(codec, calls) == wire + residue
    requires calls != [] && Flushed(codec, calls)
    ensures inflate(wire) <= Consumed(codec, calls)
    ensures residue == [] ==> inflate(wire) == Consumed(codec, calls)
  {
    PeerSeesPrefix(codec, inflate, calls, wire, residue);
    if residue == [] {
      assert wire + [] == wire;
      PeerSeesAll(codec, inflate, calls, wire);
    }
  }

  // ----- a codec that queues internally

  function Total(h: seq<Call>): seq<Byte>
    decreases |h|, 0
  {
    if h == [] then [] else Pending(h[..|h| - 1]) + h[|h| - 1].input
  }

  /** What the codec holds back after h: it takes all input and emits what there is room for. */
  function Pending(h: seq<Call>): seq<Byte>
    decreases |h|, 1
  {
    if h == [] then [] else Total(h)[Min(|Total(h)|, h[|h| - 1].room)..]
  }

  function Queueing(h: seq<Call>): Reply {
    if h == [] then Reply(Ok, 0, [])
    else
      var last, n := h[|h| - 1], Min(|Total(h)|, h[|h| - 1].room);
      Reply(if last.flush == Finish && n < last.room then StreamEnd else Ok, |last.input|, Total(h)[..n])
  }

  /** What the last call of h emits, consumes and leaves behind. */
  lemma QueueStep(h: seq<Call>)
    requires h != []
    ensures var init, n := h[..|h| - 1], Min(|Total(h)|, h[|h| - 1].room);
            && Emitted(Queueing, h) == Emitted(Queueing, init) + Total(h)[..n] && Pending(h) == Total(h)[n..]
            && Consumed(Queueing, h) == Consumed(Queueing, init) + h[|h| - 1].input
            && Total(h) == Pending(init) + h[|h| - 1].input
  {
    var last := h[|h| - 1];
    assert last.input[..|last.input|] == last.input;
  }

  lemma Moved(emitted: seq<Byte>, pending: seq<Byte>, input: seq<Byte>, n: nat)
    requires n <= |pending + input|
    ensures (emitted + (pending + input)[..n]) + (pending + input)[n..] == (emitted + pending) + input
  {
  }

  lemma {:induction false} QueueConserves(h: seq<Call>)
    ensures Emitted(Queueing, h) + Pending(h) == Consumed(Queueing, h)
  {
    if h != [] {
      var init := h[..|h| - 1];
      QueueConserves(init);
      QueueStep(h);
      Moved(Emitted(Queueing, init), Pending(init), h[|h| - 1].input, Min(|Total(h)|, h[|h| - 1].room));
    }
  }

  function Identity(bytes: seq<Byte>): seq<Byte> { bytes }

  /** The codec contract can be met. */
  lemma QueueingIsLossless()
    ensures Lossless(Queueing, Identity)
  {
    forall h: seq<Call>
      ensures Identity(Emitted(Queueing, h)) <= Consumed(Queueing, h)
      ensures h != [] && Flushed(Queueing, h) ==> Identity(Emitted(Queueing, h)) == Consumed(Queueing, h)
    {
      QueueConserves(h);
    }
  }

  lemma QueueingIsBounded()
    ensures Bounded(Queueing)
  {
    QueueingIsLossless();
  }

  lemma NothingLeft(calls: seq<Call>, txt: seq<Byte>)
    requires Bounded(Queueing) && |calls| > 0 && calls[0].input == txt
    ensures RestAfter(Queueing, 0, txt, calls, 1) == []
    ensures |calls| > 1 ==> !RoundAt(Queueing, 1, 0, txt, calls, 1)
  {
    assert calls[..1] == [calls[0]];
  }

  /** The queueing codec is given one call only, since it takes all of the input. */
  lemma TakesAll(calls: seq<Call>, txt: seq<Byte>, rest: seq<Byte>)
    requires Bounded(Queueing) && |calls| > 0 && Rounds(Queueing, 1, [], txt, calls, rest)
    ensures rest == [] && calls == [Call(SyncFlush, txt, 1)]
  {
    assert RoundAt(Queueing, 1, 0, txt, calls, 0);
    NothingLeft(calls, txt);
  }

  lemma TwoBytes(a: Byte, b: Byte, calls: seq<Call>)
    requires calls == [Call(SyncFlush, [a, b], 1)]
    ensures Emitted(Queueing, calls) == [a] && Consumed(Queueing, calls) == [a, b]
  {
    assert calls[..0] == [] && Total(calls) == [a, b];
    assert Emitted(Queueing, calls[..0]) == [] && Consumed(Queueing, calls[..0]) == [];
    assert [a, b][..1] == [a];
  }

  lemma NeverRefused(calls: seq<Call>)
    ensures calls != [] && calls[|calls| - 1].flush == SyncFlush ==> Queueing(calls).status == Ok
  {
  }

  /** On the queueing codec, a buffer of one byte and a socket that takes a byte at a time the write is done. */
  method WriteTwo(d: Descriptor, a: Byte, b: Byte, fuel: nat) returns (out: Outcome)
    requires d.Valid()
    requires d.compressing && d.calls == [] && d.texts == [] && d.nextOut == 0
    requires d.size == 1 && d.codec == Queueing && fuel > 0 && forall i: nat :: d.socket.accepts(i) == 1
    modifies d`nextOut, d`availOut, d`nextIn, d`calls, d`texts, d.buf, d.socket
    ensures d.Valid()
    ensures out == Done && d.texts == [a, b] && d.calls == [Call(SyncFlush, [a, b], 1)]
  {
    var start := d.socket.calls;
    out := d.WriteCompressed([a, b], fuel);
    NeverFails(d.socket, start);
    NeverRefused(d.calls);
    assert out != Failed;
    assert |d.calls| > 0;
    TakesAll(d.calls, [a, b], if out == Done then [] else d.nextIn);
    assert [] + [a, b] == [a, b];
  }

  lemma NeverFails(s: Socket, start: nat)
    requires forall i: nat :: s.accepts(i) == 1
    ensures !s.FailedSince(start)
  {
  }

  /** A socket that takes a byte at a time. */
  method TinySocket() returns (s: Socket)
    ensures fresh(s) && forall i: nat :: s.accepts(i) == 1
  {
    s := new Socket(i => 1, i => false);
  }

  /** A compressed descriptor on the queueing codec, with a buffer of one byte. */
  method StartTiny() returns (d: Descriptor)
    ensures fresh(d) && fresh(d.socket) && fresh(d.buf)
    ensures d.Valid()
    ensures d.compressing && d.calls == [] && d.texts == [] && d.nextOut == 0
    ensures d.size == 1 && d.codec == Queueing && forall i: nat :: d.socket.accepts(i) == 1
  {
    QueueingIsBounded();
    var socket := TinySocket();
    d := new Descriptor(1, Queueing, socket);
    var started := d.CompressStart(false, true);
  }

  method Drain(d: Descriptor)
    requires d.Valid() && d.compressing
    requires forall i: nat :: d.socket.accepts(i) == 1
    modifies d`nextOut, d.buf, d.socket
    ensures d.Valid()
    ensures d.nextOut == 0
  {
    var ok := d.ProcessCompressed();
  }

  /** writeCompressed stops as soon as deflate has taken all input, and does not ask again when the
      output room ran out.  Here deflate takes both bytes and has room for one: the write is done, the
      buffer is empty, and the peer is left without the second byte. */
  method TextStaysInsideDeflate(a: Byte, b: Byte, fuel: nat) returns (out: Outcome, d: Descriptor)
    requires fuel > 0
    ensures out == Done && fresh(d) && d.codec == Queueing && Lossless(Queueing, Identity)
    ensures d.Valid()
    ensures d.compressing && d.nextOut == 0 && d.texts == [a, b] && Identity(d.Wire()) == [a]
  {
    d := StartTiny();
    out := WriteTwo(d, a, b, fuel);
    Drain(d);
    QueueingIsLossless();
    TwoBytes(a, b, d.calls);
    d.PipeIsWhole();
    assert d.Wire() + [] == d.Wire() && d.buf[..0] == [];
  }

  /** When the last call had room to spare, so that nothing is left inside deflate, and the buffer has
      drained, the peer has everything that has been written. */
  lemma RoomToSpareDelivers(d: Descriptor, inflate: Inflate)
    requires d.Valid() && d.compressing && Lossless(d.codec, inflate)
    requires d.calls != [] && Flushed(d.codec, d.calls) && d.nextOut == 0
    ensures inflate(d.Wire()) == d.texts
  {
    d.PipeIsWhole();
    assert d.Wire() + d.buf[..0] == d.Wire();
    PeerSeesAll(d.codec, inflate, d.calls, d.Wire());
  }
}
