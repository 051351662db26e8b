/**
 The compressed output pipe of src/mccp.c: a bounded buffer between zlib's deflate and a
 non-blocking socket that may accept only part of a block, or nothing.

 The outside world is two oracles the proofs hold for whatever they are: what each
 write(2) accepts, and what deflate answers to each call, given all calls so far.
 */
module Mccp {
  import opened Seqs

  type Byte = x: int | 0 <= x < 256

  const IAC := 255
  const SB := 250
  const SE := 240
  const WILL := 251
  const TELOPT_COMPRESS := 85
  const TELOPT_COMPRESS2 := 86

  const COMPRESS_START: seq<Byte> := [IAC, SB, TELOPT_COMPRESS, WILL, SE]
  const COMPRESS_START2: seq<Byte> := [IAC, SB, TELOPT_COMPRESS2, IAC, SE]

  /** What compressStart announces. */
  function HeaderOf(v2: bool): seq<Byte> { if v2 then COMPRESS_START2 else COMPRESS_START }

  function Min(a: nat, b: nat): nat { if a < b then a else b }

  /** A number of bytes goes out in that number of writes, all but the last of 4096 bytes. */
  predicate BlocksFor(length: nat, writes: int) {
    if length == 0 then writes == 0 else 4096 * (writes - 1) < length <= 4096 * writes
  }

  // ----- write(2)

  class Socket {
    const accepts: nat -> int   // how much the i-th write would take; negative is an error
    const again: nat -> bool    // whether that error is EAGAIN
    var calls: nat
    var sent: seq<Byte>         // everything the peer has been sent

    constructor (accepts: nat -> int, again: nat -> bool)
      ensures this.accepts == accepts && this.again == again && sent == []
    {
      this.accepts, this.again := accepts, again;
      calls, sent := 0, [];
    }

    /** Every write takes a block of 4096 bytes. */
    ghost predicate Roomy() { forall i: nat :: accepts(i) >= 4096 }

    /** How much of a block of that length the i-th write takes. */
    function Taken(i: nat, length: nat): (n: nat)
      ensures n <= length
    {
      if accepts(i) < 0 then 0 else Min(accepts(i), length)
    }

    /** The i-th write fails with something else than EAGAIN. */
    predicate Fails(i: nat) { accepts(i) < 0 && !again(i) }

    predicate FailedSince(start: nat)
      reads this
    {
      exists i | start <= i < calls :: Fails(i)
    }

    /** Some write has taken nothing. */
    ghost predicate StalledSince(start: nat)
      reads this
    {
      exists i | start <= i < calls :: accepts(i) <= 0
    }

    method Write(block: seq<Byte>) returns (n: int, eagain: bool)
      modifies this
      ensures n == if accepts(old(calls)) < 0 then -1 else Min(accepts(old(calls)), |block|)
      ensures calls == old(calls) + 1 && (n < 0 ==> eagain == !Fails(old(calls)))
      ensures sent == old(sent) + if n > 0 then block[..n] else []
    {
      var r := accepts(calls);
      eagain := again(calls);
      calls := calls + 1;
      n := if r < 0 then -1 else Min(r, |block|);
      if n > 0 {
        sent := sent + block[..n];
      }
    }
  }

  // ----- deflate

  datatype Flush = SyncFlush | Finish

  datatype Status = Ok | StreamEnd | Trouble

  /** One call: the flush mode, next_in[..avail_in] and avail_out. */
  datatype Call = Call(flush: Flush, input: seq<Byte>, room: nat)

  datatype Reply = Reply(status: Status, consumed: nat, output: seq<Byte>)

  /** What deflate answers to the last call of a history. */
  type Codec = seq<Call> -> Reply

  /** What the peer's inflate has produced from the bytes it has been given. */
  type Inflate = seq<Byte> -> seq<Byte>

  function Emitted(codec: Codec, calls: seq<Call>): seq<Byte> {
    if calls == [] then [] else Emitted(codec, calls[..|calls| - 1]) + codec(calls).output
  }

  function Consumed(codec: Codec, calls: seq<Call>): seq<Byte> {
    if calls == [] then []
    else
      var input, n := calls[|calls| - 1].input, codec(calls).consumed;
      Consumed(codec, calls[..|calls| - 1]) + if n <= |input| then input[..n] else input
  }

  /** deflate never reads past avail_in nor writes past avail_out. */
  ghost predicate Bounded(codec: Codec) {
    forall h: seq<Call> | h != [] ::
      codec(h).consumed <= |h[|h| - 1].input| && |codec(h).output| <= h[|h| - 1].room
  }

  /** deflate's answer to one more call */
  function Answer(codec: Codec, calls: seq<Call>, call: Call): (r: Reply)
    requires Bounded(codec)
    ensures r.consumed <= |call.input| && |r.output| <= call.room
  {
    assert (calls + [call])[|calls + [call]| - 1] == call;
    codec(calls + [call])
  }

  lemma OneMoreCall(codec: Codec, calls: seq<Call>, call: Call)
    requires Bounded(codec)
    ensures var h := calls + [call];
            && Emitted(codec, h) == Emitted(codec, calls) + codec(h).output
            && Consumed(codec, h) == Consumed(codec, calls) + call.input[..codec(h).consumed]
  {
  }

  /** One more call moves bytes from the input to the buffer and neither loses nor adds any. */
  lemma CallKeepsPipe(codec: Codec, calls: seq<Call>, call: Call,
                      wire: seq<Byte>, buffered: seq<Byte>, texts: seq<Byte>)
    requires Bounded(codec)
    requires Emitted(codec, calls) == wire + buffered && Consumed(codec, calls) + call.input == texts
    ensures var h := calls + [call]; var r := Answer(codec, calls, call);
            && r == codec(h)
            && Emitted(codec, h) == wire + (buffered + r.output)
            && Consumed(codec, h) + call.input[r.consumed..] == texts
  {
    var r := Answer(codec, calls, call);
    OneMoreCall(codec, calls, call);
    Associate(wire, buffered, r.output);
    SplitInput(Consumed(codec, calls), call.input, r.consumed);
  }

  lemma SplitInput(consumed: seq<Byte>, input: seq<Byte>, n: nat)
    requires n <= |input|
    ensures (consumed + input[..n]) + input[n..] == consumed + input
  {
  }

  /** The contract of a lossless codec: what inflate makes of the output is always a prefix of the
      input; it is all of it at the end of the stream, and after a sync flush that did not run
      out of room; and inflate never takes back what it has produced. */
  ghost predicate Lossless(codec: Codec, inflate: Inflate) {
    && Bounded(codec)
    && (forall a: seq<Byte>, b: seq<Byte> | a <= b :: inflate(a) <= inflate(b))
    && (forall h: seq<Call> :: inflate(Emitted(codec, h)) <= Consumed(codec, h))
    && (forall h: seq<Call> | h != [] && Flushed(codec, h) :: inflate(Emitted(codec, h)) == Consumed(codec, h))
  }

  /** The last call has left nothing inside deflate. */
  predicate Flushed(codec: Codec, h: seq<Call>)
    requires h != []
  {
    codec(h).status == StreamEnd
    || (h[|h| - 1].flush == SyncFlush && codec(h).status == Ok && |codec(h).output| < h[|h| - 1].room)
  }

  // ----- the calls of one writeCompressed

  /** What deflate has left of the input txt after the i-th call of h, the calls before h0's end aside. */
  function RestAfter(codec: Codec, start: nat, txt: seq<Byte>, h: seq<Call>, i: nat): seq<Byte>
    requires Bounded(codec) && i <= |h|
  {
    if i <= start then txt
    else
      assert h[..i][|h[..i]| - 1] == h[i - 1];
      h[i - 1].input[codec(h[..i]).consumed..]
  }

  /** Call i is a sync flush with some of the buffer to write to, answered with Z_OK, and is offered what
      the call before it has left, which is not nothing. */
  ghost predicate RoundAt(codec: Codec, size: nat, start: nat, txt: seq<Byte>, h: seq<Call>, i: nat)
    requires Bounded(codec) && i < |h|
  {
    && h[i].flush == SyncFlush && 0 < h[i].room <= size && codec(h[..i + 1]).status == Ok
    && h[i].input == RestAfter(codec, start, txt, h, i) != []
  }

  /** writeCompressed's loop has taken deflate's history from h0 to h and the input from txt to rest. */
  ghost predicate Rounds(codec: Codec, size: nat, h0: seq<Call>, txt: seq<Byte>, h: seq<Call>, rest: seq<Byte>)
    requires Bounded(codec)
  {
    && h0 <= h && rest == RestAfter(codec, |h0|, txt, h, |h|)
    && forall i | |h0| <= i < |h| :: RoundAt(codec, size, |h0|, txt, h, i)
  }

  lemma OneMoreRound(codec: Codec, size: nat, h0: seq<Call>, txt: seq<Byte>, h: seq<Call>, call: Call)
    requires Bounded(codec) && Rounds(codec, size, h0, txt, h, call.input)
    requires call.flush == SyncFlush && call.input != [] && 0 < call.room <= size && codec(h + [call]).status == Ok
    ensures var r := Answer(codec, h, call);
            r == codec(h + [call]) && Rounds(codec, size, h0, txt, h + [call], call.input[r.consumed..])
  {
    var r, t := Answer(codec, h, call), h + [call];
    assert t[..|t|] == t;
    forall i | |h0| <= i < |t|
      ensures RoundAt(codec, size, |h0|, txt, t, i)
    {
      assert t[..i] == h[..i];
      if i < |h| { assert t[..i + 1] == h[..i + 1] && RoundAt(codec, size, |h0|, txt, h, i); }
      else { assert t[..i + 1] == t && h[..|h|] == h; }
    }
  }

  /** Some call from the n-th on was offered input and room and took nothing. */
  ghost predicate Idle(codec: Codec, h: seq<Call>, n: nat) {
    exists i | n <= i < |h| :: IdleAt(codec, h, i)
  }

  ghost predicate IdleAt(codec: Codec, h: seq<Call>, i: nat)
    requires i < |h|
  {
    h[i].input != [] && h[i].room > 0 && codec(h[..i + 1]).consumed == 0
  }

  lemma IdleOneMore(codec: Codec, h: seq<Call>, n: nat, call: Call)
    requires n <= |h| && call.input != [] && call.room > 0
    ensures Idle(codec, h, n) || codec(h + [call]).consumed == 0 ==> Idle(codec, h + [call], n)
  {
    var t := h + [call];
    assert t[..|t|] == t;
    if Idle(codec, h, n) {
      var i :| n <= i < |h| && IdleAt(codec, h, i);
      assert t[..i + 1] == h[..i + 1];
      assert IdleAt(codec, t, i);
    }
    if codec(t).consumed == 0 { assert IdleAt(codec, t, |h|); }
  }

  // ----- what the peer can see

  /** Whatever is still in the buffer, what the peer decodes is a prefix of what was consumed. */
  lemma PeerSeesPrefix(codec: Codec, inflate: Inflate, calls: seq<Call>, wire: seq<Byte>, buffered: seq<Byte>)
    requires Lossless(codec, inflate) && Emitted(codec, calls) == wire + buffered
    ensures inflate(wire) <= Consumed(codec, calls)
  {
  }

  lemma PeerSeesAll(codec: Codec, inflate: Inflate, calls: seq<Call>, wire: seq<Byte>)
    requires Lossless(codec, inflate) && calls != [] && Flushed(codec, calls) && Emitted(codec, calls) == wire
    ensures inflate(wire) == Consumed(codec, calls)
  {
  }

  // ----- the descriptor

  datatype Outcome = Done | Failed | Spinning

  /** What out_compress_buf points at. */
  datatype Memory = NoBuffer | InUse | Freed

  class Descriptor {
    const size: nat              // COMPRESS_BUF_SIZE
    const codec: Codec
    const socket: Socket
    var compressing: bool        // out_compress != NULL
    var buf: array<Byte>         // out_compress_buf
    ghost var memory: Memory     // whether that is NULL, allocated or freed
    var version: int             // mccp_version
    // z_stream
    var nextOut: nat             // next_out - out_compress_buf
    var availOut: nat
    var nextIn: seq<Byte>        // next_in[..avail_in]
    var calls: seq<Call>         // zlib's internal state: all calls since deflateInit
    ghost var base: nat          // how much had been sent when the stream began
    ghost var texts: seq<Byte>   // all texts handed to writeCompressed since then

    constructor (size: nat, codec: Codec, socket: Socket)
      requires size > 0 && Bounded(codec)
      ensures this.size == size && this.codec == codec && this.socket == socket && !compressing
      ensures Valid()
      ensures fresh(buf) && memory == NoBuffer
    {
      this.size, this.codec, this.socket := size, codec, socket;
      compressing, version := false, 0;
      buf := new Byte[size];
      nextOut, availOut, nextIn, calls, base, texts := 0, 0, [], [], 0, [];
      memory := NoBuffer;
    }

    /** Sent bytes, then the buffer up to next_out, are everything deflate has emitted; and deflate is
        never in a position to write past the end of the buffer. */
    ghost predicate Pipe()
      reads this, buf, socket
    {
      compressing ==>
        && memory == InUse && buf.Length == size
        && nextOut + availOut <= size
        && base <= |socket.sent|
        && Emitted(codec, calls) == socket.sent[base..] + buf[..nextOut]
        && Consumed(codec, calls) + nextIn == texts
    }

    /** Between calls deflate has also consumed all of its input, and no buffer is left allocated. */
    ghost predicate Valid()
      reads this, buf, socket
    {
      size > 0 && Bounded(codec) && Pipe() && if compressing then nextIn == [] else memory != InUse
    }

    ghost function Wire(): seq<Byte>
      reads this, socket
      requires base <= |socket.sent|
    {
      socket.sent[base..]
    }

    /** deflate's output goes to next_out. */
    method Put(output: seq<Byte>)
      requires nextOut + |output| <= buf.Length && |output| <= availOut
      modifies this`nextOut, this`availOut, buf
      ensures nextOut == old(nextOut) + |output| && availOut == old(availOut) - |output|
      ensures buf[..nextOut] == old(buf[..nextOut]) + output
    {
      var at := nextOut;
      forall i | 0 <= i < |output| {
        buf[at + i] := output[i];
      }
      nextOut, availOut := at + |output|, availOut - |output|;
    }

    /** deflate: its precondition is that there is room for what it is told it may write. */
    method Deflate(flush: Flush) returns (status: Status)
      requires compressing && Bounded(codec) && Pipe()
      modifies this`nextOut, this`availOut, this`nextIn, this`calls, buf
      ensures Pipe()
      ensures calls == old(calls) + [Call(flush, old(nextIn), old(availOut))]
      ensures status == codec(calls).status && codec(calls).consumed <= |old(nextIn)|
      ensures nextIn == old(nextIn)[codec(calls).consumed..]
      ensures availOut == old(availOut) - |codec(calls).output|
    {
      var call := Call(flush, nextIn, availOut);
      var reply := Answer(codec, calls, call);
      CallKeepsPipe(codec, calls, call, socket.sent[base..], buf[..nextOut], texts);
      Put(reply.output);
      nextIn := nextIn[reply.consumed..];
      calls := calls + [call];
      status := reply.status;
    }

    /** The write loop: blocks of at most 4096 bytes until one is refused or the buffer is empty.  It is
        FALSE exactly for an error that is not EAGAIN. */
    method SendBlocks(len: nat) returns (ok: bool, iStart: nat)
      requires len <= buf.Length
      modifies socket
      ensures iStart <= len && socket.sent == old(socket.sent) + buf[..iStart]
      ensures ok == !socket.FailedSince(old(socket.calls)) && old(socket.calls) <= socket.calls
      ensures ok ==> iStart == len || socket.StalledSince(old(socket.calls))
      ensures socket.Roomy() ==> BlocksFor(len, socket.calls - old(socket.calls))
    {
      iStart := 0;
      while iStart < len
        invariant iStart <= len
        invariant old(socket.calls) <= socket.calls && !socket.FailedSince(old(socket.calls))
        invariant socket.sent == old(socket.sent) + buf[..iStart]
        invariant socket.Roomy() ==> if iStart < len then iStart == 4096 * (socket.calls - old(socket.calls))
                                     else BlocksFor(len, socket.calls - old(socket.calls))
        decreases len - iStart
      {
        assert socket.Roomy() ==> socket.accepts(socket.calls) >= 4096;
        var nBlock := Min(len - iStart, 4096);
        var nWrite, eagain := socket.Write(buf[iStart..iStart + nBlock]);
        if nWrite < 0 { return eagain, iStart; }
        if nWrite <= 0 { break; }
        assert buf[iStart..iStart + nBlock][..nWrite] == buf[iStart..iStart + nWrite];
        assert buf[..iStart] + buf[iStart..iStart + nWrite] == buf[..iStart + nWrite];
        iStart := iStart + nWrite;
      }
      ok := true;
    }

    /** memmove of the unsent rest to the front */
    method MoveDown(iStart: nat, len: nat)
      requires iStart <= len <= buf.Length
      modifies buf
      ensures buf[..len - iStart] == old(buf[iStart..len])
    {
      forall i | 0 <= i < len - iStart {
        buf[i] := buf[iStart + i];
      }
    }

    /** processCompressed: on TRUE nothing is lost, duplicated or reordered, however the socket cuts
        the blocks up, and something stays behind only if a write has taken nothing.  On FALSE the buffer
        is left as it was, so that the pipe is whole exactly if nothing of it had been sent. */
    method ProcessCompressed() returns (ok: bool)
      requires Pipe()
      modifies this`nextOut, buf, socket
      ensures ok ==> Pipe()
      ensures ok == !socket.FailedSince(old(socket.calls))
      ensures old(socket.calls) <= socket.calls
      ensures ok && compressing ==> nextOut == 0 || socket.StalledSince(old(socket.calls))
      ensures ok && compressing ==> socket.sent + buf[..nextOut] == old(socket.sent) + old(buf[..nextOut])
      ensures old(socket.sent) <= socket.sent && nextOut <= old(nextOut)
      ensures !compressing ==> ok && unchanged(this) && unchanged(buf) && unchanged(socket)
      ensures !ok ==> nextOut == old(nextOut) && (Pipe() <==> socket.sent == old(socket.sent))
    {
      if !compressing { return true; }
      if nextOut > 0 {
        ghost var before, all := socket.sent, buf[..nextOut];
        var sent, iStart := SendBlocks(nextOut);
        if !sent {
          SentTwice(before, all, iStart, base);
          return false;
        }
        ghost var gone, left := buf[..iStart], buf[iStart..nextOut];
        Halves(all, iStart);
        Regroup(before, gone, left, base);
        DropSent(iStart);
        assert socket.sent == before + gone && buf[..nextOut] == left && gone + left == all;
      }
      return true;
    }

    /** What was sent leaves the buffer. */
    method DropSent(iStart: nat)
      requires iStart <= nextOut <= buf.Length
      modifies this`nextOut, buf
      ensures nextOut == old(nextOut) - iStart && buf[..nextOut] == old(buf[iStart..nextOut])
    {
      if iStart > 0 {
        if iStart < nextOut { MoveDown(iStart, nextOut); }
        nextOut := nextOut - iStart;
      }
    }

    /** Bytes that are sent and kept count twice. */
    static lemma SentTwice(sent: seq<Byte>, all: seq<Byte>, n: nat, base: nat)
      requires base <= |sent| && n <= |all|
      ensures (sent + all[..n])[base..] + all == sent[base..] + all <==> sent + all[..n] == sent
    {
      if n == 0 {
        assert all[..0] == [] && sent + [] == sent;
      } else {
        assert |(sent + all[..n])[base..] + all| == |sent| + n - base + |all|;
        assert |sent + all[..n]| == |sent| + n;
      }
    }

    static lemma Halves(s: seq<Byte>, n: nat)
      requires n <= |s|
      ensures s[..n] + s[n..] == s
    {
    }

    static lemma Regroup(sent: seq<Byte>, gone: seq<Byte>, left: seq<Byte>, base: nat)
      requires base <= |sent|
      ensures (sent + gone)[base..] + left == sent[base..] + (gone + left)
      ensures (sent + gone) + left == sent + (gone + left)
    {
    }

    /** compressStart; initOk is whether deflateInit succeeds.  If it does not, out_compress_buf is left
        pointing at the freed buffer, which nothing uses as long as out_compress is NULL. */
    method CompressStart(v2: bool, initOk: bool) returns (ok: bool)
      requires Valid()
      modifies this, socket
      ensures Valid()
      ensures ok == (old(compressing) || initOk) && compressing == ok
      ensures old(compressing) ==> unchanged(this) && unchanged(socket)
      ensures ok && !old(compressing) ==> fresh(buf) && texts == [] && Wire() == []
      ensures ok && !old(compressing) ==> calls == [] && nextOut == 0 && version == if v2 then 2 else 1
      ensures ok && !old(compressing) ==>
        socket.sent == old(socket.sent) + HeaderOf(v2)[..socket.Taken(old(socket.calls), |HeaderOf(v2)|)]
      ensures !ok ==> memory == Freed && fresh(buf) && unchanged(`version) && unchanged(`texts) && unchanged(socket)
      ensures old(socket.sent) <= socket.sent && old(socket.calls) <= socket.calls
    {
      if compressing { return true; }
      buf := new Byte[size];
      if !initOk {
        memory := Freed;
        return false;
      }
      OpenStream(v2);
      return true;
    }

    /** The successful rest of compressStart, on the new buffer.  What the socket does not take of the
        announcement is never sent. */
    method OpenStream(v2: bool)
      requires size > 0 && Bounded(codec) && buf.Length == size
      modifies this, socket
      ensures Valid()
      ensures compressing && buf == old(buf)
      ensures calls == [] && nextOut == 0 && texts == [] && Wire() == [] && version == if v2 then 2 else 1
      ensures socket.sent == old(socket.sent) + HeaderOf(v2)[..socket.Taken(old(socket.calls), |HeaderOf(v2)|)]
      ensures old(socket.sent) <= socket.sent && old(socket.calls) <= socket.calls
    {
      var header := HeaderOf(v2);
      var n, eagain := socket.Write(header);
      version := if v2 then 2 else 1;
      memory, nextOut, availOut, nextIn, calls := InUse, 0, size, [], [];
      base, texts := |socket.sent|, [];
      compressing := true;
      EmptyPipe();
    }

    lemma EmptyPipe()
      requires memory == InUse && buf.Length == size && nextOut == 0 && availOut <= size
      requires nextIn == [] && calls == [] && base == |socket.sent| && texts == []
      ensures Pipe()
    {
      assert socket.sent[base..] == [] && buf[..nextOut] == [];
    }

    /** One round of writeCompressed's loop. */
    method WriteRound() returns (ok: bool)
      requires compressing && Bounded(codec) && Pipe()
      modifies this`nextOut, this`availOut, this`nextIn, this`calls, buf, socket
      ensures ok ==> Pipe()
      ensures if old(nextOut) == size then calls == old(calls) && nextIn == old(nextIn)
              else && calls == old(calls) + [Call(SyncFlush, old(nextIn), size - old(nextOut))]
                   && codec(calls).consumed <= |old(nextIn)| && nextIn == old(nextIn)[codec(calls).consumed..]
                   && (ok ==> codec(calls).status == Ok)
      ensures !ok ==> socket.FailedSince(old(socket.calls)) || (calls != old(calls) && codec(calls).status != Ok)
      ensures ok ==> !socket.FailedSince(old(socket.calls))
      ensures ok ==> nextOut == 0 || socket.StalledSince(old(socket.calls))
      ensures old(socket.calls) <= socket.calls && old(socket.sent) <= socket.sent
    {
      var status := FlushInput();
      if status != Ok { return false; }
      ok := ProcessCompressed();
    }

    /** The call of deflate in a round, if the buffer is not full. */
    method FlushInput() returns (status: Status)
      requires compressing && Bounded(codec) && Pipe()
      modifies this`nextOut, this`availOut, this`nextIn, this`calls, buf
      ensures Pipe()
      ensures if old(nextOut) == size then calls == old(calls) && nextIn == old(nextIn) && status == Ok
              else && calls == old(calls) + [Call(SyncFlush, old(nextIn), size - old(nextOut))]
                   && codec(calls).consumed <= |old(nextIn)| && nextIn == old(nextIn)[codec(calls).consumed..]
                   && status == codec(calls).status
    {
      availOut := size - nextOut;
      status := Ok;
      if availOut != 0 { status := Deflate(SyncFlush); }
    }

    /** The latest call of deflate was a sync flush that it did not answer with Z_OK. */
    predicate Refused()
      reads this
    {
      calls != [] && calls[|calls| - 1].flush == SyncFlush && codec(calls).status != Ok
    }

    /** Why a write of n bytes has not ended after fuel rounds. */
    ghost predicate Stuck(fuel: nat, n: nat, start: nat, made: nat)
      reads this, socket
    {
      fuel <= n || socket.StalledSince(start) || Idle(codec, calls, made)
    }

    /** writeCompressed.  The source loops until deflate has taken all input, for as long as the socket
        makes it wait; fuel bounds that wait, and Spinning means it ran out, which beyond a round for each
        byte takes a write or a call of deflate that took nothing.  Rounds says which calls deflate was
        given: none after the one that took the last of the input. */
    method WriteCompressed(txt: seq<Byte>, fuel: nat) returns (out: Outcome)
      requires Valid() && compressing
      modifies this`nextOut, this`availOut, this`nextIn, this`calls, this`texts, buf, socket
      ensures texts == old(texts) + txt
      ensures out == Done ==> Valid()
      ensures out == Done ==> Consumed(codec, calls) == texts
      ensures out == Done ==> Rounds(codec, size, old(calls), txt, calls, [])
      ensures out == Spinning ==> Pipe()
      ensures out == Spinning ==> nextIn != [] && Rounds(codec, size, old(calls), txt, calls, nextIn)
      ensures out == Spinning && fuel > 0 && old(nextOut) < size ==> |old(calls)| < |calls|
      ensures out == Spinning ==> Stuck(fuel, |txt|, old(socket.calls), |old(calls)|)
      ensures out == Failed ==> socket.FailedSince(old(socket.calls)) || Refused()
      ensures old(socket.calls) <= socket.calls && old(socket.sent) <= socket.sent
    {
      Nothing(Consumed(codec, calls));
      nextIn := txt;
      texts := texts + txt;
      out := WriteLoop(calls, txt, fuel);
      Nothing(Consumed(codec, calls));
    }

    /** The loop of writeCompressed. */
    method WriteLoop(ghost h0: seq<Call>, ghost txt: seq<Byte>, fuel: nat) returns (out: Outcome)
      requires size > 0 && compressing && Bounded(codec) && Pipe() && nextIn == txt && calls == h0
      modifies this`nextOut, this`availOut, this`nextIn, this`calls, buf, socket
      ensures out != Failed ==> Pipe()
      ensures out != Failed ==> |h0| <= |calls| && Rounds(codec, size, h0, txt, calls, nextIn)
      ensures out == Done ==> nextIn == []
      ensures out == Spinning ==> nextIn != [] && (fuel > 0 && old(nextOut) < size ==> |h0| < |calls|)
      ensures out == Spinning ==> Stuck(fuel, |txt|, old(socket.calls), |h0|)
      ensures out == Failed ==> socket.FailedSince(old(socket.calls)) || Refused()
      ensures old(socket.calls) <= socket.calls && old(socket.sent) <= socket.sent
    {
      var n := 0;
      while nextIn != []
        invariant Pipe()
        invariant |h0| <= |calls| && Rounds(codec, size, h0, txt, calls, nextIn)
        invariant n <= fuel
        invariant n == 0 ==> nextOut == old(nextOut)
        invariant |nextIn| <= |txt|
        invariant n > 0 && old(nextOut) < size ==> |h0| < |calls|
        invariant Paced(n, |txt|, old(socket.calls), |h0|)
        invariant old(socket.calls) <= socket.calls && old(socket.sent) <= socket.sent
        decreases fuel - n
      {
        if n == fuel { return Spinning; }
        n := n + 1;
        var ok := NextRound(h0, txt, n - 1, old(socket.calls));
        if !ok { return Failed; }
      }
      return Done;
    }

    /** After n rounds every one but perhaps the first has taken a byte of the input, unless something has
        taken nothing. */
    ghost predicate Paced(n: nat, length: nat, start: nat, made: nat)
      reads this, socket
    {
      || socket.StalledSince(start) || Idle(codec, calls, made)
      || n == 0 || (nextOut == 0 && n <= 1 + length - |nextIn|)
    }

    /** WriteRound in the terms of the loop. */
    method NextRound(ghost h0: seq<Call>, ghost txt: seq<Byte>, ghost n: nat, ghost start: nat) returns (ok: bool)
      requires compressing && Bounded(codec) && Pipe() && nextIn != []
      requires |h0| <= |calls| && Rounds(codec, size, h0, txt, calls, nextIn)
      requires size > 0 && start <= socket.calls && |nextIn| <= |txt| && Paced(n, |txt|, start, |h0|)
      modifies this`nextOut, this`availOut, this`nextIn, this`calls, buf, socket
      ensures ok ==> Pipe()
      ensures ok ==> |h0| <= |calls| && Rounds(codec, size, h0, txt, calls, nextIn)
      ensures |old(calls)| <= |calls| && (old(nextOut) < size ==> |old(calls)| < |calls|)
      ensures ok ==> |nextIn| <= |txt| && Paced(n + 1, |txt|, start, |h0|)
      ensures old(socket.calls) <= socket.calls && old(socket.sent) <= socket.sent
      ensures if ok then !socket.FailedSince(old(socket.calls)) else socket.FailedSince(old(socket.calls)) || Refused()
    {
      ghost var call := Call(SyncFlush, nextIn, size - nextOut);
      ghost var h, at, idle := calls, nextOut, Idle(codec, calls, |h0|);
      ghost var stalled := socket.StalledSince(start);
      ok := WriteRound();
      if at < size && ok { OneMoreRound(codec, size, h0, txt, h, call); }
      if ok { StillPaced(h0, h, call, at, |txt|, n, start, stalled, idle); }
    }

    lemma StillPaced(h0: seq<Call>, h: seq<Call>, call: Call, at: nat, length: nat, n: nat, start: nat,
                     stalled: bool, idle: bool)
      requires idle == Idle(codec, h, |h0|) && |h0| <= |h| && call.input != [] && |call.input| <= length
      requires at <= size && call.room == size - at
      requires stalled || idle || n == 0 || (at == 0 && n <= 1 + length - |call.input|)
      requires stalled ==> socket.StalledSince(start)
      requires size > 0 && (nextOut == 0 || socket.StalledSince(start))
      requires if at == size then calls == h && nextIn == call.input
               else calls == h + [call] && codec(calls).consumed <= |call.input|
                    && nextIn == call.input[codec(calls).consumed..]
      ensures Paced(n + 1, length, start, |h0|)
    {
      if at < size { IdleOneMore(codec, h, |h0|, call); }
    }

    static lemma Nothing(a: seq<Byte>)
      ensures a + [] == a
    {
    }

    /** deflate with Z_FINISH, and what it leaves to send. */
    method FinishStream() returns (ok: bool)
      requires Valid() && compressing
      modifies this`nextOut, this`availOut, this`nextIn, this`calls, buf, socket
      ensures ok ==> Pipe()
      ensures ok ==> nextIn == [] && calls != [] && Flushed(codec, calls)
      ensures calls == old(calls) + [Call(Finish, [], old(availOut))]
      ensures old(socket.calls) <= socket.calls && old(socket.sent) <= socket.sent
      ensures ok == (codec(calls).status == StreamEnd && !socket.FailedSince(old(socket.calls)))
      ensures !ok ==> socket.FailedSince(old(socket.calls)) || (Pipe() && nextIn == [])
      ensures !ok ==> nextIn == [] && (Pipe() <==> socket.sent == old(socket.sent))
    {
      nextIn := [];
      var status := Deflate(Finish);
      if status != StreamEnd { return false; }
      ok := ProcessCompressed();
    }

    /** What Pipe says when all input has been taken. */
    lemma PipeIsWhole()
      requires compressing && Pipe() && nextIn == []
      ensures base <= |socket.sent| && nextOut <= buf.Length
      ensures Emitted(codec, calls) == Wire() + buf[..nextOut] && Consumed(codec, calls) == texts
    {
      Nothing(Consumed(codec, calls));
    }

    /** compressEnd.  On TRUE the stream is complete; what the socket did not take is dropped with the
        buffer and returned as residue.  It is FALSE exactly if deflate does not reach the end of the stream
        in the room an earlier call has left, or a write fails; the descriptor then stays in use, and is sound
        exactly if no byte went out before the failed write. */
    method CompressEnd() returns (ok: bool, ghost residue: seq<Byte>)
      requires Valid()
      modifies this, buf, socket
      ensures ok ==> Valid() && !compressing
      ensures base == old(base) && texts == old(texts)
      ensures ok && old(compressing) ==>
        && version == 0 && memory == NoBuffer && base <= |socket.sent| && calls != [] && Flushed(codec, calls)
        && Emitted(codec, calls) == Wire() + residue && Consumed(codec, calls) == texts
        && |residue| == nextOut
      ensures old(compressing) ==> calls == old(calls) + [Call(Finish, [], old(availOut))]
      ensures ok == (!old(compressing) || (codec(calls).status == StreamEnd && !socket.FailedSince(old(socket.calls))))
      ensures !ok ==> socket.FailedSince(old(socket.calls)) || (compressing && Valid())
      ensures !ok ==> compressing && (Valid() <==> socket.sent == old(socket.sent))
      ensures old(socket.calls) <= socket.calls && old(socket.sent) <= socket.sent
      ensures !old(compressing) ==> unchanged(this) && unchanged(socket) && residue == []
      ensures buf == old(buf)
    {
      residue := [];
      if !compressing { return true, []; }
      ok := FinishStream();
      if !ok { return false, []; }
      PipeIsWhole();
      residue := buf[..nextOut];
      CloseStream();
    }

    method CloseStream()
      requires compressing && size > 0 && Bounded(codec)
      modifies this`compressing, this`version, this`memory
      ensures Valid()
      ensures !compressing && version == 0 && memory == NoBuffer
    {
      compressing, version, memory := false, 0, NoBuffer;
    }
  }
}
