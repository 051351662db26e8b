/**
 The announcement from the client's side: a telnet reader that begins to inflate when, and only when,
 the whole announcement of its own version of the protocol has come.
 */
module MccpClient {
  import opened Seqs
  import opened Mccp
  import opened MccpLife

  /** Where a telnet client is in what it reads: plain text, a command, a subnegotiation with its option and the
      byte before, or the compressed stream. */
  datatype Mode = Text | Command | Option | Sub(option: Byte, last: Byte) | Inflating

  /** One byte.  A subnegotiation is IAC (255) SB (250) and an option, and ends with SE (240) behind IAC or, in
      version 1, behind WILL (251); the option is 85 in version 1 and 86 in version 2. */
  function Reads(v2: bool, m: Mode, b: Byte): Mode {
    match m
    case Text => if b == 255 then Command else Text
    case Command => if b == 250 then Option else Text
    case Option => Sub(b, 0)
    case Sub(option, last) =>
      if b == 240 && (last == 255 || last == 251) then
        if v2 then (if option == 86 && last == 255 then Inflating else Text)
        else (if option == 85 && last == 251 then Inflating else Text)
      else Sub(option, b)
    case Inflating => Inflating
  }

  function ReadsAll(v2: bool, m: Mode, s: seq<Byte>): Mode {
    if s == [] then m else Reads(v2, ReadsAll(v2, m, s[..|s| - 1]), s[|s| - 1])
  }

  lemma {:induction false} ReadsOn(v2: bool, m: Mode, s: seq<Byte>, t: seq<Byte>)
    ensures ReadsAll(v2, m, s + t) == ReadsAll(v2, ReadsAll(v2, m, s), t)
    decreases |t|
  {
    if t == [] {
      assert s + t == s;
    } else {
      var u := t[..|t| - 1];
      ReadsOn(v2, m, s, u);
      assert (s + t)[..|s + t| - 1] == s + u && (s + t)[|s + t| - 1] == t[|t| - 1];
    }
  }

  /** A client that reads plain text begins to inflate within an announcement exactly if it is the whole
      announcement of its own version. */
  lemma AnnouncementIsHeard(client: bool, v2: bool, n: nat)
    requires n <= |HeaderOf(v2)|
    ensures ReadsAll(client, Text, HeaderOf(v2)[..n]) == Inflating <==> n == |HeaderOf(v2)| && client == v2
    ensures n == |HeaderOf(v2)| && client != v2 ==> ReadsAll(client, Text, HeaderOf(v2)[..n]) == Text
  {
    var h := HeaderOf(v2);
    Five(client, h);
    assert h[..n] == [] || h[..n] == [h[0]] || h[..n] == [h[0], h[1]] || h[..n] == [h[0], h[1], h[2]]
        || h[..n] == [h[0], h[1], h[2], h[3]] || h[..n] == h;
  }

  lemma Five(client: bool, h: seq<Byte>)
    requires |h| == 5
    ensures var m1 := Reads(client, Text, h[0]);
            var m2 := Reads(client, m1, h[1]);
            var m3 := Reads(client, m2, h[2]);
            var m4 := Reads(client, m3, h[3]);
            && ReadsAll(client, Text, []) == Text && ReadsAll(client, Text, [h[0]]) == m1
            && ReadsAll(client, Text, [h[0], h[1]]) == m2 && ReadsAll(client, Text, [h[0], h[1], h[2]]) == m3
            && ReadsAll(client, Text, [h[0], h[1], h[2], h[3]]) == m4
            && ReadsAll(client, Text, h) == Reads(client, m4, h[4])
  {
    assert [h[0]][..0] == [] && [h[0], h[1]][..1] == [h[0]] && [h[0], h[1], h[2]][..2] == [h[0], h[1]];
    assert [h[0], h[1], h[2], h[3]][..3] == [h[0], h[1], h[2]] && h[..4] == [h[0], h[1], h[2], h[3]];
  }

  /** Texts without IAC leave the client in plain text. */
  lemma {:induction false} PlainStaysPlain(v2: bool, s: seq<Byte>)
    requires 255 !in s
    ensures ReadsAll(v2, Text, s) == Text
  {
    if s != [] { PlainStaysPlain(v2, s[..|s| - 1]); }
  }

  /** compressStart on a connection whose client reads plain text: the client begins to inflate with the byte at
      base, where the stream begins, exactly if it is of the version started and the socket has taken the whole
      announcement. */
  method StartIsHeard(d: Descriptor, v2: bool, ghost client: bool)
    requires d.Valid() && !d.compressing && ReadsAll(client, Text, d.socket.sent) == Text
    modifies d, d.socket
    ensures d.Valid() && d.compressing && d.base == |d.socket.sent|
    ensures ReadsAll(client, Text, d.socket.sent) == Inflating
        <==> client == v2 && d.socket.accepts(old(d.socket.calls)) >= 5
    ensures forall n | |old(d.socket.sent)| <= n < d.base :: ReadsAll(client, Text, d.socket.sent[..n]) != Inflating
  {
    ghost var sent, start := d.socket.sent, d.socket.calls;
    var ok := d.CompressStart(v2, true);
    ghost var taken := d.socket.Taken(start, |HeaderOf(v2)|);
    ReadsOn(client, Text, sent, HeaderOf(v2)[..taken]);
    AnnouncementIsHeard(client, v2, taken);
    forall n | |sent| <= n < d.base
      ensures ReadsAll(client, Text, d.socket.sent[..n]) != Inflating
    {
      assert d.socket.sent[..n] == sent + HeaderOf(v2)[..n - |sent|];
      ReadsOn(client, Text, sent, HeaderOf(v2)[..n - |sent|]);
      AnnouncementIsHeard(client, v2, n - |sent|);
    }
  }

  /** The announcements of a run, as far as they have gone out. */
  lemma HeaderIsHeard(client: bool, codec: Codec, g: Segment)
    requires Sound(codec, g) && g.kind.Header?
    ensures ReadsAll(client, Text, g.bytes) == Inflating <==> client == g.kind.v2 && g.bytes == HeaderOf(g.kind.v2)
  {
    var h := HeaderOf(g.kind.v2);
    assert g.bytes == h[..|g.bytes|];
    assert h[..|h|] == h;
    AnnouncementIsHeard(client, g.kind.v2, |g.bytes|);
  }
}
