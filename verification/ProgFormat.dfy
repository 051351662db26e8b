/**
 The mobprog lister of src/olc_mpcode.c: it splits the code into lines and indents them
 by how many `if`s are open.  Colouring is left out.
 */
module ProgFormat {
  import opened Seqs
  import opened Text
  import opened FileText

  // ----- splitting

  function LineEnd(s: string): (n: nat)
    ensures n <= |s| && (n < |s| ==> IsEol(s[n]))
    ensures forall i | 0 <= i < n :: !IsEol(s[i])
  {
    if s == "" || IsEol(s[0]) then 0 else 1 + LineEnd(s[1..])
  }

  /** The lines: each up to a line end, after which all blanks are skipped. */
  function Split(code: string): (lines: seq<string>)
    decreases |code|
  {
    if code == "" then []
    else
      var n := LineEnd(code);
      assert n == 0 ==> SkipSpace(code) == SkipSpace(code[1..]);
      [code[..n]] + Split(SkipSpace(code[n..]))
  }

  /** A line, and what is left of the code behind it. */
  predicate LineBefore(line: string, end: string) {
    OneLine(line) && if end == "" then line != "" else IsEol(end[0])
  }

  lemma FirstLine(code: string) returns (line: string, end: string)
    requires code != ""
    ensures code == line + end && LineBefore(line, end)
  {
    line, end := code[..LineEnd(code)], code[LineEnd(code)..];
  }

  lemma LineEndBefore(line: string, end: string)
    requires LineBefore(line, end)
    ensures var s := line + end; LineEnd(s) == |line| && s[..|line|] == line && s[|line|..] == end
    ensures |SkipSpace(end)| < |line + end|
  {
    var s := line + end;
    LineEndIs(s, |line|);
    if end != "" { assert SkipSpace(end) == SkipSpace(end[1..]); }
  }

  lemma SplitFirst(line: string, end: string)
    requires LineBefore(line, end)
    ensures Split(line + end) == [line] + Split(SkipSpace(end))
  {
    LineEndBefore(line, end);
  }

  // ----- indenting

  datatype Kind = Opens | Closes | Turns | Plain

  /** What the line, as it stands in the buffer, starts with. */
  function KindOf(buf: string): Kind {
    if IsPrefix("if", buf) then Opens
    else if IsPrefix("end if", buf) || IsPrefix("endif", buf) then Closes
    else if IsPrefix("else", buf) then Turns
    else Plain
  }

  function Buffer(line: string): string { line + "\n\r" }

  /** A line sent, behind that many tabs. */
  datatype Shown = Shown(tabs: int, line: string)

  /** The tabs in front of a line, */
  function TabsAt(kind: Kind, tabs: int): int { if kind.Closes? || kind.Turns? then tabs - 1 else tabs }

  /** and the count after it; it is never left negative. */
  function TabsAfter(kind: Kind, tabs: int): (t: int)
    ensures t >= 0
  {
    var t := if kind.Opens? then tabs + 1 else if kind.Closes? then tabs - 1 else tabs;
    if t < 0 then 0 else t
  }

  function Printed(tabs: int): nat { if tabs < 0 then 0 else tabs }

  function Indent(lines: seq<string>, tabs: int): (r: seq<Shown>)
    ensures |r| == |lines|
    decreases |lines|
  {
    if lines == [] then []
    else
      var kind := KindOf(Buffer(lines[0]));
      [Shown(Printed(TabsAt(kind, tabs)), Buffer(lines[0]))] + Indent(lines[1..], TabsAfter(kind, tabs))
  }

  /** print_tabs: how many tabs it sends */
  method PrintTabs(tabs: int) returns (sent: nat)
    ensures sent == Printed(tabs)
  {
    var left := tabs;
    sent := 0;
    while left > 0
      invariant sent + Printed(left) == Printed(tabs)
    {
      left := left - 1;
      sent := sent + 1;
    }
  }

  /** The copying loop: one line, and where it ends. */
  method CopyLine(code: string, from: nat) returns (buf: string, placeholder: nat)
    requires from <= |code|
    ensures placeholder == from + LineEnd(code[from..]) && placeholder <= |code|
    ensures buf == code[from..placeholder]
  {
    buf, placeholder := "", from;
    while placeholder < |code| && !IsEol(code[placeholder])
      invariant from <= placeholder <= |code| && buf == code[from..placeholder]
      invariant forall i | from <= i < placeholder :: !IsEol(code[i])
    {
      buf := buf + [code[placeholder]];
      placeholder := placeholder + 1;
    }
    LineEndIs(code[from..], placeholder - from);
  }

  lemma LineEndIs(s: string, n: nat)
    requires n <= |s| && (n < |s| ==> IsEol(s[n])) && forall i | 0 <= i < n :: !IsEol(s[i])
    ensures LineEnd(s) == n
  {
  }

  /** format_code_output but for the colours */
  method FormatCodeOutput(code: string) returns (out: seq<Shown>)
    ensures out == Indent(Split(code), 0)
  {
    var tabs, placeholder := 0, 0;
    out := [];
    while placeholder < |code|
      invariant placeholder <= |code|
      invariant out + Indent(Split(code[placeholder..]), tabs) == Indent(Split(code), 0)
      decreases |code| - placeholder
    {
      var line, p := CopyLine(code, placeholder);
      var q := Skip(code, p);
      Round(code, placeholder, p, q, tabs);
      var kind := KindOf(Buffer(line));
      ghost var at, after := TabsAt(kind, tabs), TabsAfter(kind, tabs);
      if kind.Closes? || kind.Turns? { tabs := tabs - 1; }
      assert tabs == at;
      var sent := PrintTabs(tabs);
      if kind.Opens? || kind.Turns? { tabs := tabs + 1; }
      if tabs < 0 { tabs := 0; }
      assert tabs == after;
      Associate(out, [Shown(sent, Buffer(line))], Indent(Split(code[q..]), tabs));
      out := out + [Shown(sent, Buffer(line))];
      placeholder := q;
    }
  }

  /** What one round adds. */
  lemma Round(code: string, from: nat, p: nat, q: nat, tabs: int)
    requires from < |code| && p == from + LineEnd(code[from..]) && p <= q <= |code| && code[q..] == SkipSpace(code[p..])
    ensures from < q
    ensures var line := code[from..p]; var kind := KindOf(Buffer(line));
            Indent(Split(code[from..]), tabs)
            == [Shown(Printed(TabsAt(kind, tabs)), Buffer(line))] + Indent(Split(code[q..]), TabsAfter(kind, tabs))
  {
    var s, n := code[from..], p - from;
    assert s[..n] == code[from..p] && s[n..] == code[p..];
    var lines := Split(s);
    assert lines[0] == code[from..p] && lines[1..] == Split(code[q..]);
    if p == from { assert IsSpace(code[p]) && code[q..] != code[p..]; }
  }

  // ----- nothing but blanks is lost

  function NonBlank(s: string): string {
    if s == "" then "" else (if IsSpace(s[0]) then "" else [s[0]]) + NonBlank(s[1..])
  }

  function Joined(lines: seq<string>): string {
    if lines == [] then "" else lines[0] + Joined(lines[1..])
  }

  lemma {:induction false} NonBlankSplits(s: string, t: string)
    ensures NonBlank(s + t) == NonBlank(s) + NonBlank(t)
  {
    if s == "" {
      assert s + t == t;
    } else {
      assert (s + t)[1..] == s[1..] + t;
      NonBlankSplits(s[1..], t);
    }
  }

  lemma {:induction false} NonBlankSkips(s: string)
    ensures NonBlank(SkipSpace(s)) == NonBlank(s)
  {
    if s != "" && IsSpace(s[0]) { NonBlankSkips(s[1..]); }
  }

  /** The lines together hold exactly the non-blank characters of the code, in order. */
  lemma {:induction false} NothingIsLost(code: string)
    ensures NonBlank(Joined(Split(code))) == NonBlank(code)
    decreases |code|
  {
    if code != "" {
      var line, end := FirstLine(code);
      var rest := SkipSpace(end);
      LineEndBefore(line, end);
      SplitFirst(line, end);
      NothingIsLost(rest);
      NonBlankSplits(line, Joined(Split(rest)));
      NonBlankSkips(end);
      NonBlankSplits(line, end);
      JoinedFirst(line, Split(rest));
    }
  }

  lemma JoinedFirst(line: string, lines: seq<string>)
    ensures Joined([line] + lines) == line + Joined(lines)
  {
    assert ([line] + lines)[1..] == lines;
  }

  // ----- well-nested code is indented by depth

  /** if ... else ... endif blocks, with any number of elses. */
  datatype Block = Empty | Line(line: string, rest: Block) | If(open: string, body: Block, tail: Tail, rest: Block)
  datatype Tail = EndIf(close: string) | Else(turn: string, body: Block, tail: Tail)

  /** The line begins with the word, in any letter case. */
  predicate Begins(line: string, word: string) {
    |word| <= |line| && LowerAll(line[..|word|]) == word
  }

  predicate Ends(line: string) { Begins(line, "endif") || Begins(line, "end if") }

  /** Every line of a block begins with the word of its place, and the others with none of these. */
  predicate Proper(b: Block) {
    match b
    case Empty => true
    case Line(line, rest) => !Begins(line, "if") && !Ends(line) && !Begins(line, "else") && Proper(rest)
    case If(open, body, tail, rest) => Begins(open, "if") && Proper(body) && ProperTail(tail) && Proper(rest)
  }

  predicate ProperTail(t: Tail) {
    match t
    case EndIf(close) => Ends(close)
    case Else(turn, body, tail) => Begins(turn, "else") && Proper(body) && ProperTail(tail)
  }

  /** str_prefix on a line as it stands in the buffer, for a word of small Latin letters and blanks. */
  lemma PrefixOfBuffer(word: string, line: string)
    requires forall i | 0 <= i < |word| :: word[i] == ' ' || 'a' <= word[i] <= 'z'
    ensures IsPrefix(word, Buffer(line)) <==> Begins(line, word)
  {
    var buf := Buffer(line);
    forall i | 0 <= i < |word| && i < |buf|
      ensures SameLetter(word[i], buf[i]) <==> Lower(buf[i]) == word[i]
    {
    }
    if IsPrefix(word, buf) {
      forall i | 0 <= i < |word|
        ensures i < |line| && Lower(line[i]) == word[i]
      {
        assert SameLetter(word[i], buf[i]);
      }
      if word != "" {
        var last := word[|word| - 1];
        assert |word| <= |line|;
      }
      assert LowerAll(line[..|word|]) == word;
    }
    if Begins(line, word) {
      forall i | 0 <= i < |word|
        ensures SameLetter(word[i], buf[i])
      {
        assert LowerAll(line[..|word|])[i] == word[i];
      }
    }
  }

  /** What a line opens, turns or closes is said by the word it begins with. */
  lemma KindByWord(line: string)
    ensures KindOf(Buffer(line)).Opens? <==> Begins(line, "if")
    ensures KindOf(Buffer(line)).Closes? <==> Ends(line)
    ensures KindOf(Buffer(line)).Turns? <==> Begins(line, "else")
    ensures KindOf(Buffer(line)).Plain? <==> !Begins(line, "if") && !Ends(line) && !Begins(line, "else")
  {
    PrefixOfBuffer("if", line);
    PrefixOfBuffer("end if", line);
    PrefixOfBuffer("endif", line);
    PrefixOfBuffer("else", line);
    if Begins(line, "if") { FirstLetter(line, "if"); }
    if Begins(line, "end if") { FirstLetter(line, "end if"); }
    if Begins(line, "endif") { FirstLetter(line, "endif"); }
    if Begins(line, "else") { FirstLetter(line, "else"); }
  }

  /** No line begins with two words that differ in the first or the second letter. */
  lemma FirstLetter(line: string, word: string)
    requires Begins(line, word) && |word| >= 2
    ensures |line| >= 2 && Lower(line[0]) == word[0] && Lower(line[1]) == word[1]
  {
    assert LowerAll(line[..|word|])[0] == word[0] && LowerAll(line[..|word|])[1] == word[1];
  }

  function Lines(b: Block): seq<string> {
    match b
    case Empty => []
    case Line(line, rest) => [line] + Lines(rest)
    case If(open, body, tail, rest) => [open] + (Lines(body) + (TailLines(tail) + Lines(rest)))
  }

  function TailLines(t: Tail): seq<string> {
    match t
    case EndIf(close) => [close]
    case Else(turn, body, tail) => [turn] + (Lines(body) + TailLines(tail))
  }

  /** Every line at the depth of its block, the bodies one deeper. */
  function Nested(b: Block, depth: nat): seq<Shown> {
    match b
    case Empty => []
    case Line(line, rest) => [Shown(depth, line + "\n\r")] + Nested(rest, depth)
    case If(open, body, tail, rest) =>
      [Shown(depth, open + "\n\r")] + (Nested(body, depth + 1) + (NestedTail(tail, depth) + Nested(rest, depth)))
  }

  function NestedTail(t: Tail, depth: nat): seq<Shown> {
    match t
    case EndIf(close) => [Shown(depth, close + "\n\r")]
    case Else(turn, body, tail) => [Shown(depth, turn + "\n\r")] + (Nested(body, depth + 1) + NestedTail(tail, depth))
  }

  lemma IndentFirst(line: string, more: seq<string>, tabs: int)
    ensures var kind := KindOf(Buffer(line));
            Indent([line] + more, tabs)
            == [Shown(Printed(TabsAt(kind, tabs)), Buffer(line))] + Indent(more, TabsAfter(kind, tabs))
  {
  }

  /** A well-nested block is shown by depth, and leaves the depth as it was for what follows. */
  lemma {:induction false} BlockIsNested(b: Block, depth: nat, more: seq<string>)
    requires Proper(b)
    ensures Indent(Lines(b) + more, depth) == Nested(b, depth) + Indent(more, depth)
    decreases b
  {
    match b
    case Empty =>
      assert [] + more == more;
      assert [] + Indent(more, depth) == Indent(more, depth);
    case Line(line, rest) =>
      KindByWord(line);
      Associate([line], Lines(rest), more);
      IndentFirst(line, Lines(rest) + more, depth);
      BlockIsNested(rest, depth, more);
      Associate([Shown(depth, Buffer(line))], Nested(rest, depth), Indent(more, depth));
    case If(open, body, tail, rest) =>
      var after := TailLines(tail) + (Lines(rest) + more);
      KindByWord(open);
      Associate4([open], Lines(body), TailLines(tail), Lines(rest), more);
      IndentFirst(open, Lines(body) + after, depth);
      BlockIsNested(body, depth + 1, after);
      TailIsNested(tail, depth, Lines(rest) + more);
      BlockIsNested(rest, depth, more);
      Associate4([Shown(depth, Buffer(open))], Nested(body, depth + 1), NestedTail(tail, depth), Nested(rest, depth),
                 Indent(more, depth));
  }

  lemma {:induction false} TailIsNested(t: Tail, depth: nat, more: seq<string>)
    requires ProperTail(t)
    ensures Indent(TailLines(t) + more, depth + 1) == NestedTail(t, depth) + Indent(more, depth)
    decreases t
  {
    match t
    case EndIf(close) =>
      KindByWord(close);
      IndentFirst(close, more, depth + 1);
    case Else(turn, body, tail) =>
      var after := TailLines(tail) + more;
      BlockIsNested(body, depth + 1, after);
      TailIsNested(tail, depth, more);
      ElseIsNested(turn, body, tail, depth, more);
  }

  lemma ElseIsNested(turn: string, body: Block, tail: Tail, depth: nat, more: seq<string>)
    requires ProperTail(Else(turn, body, tail))
    requires var after := TailLines(tail) + more;
             Indent(Lines(body) + after, depth + 1) == Nested(body, depth + 1) + Indent(after, depth + 1)
    requires Indent(TailLines(tail) + more, depth + 1) == NestedTail(tail, depth) + Indent(more, depth)
    ensures Indent(TailLines(Else(turn, body, tail)) + more, depth + 1)
         == NestedTail(Else(turn, body, tail), depth) + Indent(more, depth)
  {
    KindByWord(turn);
    Associate3([turn], Lines(body), TailLines(tail), more);
    IndentFirst(turn, Lines(body) + (TailLines(tail) + more), depth + 1);
    Associate3([Shown(depth, Buffer(turn))], Nested(body, depth + 1), NestedTail(tail, depth), Indent(more, depth));
  }

  /** Outside every block an end or an else is shown without tabs and opens nothing but what follows the else. */
  lemma StrayWord(line: string, more: seq<string>)
    requires Ends(line) || Begins(line, "else")
    ensures Indent([line] + more, 0) == [Shown(0, line + "\n\r")] + Indent(more, 0)
  {
    KindByWord(line);
    IndentFirst(line, more, 0);
  }

  lemma Associate3<T>(a: seq<T>, b: seq<T>, c: seq<T>, d: seq<T>)
    ensures (a + (b + c)) + d == a + (b + (c + d))
  {
  }

  lemma Associate4<T>(a: seq<T>, b: seq<T>, c: seq<T>, d: seq<T>, e: seq<T>)
    ensures (a + (b + (c + d))) + e == a + (b + (c + (d + e)))
  {
  }

  // ----- from the text

  /** The lines as a text, each followed by its padding. */
  function Padded(lines: seq<string>, pads: seq<string>): string
    requires |pads| == |lines|
  {
    if lines == [] then "" else lines[0] + (pads[0] + Padded(lines[1..], pads[1..]))
  }

  /** A line end and any blanks, empty lines and indentation behind it. */
  predicate IsPad(pad: string) { pad != "" && IsEol(pad[0]) && forall i | 0 <= i < |pad| :: IsSpace(pad[i]) }

  predicate Starts(line: string) { line != "" && !IsSpace(line[0]) }

  /** Any first line, then lines that start behind their indentation; only the last may lack its line end. */
  predicate Laid(lines: seq<string>, pads: seq<string>)
    decreases |lines|
  {
    && |pads| == |lines|
    && (lines != [] ==>
          && OneLine(lines[0])
          && (IsPad(pads[0]) || (|lines| == 1 && pads[0] == "" && lines[0] != ""))
          && (|lines| > 1 ==> Starts(lines[1]))
          && Laid(lines[1..], pads[1..]))
  }

  /** Splitting recovers the lines, however they are indented and spaced. */
  lemma {:induction false} SplitText(lines: seq<string>, pads: seq<string>)
    requires Laid(lines, pads)
    ensures Split(Padded(lines, pads)) == lines
    decreases |lines|
  {
    if lines != [] {
      var rest := Padded(lines[1..], pads[1..]);
      SplitText(lines[1..], pads[1..]);
      if |lines| > 1 { PaddedStarts(lines[1..], pads[1..]); }
      SkipsAll(pads[0], rest);
      SplitFirst(lines[0], pads[0] + rest);
    }
  }

  lemma PaddedStarts(lines: seq<string>, pads: seq<string>)
    requires |pads| == |lines| && lines != [] && Starts(lines[0])
    ensures SkipSpace(Padded(lines, pads)) == Padded(lines, pads)
  {
    assert Padded(lines, pads)[0] == lines[0][0];
  }

  /** What stands between the lines. */
  function PadsOf(code: string): seq<string>
    decreases |code|
  {
    if code == "" then []
    else
      var end := code[LineEnd(code)..];
      var rest := SkipSpace(end);
      assert |end| == |code| ==> SkipSpace(code) == SkipSpace(code[1..]);
      [end[..|end| - |rest|]] + PadsOf(rest)
  }

  lemma SplitStarts(code: string)
    requires code != "" && !IsSpace(code[0])
    ensures Starts(Split(code)[0])
  {
    assert LineEnd(code) > 0;
  }

  lemma FirstPad(line: string, end: string, pad: string)
    requires LineBefore(line, end) && pad == end[..|end| - |SkipSpace(end)|]
    ensures IsPad(pad) || (pad == "" && end == "")
    ensures end == pad + SkipSpace(end)
    ensures PadsOf(line + end) == [pad] + PadsOf(SkipSpace(end))
  {
    LineEndBefore(line, end);
    SkippedIsSpace(end);
    if end != "" { assert SkipSpace(end) == SkipSpace(end[1..]); }
  }

  lemma LaidBehind(line: string, pad: string, lines: seq<string>, pads: seq<string>)
    requires Laid(lines, pads) && OneLine(line) && (lines != [] ==> Starts(lines[0]))
    requires IsPad(pad) || (pad == "" && lines == [] && line != "")
    ensures Laid([line] + lines, [pad] + pads)
    ensures Padded([line] + lines, [pad] + pads) == line + (pad + Padded(lines, pads))
  {
    assert ([line] + lines)[1..] == lines && ([pad] + pads)[1..] == pads;
  }

  /** Every text is laid out lines, and Split finds them. */
  lemma {:induction false} EveryTextIsLaid(code: string)
    ensures Laid(Split(code), PadsOf(code)) && Padded(Split(code), PadsOf(code)) == code
    decreases |code|
  {
    if code != "" {
      var line, end := FirstLine(code);
      var rest := SkipSpace(end);
      var pad := end[..|end| - |rest|];
      LineEndBefore(line, end);
      SplitFirst(line, end);
      FirstPad(line, end, pad);
      EveryTextIsLaid(rest);
      if rest != "" { SplitStarts(rest); }
      LaidBehind(line, pad, Split(rest), PadsOf(rest));
    }
  }

  /** A text is split into these lines exactly if it is these lines, laid out in some way. */
  lemma SplitIff(code: string, lines: seq<string>)
    ensures Split(code) == lines <==> exists pads :: Laid(lines, pads) && Padded(lines, pads) == code
  {
    EveryTextIsLaid(code);
    if pads :| Laid(lines, pads) && Padded(lines, pads) == code { SplitText(lines, pads); }
  }

  /** Well-nested code is listed with every line at its depth, however it was indented and spaced. */
  lemma WellNestedIsIndented(b: Block, pads: seq<string>)
    requires Proper(b) && Laid(Lines(b), pads)
    ensures Indent(Split(Padded(Lines(b), pads)), 0) == Nested(b, 0)
  {
    SplitText(Lines(b), pads);
    BlockIsNested(b, 0, []);
    assert Lines(b) + [] == Lines(b);
    assert Nested(b, 0) + Indent([], 0) == Nested(b, 0);
  }

  // ----- listing a listing

  function Blanks(tabs: int): (b: string)
    ensures forall i | 0 <= i < |b| :: IsSpace(b[i])
  {
    if tabs <= 0 then "" else "    " + Blanks(tabs - 1)
  }

  /** What is sent: four blanks for each tab, and the line. */
  function Listing(out: seq<Shown>): string {
    if out == [] then "" else Blanks(out[0].tabs) + (out[0].line + Listing(out[1..]))
  }

  /** The padding a listing puts behind the lines. */
  function ListingPads(lines: seq<string>, tabs: int): (pads: seq<string>)
    ensures |pads| == |lines|
    decreases |lines|
  {
    if lines == [] then []
    else
      var out := Indent(lines, tabs);
      var more := TabsAfter(KindOf(Buffer(lines[0])), tabs);
      ["\n\r" + if |lines| > 1 then Blanks(out[1].tabs) else ""] + ListingPads(lines[1..], more)
  }

  lemma ListedFirst(line: string, blanks: string, rest: string)
    ensures Buffer(line) + (blanks + rest) == line + (("\n\r" + blanks) + rest)
  {
  }

  lemma {:induction false} ListingIsLaid(lines: seq<string>, pads: seq<string>, tabs: int)
    requires Laid(lines, pads)
    ensures Laid(lines, ListingPads(lines, tabs))
    ensures lines != [] ==>
      Listing(Indent(lines, tabs)) == Blanks(Indent(lines, tabs)[0].tabs) + Padded(lines, ListingPads(lines, tabs))
    decreases |lines|
  {
    if lines != [] {
      var more := TabsAfter(KindOf(Buffer(lines[0])), tabs);
      var out, rest := Indent(lines, tabs), lines[1..];
      assert out[1..] == Indent(rest, more);
      ListingIsLaid(rest, pads[1..], more);
      var blanks := if rest == [] then "" else Blanks(out[1].tabs);
      var behind := ListingPads(rest, more);
      LaidBehind(lines[0], "\n\r" + blanks, rest, behind);
      assert lines == [lines[0]] + rest;
      assert Listing(out[1..]) == blanks + Padded(rest, behind);
      ListedFirst(lines[0], blanks, Padded(rest, behind));
    }
  }

  /** The listing of any code, given to the lister, comes out as it is. */
  lemma ListingIsListed(code: string)
    ensures Split(Listing(Indent(Split(code), 0))) == Split(code)
    ensures Indent(Split(Listing(Indent(Split(code), 0))), 0) == Indent(Split(code), 0)
  {
    var lines := Split(code);
    if lines != [] {
      EveryTextIsLaid(code);
      ListingIsLaid(lines, PadsOf(code), 0);
      assert Indent(lines, 0)[0].tabs == 0;
      SplitText(lines, ListingPads(lines, 0));
      var j := Padded(lines, ListingPads(lines, 0));
      assert "" + j == j;
    }
  }
}
