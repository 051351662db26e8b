/**
 Printing a flag word as names and parsing it back: fflag_string and flag_value
 (src/flags.c) over flag_lookup (src/lookup.c), for flag tables, that is, tables that
 is_stat does not single out.
 */
module FlagText {
  import opened Text
  import opened FlagBits

  // ----- flag_lookup

  predicate Matches(word: string, f: Flag) {
    Abbreviates(word, f.name) || Abbreviates(word, f.rname)
  }

  function FirstMatch(word: string, flags: seq<Flag>): (i: nat)
    ensures i <= |flags| && (i < |flags| ==> Matches(word, flags[i]))
    ensures forall j | 0 <= j < i :: !Matches(word, flags[j])
  {
    if flags == [] || Matches(word, flags[0]) then 0 else 1 + FirstMatch(word, flags[1..])
  }

  lemma FirstMatchIs(word: string, flags: seq<Flag>, i: nat)
    requires i <= |flags| && (i < |flags| ==> Matches(word, flags[i]))
    requires forall j | 0 <= j < i :: !Matches(word, flags[j])
    ensures FirstMatch(word, flags) == i
  {
  }

  datatype Found = NoFlag | Found(bit: Bit)

  function Lookup(word: string, flags: seq<Flag>): Found {
    var i := FirstMatch(word, flags);
    if i < |flags| then Found(flags[i].bit) else NoFlag
  }

  method FlagLookup(name: string, flags: seq<Flag>) returns (r: Found)
    ensures r == Lookup(name, flags)
  {
    if name == "" {
      FirstMatchIs(name, flags, |flags|);
      return NoFlag;
    }
    for flag := 0 to |flags|
      invariant forall j | 0 <= j < flag :: !Matches(name, flags[j])
    {
      if Matches(name, flags[flag]) {
        FirstMatchIs(name, flags, flag);
        return Found(flags[flag].bit);
      }
    }
    FirstMatchIs(name, flags, |flags|);
    return NoFlag;
  }

  // ----- flag_value

  /** The bits of all words that name a flag, and whether there was one. */
  datatype Marks = Marks(marked: Word, found: bool)

  function Parse(flags: seq<Flag>, s: string, sofar: Marks): Marks
    decreases |s|
  {
    var a := OneArgument(s);
    if a.word == "" then sofar else Parse(flags, a.rest, Mark(flags, a.word, sofar))
  }

  function Mark(flags: seq<Flag>, word: string, sofar: Marks): Marks {
    match Lookup(word, flags)
    case NoFlag => sofar
    case Found(b) => Marks(sofar.marked + {b}, true)
  }

  datatype Value = Unknown | Known(word: Word)

  /** NULL and empty strings are the empty word; a text without any known name is unknown. */
  function ValueOf(flags: seq<Flag>, argument: string): Value {
    if argument == "" then Known({})
    else
      var m := Parse(flags, argument, Marks({}, false));
      if m.found then Known(m.marked) else Unknown
  }

  method FlagValue(flags: seq<Flag>, argument: string) returns (r: Value)
    ensures r == ValueOf(flags, argument)
  {
    if argument == "" { return Known({}); }
    var s, marked, found := argument, {}, false;
    while true
      invariant Parse(flags, s, Marks(marked, found)) == Parse(flags, argument, Marks({}, false))
      decreases |s|
    {
      var word, rest := SplitArgument(s);
      assert Argument(word, rest) == OneArgument(s);
      s := rest;
      if word == "" { break; }
      var bit := FlagLookup(word, flags);
      if bit.Found? {
        marked := marked + {bit.bit};
        found := true;
      }
    }
    r := if found then Known(marked) else Unknown;
  }

  // ----- fflag_string

  /** The names of the set bits of flags[k..], each after a blank. */
  function Names(flags: seq<Flag>, bits: Word, k: nat): string
    requires k <= |flags|
    decreases |flags| - k
  {
    if k == |flags| then ""
    else (if flags[k].bit in bits then " " + flags[k].name else "") + Names(flags, bits, k + 1)
  }

  function StringOf(flags: seq<Flag>, bits: Word, emptyNone: bool): string {
    var buf := Names(flags, bits, 0);
    if buf != "" then buf[1..] else if emptyNone then "none" else ""
  }

  /** fflag_string with rname FALSE. */
  method FlagString(flags: seq<Flag>, bits: Word, emptyNone: bool) returns (r: string)
    ensures r == StringOf(flags, bits, emptyNone)
  {
    var buf := "";
    for flag := 0 to |flags|
      invariant buf + Names(flags, bits, flag) == Names(flags, bits, 0)
    {
      if flags[flag].bit in bits {
        Regroup(buf, " " + flags[flag].name, Names(flags, bits, flag + 1));
        buf := buf + " ";
        buf := buf + flags[flag].name;
      }
    }
    assert buf + "" == buf;
    r := if buf != "" then buf[1..] else if emptyNone then "none" else "";
  }

  lemma Regroup(a: string, b: string, c: string)
    ensures a + (b + c) == (a + b) + c
    ensures b != "" ==> (a + [b[0]]) + b[1..] == a + b
  {
  }

  // ----- round trip

  /** Names that one_argument takes apart again. */
  ghost predicate Spelled(flags: seq<Flag>) {
    forall i | 0 <= i < |flags| :: OneWord(flags[i].name)
  }

  /** No entry's name is an abbreviation of an earlier entry's name or rname. */
  ghost predicate Unshadowed(flags: seq<Flag>) {
    forall i, j | 0 <= i < j < |flags| :: !Matches(flags[j].name, flags[i])
  }

  lemma LowerMatches(word: string, f: Flag)
    ensures Matches(LowerAll(word), f) == Matches(word, f)
  {
  }

  lemma NameIsFound(flags: seq<Flag>, j: nat)
    requires j < |flags| && Spelled(flags)
    requires forall i | 0 <= i < j :: !Matches(flags[j].name, flags[i])
    ensures Lookup(LowerAll(flags[j].name), flags) == Found(flags[j].bit)
  {
  }

  /** The bits of flags[k..] that are set. */
  function Part(flags: seq<Flag>, bits: Word, k: nat): Word
    requires k <= |flags|
    decreases |flags| - k
  {
    if k == |flags| then {}
    else (if flags[k].bit in bits then {flags[k].bit} else {}) + Part(flags, bits, k + 1)
  }

  lemma {:induction false} PartIsMasked(flags: seq<Flag>, bits: Word, k: nat)
    requires k <= |flags|
    ensures forall b: Bit ::
              b in Part(flags, bits, k) <==> b in bits && exists i | k <= i < |flags| :: flags[i].bit == b
    decreases |flags| - k
  {
    if k < |flags| { PartIsMasked(flags, bits, k + 1); }
  }

  lemma SkippedName(flags: seq<Flag>, bits: Word, k: nat)
    requires k < |flags| && flags[k].bit !in bits
    ensures Names(flags, bits, k) == Names(flags, bits, k + 1)
  {
  }

  lemma BlankFirst(name: string, more: string)
    requires OneWord(name)
    ensures var s := (" " + name) + more; |s| > 1 && s[0] == ' ' && s[1] == name[0]
  {
  }

  lemma {:induction false} NamesStart(flags: seq<Flag>, bits: Word, k: nat)
    requires k <= |flags| && Spelled(flags)
    ensures var s := Names(flags, bits, k);
            s != "" ==> |s| > 1 && s[0] == ' ' && !IsSpace(s[1])
    ensures Names(flags, bits, k) == "" <==> Part(flags, bits, k) == {}
    decreases |flags| - k
  {
    if k < |flags| {
      NamesStart(flags, bits, k + 1);
      if flags[k].bit in bits {
        BlankFirst(flags[k].name, Names(flags, bits, k + 1));
      } else {
        SkippedName(flags, bits, k);
      }
    }
  }

  /** The parser's round for the last printed name, */
  lemma ParseLast(flags: seq<Flag>, k: nat, sofar: Marks)
    requires k < |flags| && Spelled(flags) && Unshadowed(flags)
    ensures Parse(flags, flags[k].name, sofar) == Marks(sofar.marked + {flags[k].bit}, true)
  {
    var marks := Marks(sofar.marked + {flags[k].bit}, true);
    MarkName(flags, k, sofar);
    WordAlone(flags[k].name);
    assert Parse(flags, "", marks) == marks by { assert OneArgument("").word == ""; }
  }

  /** and for one that is followed by a blank and more. */
  lemma ParseNext(flags: seq<Flag>, k: nat, more: string, sofar: Marks)
    requires k < |flags| && Spelled(flags) && Unshadowed(flags)
    requires more != "" && !IsSpace(more[0])
    ensures Parse(flags, flags[k].name + " " + more, sofar)
         == Parse(flags, more, Marks(sofar.marked + {flags[k].bit}, true))
  {
    MarkName(flags, k, sofar);
    WordSplitsOff(flags[k].name, more);
  }

  lemma MarkName(flags: seq<Flag>, k: nat, sofar: Marks)
    requires k < |flags| && Spelled(flags) && Unshadowed(flags)
    ensures LowerAll(flags[k].name) != ""
    ensures Mark(flags, LowerAll(flags[k].name), sofar) == Marks(sofar.marked + {flags[k].bit}, true)
  {
  }

  /** Parsing the printed names of flags[k..] marks exactly their bits. */
  lemma {:induction false} ParsePrinted(flags: seq<Flag>, bits: Word, k: nat, sofar: Marks)
    requires k <= |flags| && Spelled(flags) && Unshadowed(flags) && Names(flags, bits, k) != ""
    ensures Parse(flags, Names(flags, bits, k)[1..], sofar) == Marks(sofar.marked + Part(flags, bits, k), true)
    decreases |flags| - k
  {
    if flags[k].bit in bits {
      var more, marks := Names(flags, bits, k + 1), Marks(sofar.marked + {flags[k].bit}, true);
      NamesStart(flags, bits, k + 1);
      Printed(flags[k].name, more);
      assert marks.marked + Part(flags, bits, k + 1) == sofar.marked + Part(flags, bits, k);
      if more == "" {
        ParseLast(flags, k, sofar);
      } else {
        ParseNext(flags, k, more[1..], sofar);
        ParsePrinted(flags, bits, k + 1, marks);
      }
    } else {
      ParsePrinted(flags, bits, k + 1, sofar);
      SkippedName(flags, bits, k);
      assert {} + Part(flags, bits, k + 1) == Part(flags, bits, k + 1);
    }
  }

  lemma Printed(name: string, more: string)
    ensures more == "" ==> (" " + name + more)[1..] == name
    ensures more != "" && more[0] == ' ' ==> (" " + name + more)[1..] == name + " " + more[1..]
  {
  }

  lemma PrintedIsParsed(flags: seq<Flag>, bits: Word)
    requires Spelled(flags) && Unshadowed(flags)
    ensures ValueOf(flags, StringOf(flags, bits, false)) == Known(bits * Mask(flags))
  {
    NamesStart(flags, bits, 0);
    PartIsMasked(flags, bits, 0);
    assert Part(flags, bits, 0) == bits * Mask(flags);
    if Names(flags, bits, 0) != "" {
      ParsePrinted(flags, bits, 0, Marks({}, false));
    }
  }

  /** The text of a single bit is its name. */
  lemma {:induction false} SingleName(flags: seq<Flag>, j: nat, k: nat)
    requires j < |flags| && k <= |flags| && Distinguished(flags)
    ensures Names(flags, {flags[j].bit}, k) == if k <= j then " " + flags[j].name else ""
    decreases |flags| - k
  {
    if k < |flags| {
      SingleName(flags, j, k + 1);
      if k == j {
        assert " " + flags[j].name + "" == " " + flags[j].name;
      } else {
        SkippedName(flags, {flags[j].bit}, k);
      }
    }
  }

  /** A shadowed name is read back as an earlier entry's bit. */
  lemma ShadowedIsMisread(flags: seq<Flag>, i: nat, j: nat)
    requires Distinguished(flags) && Spelled(flags) && i < j < |flags| && Matches(flags[j].name, flags[i])
    ensures ValueOf(flags, StringOf(flags, {flags[j].bit}, false)) != Known({flags[j].bit} * Mask(flags))
  {
    var name := flags[j].name;
    SingleName(flags, j, 0);
    assert (" " + name)[1..] == name;
    WordAlone(name);
    LowerMatches(name, flags[i]);
    var first := FirstMatch(LowerAll(name), flags);
    assert first <= i;
    assert Parse(flags, name, Marks({}, false)) == Marks({flags[first].bit}, true) by {
      assert OneArgument("").word == "";
    }
  }

  /** flag_value of fflag_string gives every word's table bits back, the empty ones included, exactly
      if no entry's name abbreviates an earlier entry's name or rname. */
  lemma RoundTrip(flags: seq<Flag>)
    requires Distinguished(flags) && Spelled(flags)
    ensures (forall bits: Word :: ValueOf(flags, StringOf(flags, bits, false)) == Known(bits * Mask(flags)))
            <==> Unshadowed(flags)
  {
    if Unshadowed(flags) {
      forall bits: Word
        ensures ValueOf(flags, StringOf(flags, bits, false)) == Known(bits * Mask(flags))
      {
        PrintedIsParsed(flags, bits);
      }
    } else {
      var i, j :| 0 <= i < j < |flags| && Matches(flags[j].name, flags[i]);
      ShadowedIsMisread(flags, i, j);
    }
  }

  // ----- the text "none"

  /** The first name printed ends the text or is followed by a blank. */
  lemma {:induction false} FirstPrinted(flags: seq<Flag>, bits: Word, k: nat) returns (j: nat)
    requires k <= |flags| && Spelled(flags) && Names(flags, bits, k) != ""
    ensures k <= j < |flags| && flags[j].bit in bits
    ensures Names(flags, bits, k) == " " + flags[j].name + Names(flags, bits, j + 1)
    decreases |flags| - k
  {
    if flags[k].bit in bits {
      j := k;
    } else {
      SkippedName(flags, bits, k);
      j := FirstPrinted(flags, bits, k + 1);
    }
  }

  /** fflag_string with empty_none, as flag_string calls it, answers "none" for the words without a table
      bit, and for the others what it answers without empty_none. */
  lemma NoneIfEmpty(flags: seq<Flag>, bits: Word)
    requires Spelled(flags)
    ensures StringOf(flags, bits, true)
         == if bits * Mask(flags) == {} then "none" else StringOf(flags, bits, false)
    ensures StringOf(flags, bits, false) == "" <==> bits * Mask(flags) == {}
  {
    NamesStart(flags, bits, 0);
    PartIsMasked(flags, bits, 0);
    assert Part(flags, bits, 0) == bits * Mask(flags);
  }

  /** In a table without an entry of that name, "none" says that no table bit is set. */
  lemma NoneIffEmpty(flags: seq<Flag>, bits: Word)
    requires Spelled(flags) && forall i | 0 <= i < |flags| :: flags[i].name != "none"
    ensures StringOf(flags, bits, true) == "none" <==> bits * Mask(flags) == {}
  {
    NoneIfEmpty(flags, bits);
    NamesStart(flags, bits, 0);
    var buf := Names(flags, bits, 0);
    if buf != "" && buf[1..] == "none" {
      var j := FirstPrinted(flags, bits, 0);
      NamesStart(flags, bits, j + 1);
      NoBlankInNone(flags[j].name, Names(flags, bits, j + 1));
    }
  }

  lemma NoBlankInNone(name: string, more: string)
    requires more == "" || more[0] == ' '
    ensures (" " + name + more)[1..] == "none" ==> name == "none"
  {
    var t := (" " + name + more)[1..];
    assert if more == "" then t == name else |name| < |t| && t[|name|] == ' ';
  }

  /** What flag_string prints is parsed back for every word with a table bit set, exactly if the table is
      unshadowed; */
  lemma RoundTripWithNone(flags: seq<Flag>)
    requires Distinguished(flags) && Spelled(flags)
    ensures (forall bits: Word :: bits * Mask(flags) != {} ==>
               ValueOf(flags, StringOf(flags, bits, true)) == Known(bits * Mask(flags)))
            <==> Unshadowed(flags)
  {
    forall bits: Word | bits * Mask(flags) != {}
      ensures StringOf(flags, bits, true) == StringOf(flags, bits, false)
      ensures Unshadowed(flags) ==> ValueOf(flags, StringOf(flags, bits, true)) == Known(bits * Mask(flags))
    {
      NoneIfEmpty(flags, bits);
      if Unshadowed(flags) { PrintedIsParsed(flags, bits); }
    }
    if !Unshadowed(flags) {
      var i, j :| 0 <= i < j < |flags| && Matches(flags[j].name, flags[i]);
      ShadowedIsMisread(flags, i, j);
      assert flags[j].bit in {flags[j].bit} * Mask(flags);
    }
  }

  /** and "none" is read as no flag at all, exactly if it abbreviates no entry. */
  lemma NoneIsUnknown(flags: seq<Flag>)
    ensures ValueOf(flags, "none") == Unknown <==> forall i | 0 <= i < |flags| :: !Matches("none", flags[i])
  {
    assert LowerAll("none") == "none";
    WordAlone("none");
    assert Parse(flags, "none", Marks({}, false)) == Mark(flags, "none", Marks({}, false)) by {
      assert OneArgument("").word == "";
    }
  }

  // ----- any words

  function Spaced(words: seq<string>): string {
    if words == [] then "" else if |words| == 1 then words[0] else words[0] + " " + Spaced(words[1..])
  }

  /** What the words of a text name. */
  function Looked(flags: seq<Flag>, words: seq<string>): (fs: seq<Found>)
    ensures |fs| == |words| && forall i | 0 <= i < |fs| :: fs[i] == Lookup(LowerAll(words[i]), flags)
  {
    seq(|words|, i requires 0 <= i < |words| => Lookup(LowerAll(words[i]), flags))
  }

  /** Words that name no flag do not count. */
  function NamedBits(fs: seq<Found>): Word {
    set i | 0 <= i < |fs| && fs[i].Found? :: fs[i].bit
  }

  predicate NamesOne(fs: seq<Found>) { exists i | 0 <= i < |fs| :: fs[i].Found? }

  lemma SpacedStarts(words: seq<string>)
    requires words != [] && forall i | 0 <= i < |words| :: OneWord(words[i])
    ensures Spaced(words) != "" && !IsSpace(Spaced(words)[0])
  {
    assert OneWord(words[0]);
    assert Spaced(words)[0] == words[0][0];
  }

  lemma MoreNamed(f: Found, fs: seq<Found>)
    ensures NamedBits([f] + fs) == (if f.Found? then {f.bit} else {}) + NamedBits(fs)
    ensures NamesOne([f] + fs) <==> f.Found? || NamesOne(fs)
  {
    var t := [f] + fs;
    assert t[0] == f && forall i | 0 <= i < |fs| :: t[i + 1] == fs[i];
    forall b: Bit
      ensures b in NamedBits(t) <==> f == Found(b) || b in NamedBits(fs)
    {
      if b in NamedBits(fs) {
        var i :| 0 <= i < |fs| && fs[i] == Found(b);
        assert t[i + 1] == Found(b);
      }
      if b in NamedBits(t) {
        var i :| 0 <= i < |t| && t[i] == Found(b);
        if i > 0 { assert fs[i - 1] == Found(b); }
      }
    }
    if i :| 0 <= i < |fs| && fs[i].Found? { assert t[i + 1].Found?; }
    if i :| 0 < i < |t| && t[i].Found? { assert fs[i - 1].Found?; }
  }

  lemma {:induction false} WordsAreMarked(flags: seq<Flag>, words: seq<string>, sofar: Marks)
    requires forall i | 0 <= i < |words| :: OneWord(words[i])
    ensures var fs := Looked(flags, words);
            Parse(flags, Spaced(words), sofar) == Marks(sofar.marked + NamedBits(fs), sofar.found || NamesOne(fs))
    decreases |words|
  {
    if words == [] {
      assert OneArgument("").word == "";
      assert sofar.marked + {} == sofar.marked;
    } else {
      var rest := words[1..];
      var f, fs := Lookup(LowerAll(words[0]), flags), Looked(flags, rest);
      assert Looked(flags, words) == [f] + fs;
      MoreNamed(f, fs);
      var marks := Mark(flags, LowerAll(words[0]), sofar);
      WordsAreMarked(flags, rest, marks);
      assert marks.marked + NamedBits(fs) == sofar.marked + NamedBits([f] + fs);
      if rest == [] {
        WordAlone(words[0]);
      } else {
        SpacedStarts(rest);
        WordSplitsOff(words[0], Spaced(rest));
      }
    }
  }

  /** A text of words is the union of the bits its words name, and unknown if no word names one. */
  lemma WordsAreRead(flags: seq<Flag>, words: seq<string>)
    requires words != [] && forall i | 0 <= i < |words| :: OneWord(words[i])
    ensures var fs := Looked(flags, words);
            ValueOf(flags, Spaced(words)) == if NamesOne(fs) then Known(NamedBits(fs)) else Unknown
  {
    SpacedStarts(words);
    WordsAreMarked(flags, words, Marks({}, false));
    assert {} + NamedBits(Looked(flags, words)) == NamedBits(Looked(flags, words));
  }
}
