/**
 What saving and loading the skill-group file does to the table: each group's non-empty
 spells move to the front, and nothing else changes, exactly if every string in the
 table survives the file format.
 */
module GroupRoundTrip {
  import opened Seqs
  import opened Text
  import opened FileText
  import opened GroupFile

  function NonEmpty(spells: seq<string>): (r: seq<string>)
    ensures |r| <= |spells|
  {
    if spells == [] then [] else (if spells[0] == "" then [] else [spells[0]]) + NonEmpty(spells[1..])
  }

  /** The non-empty spells first, in order. */
  function Compact(g: Group): (r: Group)
    requires WellFormed(g)
    ensures WellFormed(r)
  {
    g.(spells := NonEmpty(g.spells) + Blanks(MAX_IN_GROUP - |NonEmpty(g.spells)|))
  }

  ghost predicate WellFormedTable(t: seq<Group>) {
    forall i | 0 <= i < |t| :: WellFormed(t[i])
  }

  function CompactAll(t: seq<Group>): (r: seq<Group>)
    requires WellFormedTable(t)
    ensures |r| == |t| && forall i | 0 <= i < |t| :: r[i] == Compact(t[i])
  {
    if t == [] then [] else [Compact(t[0])] + CompactAll(t[1..])
  }

  ghost predicate CleanGroup(g: Group) {
    Clean(g.name) && Clean(g.rname) && forall i | 0 <= i < |g.spells| :: Clean(g.spells[i])
  }

  ghost predicate CleanTable(t: seq<Group>) {
    forall i | 0 <= i < |t| :: CleanGroup(t[i])
  }

  // ----- one line at a time

  lemma ParseSkipsNewline(s: string, g: Group, n: nat)
    requires WellFormed(g)
    ensures ParseGroup("\n" + s, g, n) == ParseGroup(s, g, n)
  {
    WordSkipsSpace("\n", s);
  }

  /** The reader's view of a line whose value is clean. */
  lemma LineIsRead(key: string, pad: string, v: string, rest: string)
    requires key != "" && !IsQuote(key[0]) && forall i | 0 <= i < |key| :: !IsSpace(key[i])
    requires pad != "" && forall i | 0 <= i < |pad| :: IsSpace(pad[i])
    requires Clean(v)
    ensures ReadWord(Line(key, pad, v, rest)).Got? && ReadWord(Line(key, pad, v, rest)).text == key
    ensures ReadString(ReadWord(Line(key, pad, v, rest)).rest) == Got(v, "\n" + rest)
  {
    var tail := pad + (v + ("~" + ("\n" + rest)));
    assert tail[0] == pad[0];
    WordIsRead(key, tail);
    CleanIsRead(pad, v, "\n" + rest);
  }

  lemma NameLine(v: string, rest: string, g: Group, n: nat)
    requires Clean(v) && WellFormed(g)
    ensures ParseGroup(Line("Name", "   ", v, rest), g, n) == ParseGroup(rest, g.(name := v), n)
  {
    LineIsRead("Name", "   ", v, rest);
    ParseSkipsNewline(rest, g.(name := v), n);
  }

  lemma RNameLine(v: string, rest: string, g: Group, n: nat)
    requires Clean(v) && WellFormed(g)
    ensures ParseGroup(Line("RName", "  ", v, rest), g, n) == ParseGroup(rest, g.(rname := v), n)
  {
    LineIsRead("RName", "  ", v, rest);
    ParseSkipsNewline(rest, g.(rname := v), n);
  }

  lemma SpellLine(v: string, rest: string, g: Group, n: nat)
    requires Clean(v) && WellFormed(g) && n < MAX_IN_GROUP
    ensures ParseGroup(Line("Spell", "  ", v, rest), g, n) == ParseGroup(rest, g.(spells := g.spells[n := v]), n + 1)
  {
    LineIsRead("Spell", "  ", v, rest);
    ParseSkipsNewline(rest, g.(spells := g.spells[n := v]), n + 1);
  }

  function Overwrite(s: seq<string>, n: nat, xs: seq<string>): (r: seq<string>)
    requires n + |xs| <= |s|
    ensures |r| == |s|
  {
    s[..n] + xs + s[n + |xs|..]
  }

  lemma OverwriteFirst(s: seq<string>, n: nat, x: string, xs: seq<string>)
    requires n + 1 + |xs| <= |s|
    ensures Overwrite(s[n := x], n + 1, xs) == Overwrite(s, n, [x] + xs)
  {
  }

  lemma NonEmptyStep(spells: seq<string>)
    requires spells != []
    ensures NonEmpty(spells) == if spells[0] == "" then NonEmpty(spells[1..]) else [spells[0]] + NonEmpty(spells[1..])
  {
  }

  lemma OverwriteNone(s: seq<string>, n: nat)
    requires n <= |s|
    ensures Overwrite(s, n, []) == s
  {
  }

  /** The reader after the spell lines, xs being the non-empty ones. */
  ghost predicate SpellsTaken(spells: seq<string>, rest: string, g: Group, n: nat, xs: seq<string>)
    requires WellFormed(g) && n + |xs| <= MAX_IN_GROUP
  {
    ParseGroup(SpellLines(spells, rest), g, n) == ParseGroup(rest, g.(spells := Overwrite(g.spells, n, xs)), n + |xs|)
  }

  lemma {:induction false} SpellsAreRead(spells: seq<string>, rest: string, g: Group, n: nat)
    requires WellFormed(g) && n + |NonEmpty(spells)| <= MAX_IN_GROUP
    requires forall i | 0 <= i < |spells| :: Clean(spells[i])
    ensures SpellsTaken(spells, rest, g, n, NonEmpty(spells))
  {
    if spells == [] {
      OverwriteNone(g.spells, n);
    } else {
      NonEmptyStep(spells);
      if spells[0] == "" {
        SpellsAreRead(spells[1..], rest, g, n);
      } else {
        SpellLine(spells[0], SpellLines(spells[1..], rest), g, n);
        SpellsAreRead(spells[1..], rest, g.(spells := g.spells[n := spells[0]]), n + 1);
        OverwriteFirst(g.spells, n, spells[0], NonEmpty(spells[1..]));
      }
    }
  }

  // ----- one group, and the file

  lemma EndIsRead(rest: string, g: Group, n: nat)
    requires WellFormed(g)
    ensures ParseGroup("End" + ("\n\n" + rest), g, n) == Parsed(g, "\n\n" + rest)
  {
    assert ("\n\n" + rest)[0] == '\n';
    WordIsRead("End", "\n\n" + rest);
  }

  lemma OverwriteBlanks(xs: seq<string>)
    requires |xs| <= MAX_IN_GROUP
    ensures Overwrite(Blanks(MAX_IN_GROUP), 0, xs) == xs + Blanks(MAX_IN_GROUP - |xs|)
  {
  }

  lemma BodyIsRead(g: Group, rest: string)
    requires WellFormed(g) && CleanGroup(g)
    ensures ParseGroup(SpellLines(g.spells, "End" + ("\n\n" + rest)), EMPTY_GROUP.(name := g.name, rname := g.rname), 0)
         == Parsed(Compact(g), "\n\n" + rest)
  {
    var tail, start := "End" + ("\n\n" + rest), EMPTY_GROUP.(name := g.name, rname := g.rname);
    SpellsAreRead(g.spells, tail, start, 0);
    OverwriteBlanks(NonEmpty(g.spells));
    assert start.(spells := Overwrite(start.spells, 0, NonEmpty(g.spells))) == Compact(g);
    assert ParseGroup(SpellLines(g.spells, tail), start, 0) == ParseGroup(tail, Compact(g), |NonEmpty(g.spells)|);
    EndIsRead(rest, Compact(g), |NonEmpty(g.spells)|);
  }

  lemma GroupIsRead(g: Group, rest: string)
    requires WellFormed(g) && CleanGroup(g)
    ensures ParseGroup(GroupText(g, rest), EMPTY_GROUP, 0) == Parsed(Compact(g), "\n\n" + rest)
  {
    var spellLines := SpellLines(g.spells, "End" + ("\n\n" + rest));
    NameLine(g.name, Line("RName", "  ", g.rname, spellLines), EMPTY_GROUP, 0);
    RNameLine(g.rname, spellLines, EMPTY_GROUP.(name := g.name), 0);
    BodyIsRead(g, rest);
  }

  lemma ParseFileSkipsSpace(pad: string, s: string, sofar: seq<Group>)
    requires forall i | 0 <= i < |pad| :: IsSpace(pad[i])
    ensures ParseFile(pad + s, sofar) == ParseFile(s, sofar)
  {
    SkipsAll(pad, s);
  }

  /** A section: whatever its body parses to joins the table. */
  lemma SectionOpens(body: string, sofar: seq<Group>)
    ensures ParseFile("#GROUP" + ("\n" + body), sofar)
         == var p := ParseGroup(body, EMPTY_GROUP, 0);
            if p.Stuck? then Broken else ParseFile(p.rest, sofar + [p.g])
  {
    var s := "#GROUP" + ("\n" + body);
    assert s[0] == '#' && ("\n" + body)[0] == '\n';
    assert SkipSpace(s) == s;
    AfterHash("\n" + body);
    WordIsRead("GROUP", "\n" + body);
    ParseSkipsNewline(body, EMPTY_GROUP, 0);
  }

  lemma SectionIsRead(g: Group, rest: string, sofar: seq<Group>)
    requires WellFormed(g) && CleanGroup(g)
    ensures ParseFile("#GROUP" + ("\n" + GroupText(g, rest)), sofar) == ParseFile(rest, sofar + [Compact(g)])
  {
    SectionOpens(GroupText(g, rest), sofar);
    GroupIsRead(g, rest);
    ParseFileSkipsSpace("\n\n", rest, sofar + [Compact(g)]);
  }

  lemma AfterHash(tail: string)
    ensures ("#GROUP" + tail)[1..] == "GROUP" + tail
  {
  }

  lemma FileEndIsRead(sofar: seq<Group>)
    ensures ParseFile("#End\n", sofar) == Table(sofar)
  {
    assert "#End\n"[1..] == "End" + "\n";
    WordIsRead("End", "\n");
  }

  lemma {:induction false} FileIsRead(t: seq<Group>, sofar: seq<Group>)
    requires WellFormedTable(t) && CleanTable(t)
    ensures ParseFile(FileOf(t), sofar) == Table(sofar + CompactAll(t))
    decreases |t|
  {
    if t == [] {
      FileEndIsRead(sofar);
      assert sofar + CompactAll(t) == sofar;
    } else {
      SectionIsRead(t[0], FileOf(t[1..]), sofar);
      FileIsRead(t[1..], sofar + [Compact(t[0])]);
      Associate(sofar, [Compact(t[0])], CompactAll(t[1..]));
    }
  }

  // ----- what is loaded is always clean

  lemma {:induction false} ParsedGroupIsClean(s: string, g: Group, n: nat)
    requires WellFormed(g) && CleanGroup(g) && ParseGroup(s, g, n).Parsed?
    ensures CleanGroup(ParseGroup(s, g, n).g)
    decreases |s|
  {
    match ReadWord(s)
    case Cut(w) =>
    case Got(w, rest) =>
      if w == "" { ParsedGroupIsClean(rest, g, n); }
      else if w[0] == '*' { ParsedGroupIsClean(ReadToEol(rest).rest, g, n); }
      else if w[0] == 'E' && SameText(w, "End") {}
      else if w[0] == 'N' && SameText(w, "Name") {
        ReadIsClean(rest);
        ParsedGroupIsClean(ReadString(rest).rest, g.(name := ReadString(rest).text), n);
      }
      else if w[0] == 'R' && SameText(w, "RName") {
        ReadIsClean(rest);
        ParsedGroupIsClean(ReadString(rest).rest, g.(rname := ReadString(rest).text), n);
      }
      else if w[0] == 'S' && SameText(w, "Spell") {
        ReadIsClean(rest);
        ParsedGroupIsClean(ReadString(rest).rest, g.(spells := g.spells[n := ReadString(rest).text]), n + 1);
      }
      else { ParsedGroupIsClean(rest, g, n); }
  }

  lemma {:induction false} LoadedIsClean(s: string, sofar: seq<Group>)
    requires WellFormedTable(sofar) && CleanTable(sofar) && ParseFile(s, sofar).Table?
    ensures WellFormedTable(ParseFile(s, sofar).groups) && CleanTable(ParseFile(s, sofar).groups)
    decreases |s|
  {
    var t := SkipSpace(s);
    if t != "" {
      if t[0] == '*' {
        LoadedIsClean(ReadToEol(t[1..]).rest, sofar);
      } else if t[0] == '#' && ReadWord(t[1..]).Got? {
        var w, rest := ReadWord(t[1..]).text, ReadWord(t[1..]).rest;
        if SameText(w, "GROUP") {
          ParsedGroupIsClean(rest, EMPTY_GROUP, 0);
          var p := ParseGroup(rest, EMPTY_GROUP, 0);
          LoadedIsClean(p.rest, sofar + [p.g]);
        } else if !SameText(w, "End") {
          LoadedIsClean(rest, sofar);
        }
      }
    }
  }

  // ----- the theorems

  lemma {:induction false} NonEmptyKeeps(spells: seq<string>, i: nat)
    requires i < |spells| && spells[i] != ""
    ensures spells[i] in NonEmpty(spells)
  {
    if i > 0 { NonEmptyKeeps(spells[1..], i - 1); }
  }

  lemma CompactKeepsDirt(g: Group)
    requires WellFormed(g) && CleanGroup(Compact(g))
    ensures CleanGroup(g)
  {
    forall i | 0 <= i < |g.spells|
      ensures Clean(g.spells[i])
    {
      if g.spells[i] != "" {
        NonEmptyKeeps(g.spells, i);
        var c := Compact(g).spells;
        var j :| 0 <= j < |NonEmpty(g.spells)| && NonEmpty(g.spells)[j] == g.spells[i];
        assert c[j] == g.spells[i];
      }
    }
  }

  /** Loading what save_groups wrote gives the same groups in the same order, each with its non-empty
      spells moved to the front, exactly if the table is clean. */
  lemma LoadSaved(t: seq<Group>)
    requires WellFormedTable(t)
    ensures ParseFile(FileOf(t), []) == Table(CompactAll(t)) <==> CleanTable(t)
  {
    if CleanTable(t) {
      FileIsRead(t, []);
      assert [] + CompactAll(t) == CompactAll(t);
    }
    if ParseFile(FileOf(t), []) == Table(CompactAll(t)) {
      LoadedIsClean(FileOf(t), []);
      forall i | 0 <= i < |t|
        ensures CleanGroup(t[i])
      {
        assert CompactAll(t)[i] == Compact(t[i]);
        CompactKeepsDirt(t[i]);
      }
    }
  }

  lemma {:induction false} BlankLines(n: nat, rest: string)
    ensures SpellLines(Blanks(n), rest) == rest
  {
    if n > 0 {
      assert Blanks(n)[1..] == Blanks(n - 1);
      BlankLines(n - 1, rest);
    }
  }

  lemma {:induction false} CompactLines(spells: seq<string>, n: nat, rest: string)
    ensures SpellLines(NonEmpty(spells) + Blanks(n), rest) == SpellLines(spells, rest)
  {
    if spells == [] {
      assert [] + Blanks(n) == Blanks(n);
      BlankLines(n, rest);
    } else if spells[0] == "" {
      assert [] + NonEmpty(spells[1..]) == NonEmpty(spells[1..]);
      CompactLines(spells[1..], n, rest);
    } else {
      CompactLines(spells[1..], n, rest);
      Associate([spells[0]], NonEmpty(spells[1..]), Blanks(n));
    }
  }

  /** Saving the loaded table again writes the same file. */
  lemma {:induction false} SaveAgain(t: seq<Group>)
    requires WellFormedTable(t)
    ensures FileOf(CompactAll(t)) == FileOf(t)
    decreases |t|
  {
    if t != [] {
      assert CompactAll(t)[1..] == CompactAll(t[1..]) && CompactAll(t)[0] == Compact(t[0]);
      SaveAgain(t[1..]);
      CompactLines(t[0].spells, MAX_IN_GROUP - |NonEmpty(t[0].spells)|, "End" + ("\n\n" + FileOf(t[1..])));
    }
  }
}
