/**
 The skill-group file: save_groups, load_groups and fread_group of src/load.c, character
 by character.  Saving drops the empty spell slots, so loading what was saved moves the
 others to the front.
 */
module GroupFile {
  import opened Seqs
  import opened Text
  import opened FileText
  import opened SinglyTailQueue

  const MAX_IN_GROUP := 35

  datatype Group = Group(name: string, rname: string, spells: seq<string>)

  predicate WellFormed(g: Group) { |g.spells| == MAX_IN_GROUP }

  function Blanks(n: nat): (r: seq<string>)
    ensures |r| == n
  {
    seq(n, i => "")
  }

  const EMPTY_GROUP := Group("", "", Blanks(MAX_IN_GROUP))

  // ----- save_groups

  /** One `key   value~` line and what follows it. */
  function Line(key: string, pad: string, value: string, rest: string): string {
    key + (pad + (value + ("~" + ("\n" + rest))))
  }

  function SpellLines(spells: seq<string>, rest: string): string {
    if spells == [] then rest
    else if spells[0] == "" then SpellLines(spells[1..], rest)
    else Line("Spell", "  ", spells[0], SpellLines(spells[1..], rest))
  }

  function GroupText(g: Group, rest: string): string {
    Line("Name", "   ", g.name, Line("RName", "  ", g.rname, SpellLines(g.spells, "End" + ("\n\n" + rest))))
  }

  function FileOf(table: seq<Group>): string {
    if table == [] then "#End\n"
    else "#GROUP" + ("\n" + GroupText(table[0], FileOf(table[1..])))
  }

  // ----- fread_group

  /** A group read, or a file the code has no answer for: it ends inside a string or a comment,
      or it has more spells than a group holds. */
  datatype Parsed = Parsed(g: Group, rest: string) | Stuck

  function ParseGroup(s: string, g: Group, n: nat): (r: Parsed)
    requires WellFormed(g)
    ensures r.Parsed? ==> WellFormed(r.g) && |r.rest| <= |s|
    decreases |s|
  {
    match ReadWord(s)
    case Cut(w) => if w != "" && w[0] == '*' then Stuck else Parsed(g, "")
    case Got(w, rest) =>
      if w == "" then ParseGroup(rest, g, n)
      else if w[0] == '*' then
        match ReadToEol(rest)
        case Cut(_) => Stuck
        case Got(_, rest') => ParseGroup(rest', g, n)
      else if w[0] == 'E' && SameText(w, "End") then Parsed(g, rest)
      else if w[0] == 'N' && SameText(w, "Name") then
        match ReadString(rest)
        case Cut(_) => Stuck
        case Got(v, rest') => ParseGroup(rest', g.(name := v), n)
      else if w[0] == 'R' && SameText(w, "RName") then
        match ReadString(rest)
        case Cut(_) => Stuck
        case Got(v, rest') => ParseGroup(rest', g.(rname := v), n)
      else if w[0] == 'S' && SameText(w, "Spell") then
        if n >= MAX_IN_GROUP then Stuck
        else
          match ReadString(rest)
          case Cut(_) => Stuck
          case Got(v, rest') => ParseGroup(rest', g.(spells := g.spells[n := v]), n + 1)
      else ParseGroup(rest, g, n)
  }

  method ReadGroup(text: string) returns (r: Parsed)
    ensures r == ParseGroup(text, EMPTY_GROUP, 0)
  {
    var s, g, n := text, EMPTY_GROUP, 0;
    while true
      invariant WellFormed(g) && ParseGroup(s, g, n) == ParseGroup(text, EMPTY_GROUP, 0)
      decreases |s|
    {
      var word := ReadWord(s);
      if word.Cut? {
        return if word.text != "" && word.text[0] == '*' then Stuck else Parsed(g, "");
      }
      var w := word.text;
      s := word.rest;
      if w == "" {
      } else if w[0] == '*' {
        var eol := ReadToEol(s);
        if eol.Cut? { return Stuck; }
        s := eol.rest;
      } else if w[0] == 'E' && SameText(w, "End") {
        return Parsed(g, s);
      } else if w[0] == 'N' && SameText(w, "Name") {
        var v := ReadString(s);
        if v.Cut? { return Stuck; }
        g, s := g.(name := v.text), v.rest;
      } else if w[0] == 'R' && SameText(w, "RName") {
        var v := ReadString(s);
        if v.Cut? { return Stuck; }
        g, s := g.(rname := v.text), v.rest;
      } else if w[0] == 'S' && SameText(w, "Spell") {
        var v := ReadString(s);
        if n >= MAX_IN_GROUP || v.Cut? { return Stuck; }
        g, s, n := g.(spells := g.spells[n := v.text]), v.rest, n + 1;
      }
    }
  }

  // ----- load_groups

  datatype Loaded = Table(groups: seq<Group>) | Broken

  /** One round of the loader: a comment or an unknown section, a group, the end of the file as the
      loader sees it, or a file the code has no answer for. */
  datatype Section = Skipped(rest: string) | Taken(g: Group, rest: string) | Over | Unanswered

  function ReadSection(s: string): (r: Section)
    ensures r.Skipped? || r.Taken? ==> |r.rest| < |s|
  {
    var t := SkipSpace(s);
    if t == "" then Over
    else if t[0] == '*' then
      match ReadToEol(t[1..])
      case Cut(_) => Unanswered
      case Got(_, rest) => Skipped(rest)
    else if t[0] != '#' then Over
    else
      match ReadWord(t[1..])
      case Cut(_) => Over
      case Got(w, rest) =>
        if SameText(w, "GROUP") then
          match ParseGroup(rest, EMPTY_GROUP, 0)
          case Stuck => Unanswered
          case Parsed(g, rest') => Taken(g, rest')
        else if SameText(w, "End") then Over
        else Skipped(rest)
  }

  function ParseFile(s: string, sofar: seq<Group>): Loaded
    decreases |s|
  {
    match ReadSection(s)
    case Skipped(rest) => ParseFile(rest, sofar)
    case Taken(g, rest) => ParseFile(rest, sofar + [g])
    case Over => Table(sofar)
    case Unanswered => Broken
  }

  /** The groups in a staging queue. */
  ghost function Values(es: seq<Entry<Group>>): (r: seq<Group>)
    ensures |r| == |es|
  {
    seq(|es|, i requires 0 <= i < |es| => es[i].data)
  }

  lemma ValuesAppend(es: seq<Entry<Group>>, e: Entry<Group>)
    ensures Values(es + [e]) == Values(es) + [e.data]
  {
  }

  /** add_group_tailq */
  method AddGroup(staging: Head<Group>, g: Group, ghost staged: seq<Entry<Group>>, ghost region: set<object>)
    returns (ghost longer: seq<Entry<Group>>, ghost larger: set<object>)
    requires Queue(staging, staged) && Holds(region, staging, staged)
    modifies region
    ensures Queue(staging, longer) && Values(longer) == Values(staged) + [g]
    ensures Holds(larger, staging, longer) && fresh(larger - region)
  {
    assert LinkAt(staging, staged, 0);
    var e := new Entry(g);
    assert Queue(staging, staged);
    ValuesAppend(staged, e);
    Append(staging, e, staged);
    longer, larger := staged + [e], region + {e};
  }

  ghost predicate Holds(region: set<object>, h: Head<Group>, s: seq<Entry<Group>>) {
    h in region && forall e | e in s :: e in region
  }

  method TakeSection(s: string) returns (r: Section)
    ensures r == ReadSection(s)
  {
    var t := SkipSpace(s);
    if t == "" { return Over; }
    if t[0] == '*' {
      var eol := ReadToEol(t[1..]);
      return if eol.Cut? then Unanswered else Skipped(eol.rest);
    }
    if t[0] != '#' { return Over; }
    var word := ReadWord(t[1..]);
    if word.Cut? { return Over; }
    if SameText(word.text, "GROUP") {
      var p := ReadGroup(word.rest);
      return if p.Stuck? then Unanswered else Taken(p.g, p.rest);
    }
    return if SameText(word.text, "End") then Over else Skipped(word.rest);
  }

  /** load_groups: the sections are staged in a tail queue, then copied into a table of their number. */
  method LoadGroups(text: string) returns (r: Loaded)
    ensures r == ParseFile(text, [])
  {
    var staging := new Head<Group>();
    ghost var staged: seq<Entry<Group>>, region: set<object> := [], {staging};
    var s, maxGroups := text, 0;
    while true
      invariant fresh(region) && Holds(region, staging, staged) && Queue(staging, staged)
      invariant maxGroups == |staged|
      invariant ParseFile(s, Values(staged)) == ParseFile(text, [])
      decreases |s|
    {
      var section := TakeSection(s);
      match section
      case Skipped(rest) =>
        s := rest;
      case Taken(g, rest) =>
        staged, region := AddGroup(staging, g, staged, region);
        s, maxGroups := rest, maxGroups + 1;
      case Over =>
        break;
      case Unanswered =>
        return Broken;
    }
    r := CopyTable(staging, staged, maxGroups);
  }

  method CopyTable(staging: Head<Group>, ghost staged: seq<Entry<Group>>, maxGroups: nat) returns (r: Loaded)
    requires Queue(staging, staged) && maxGroups == |staged|
    ensures r == Table(Values(staged))
  {
    var entries := Foreach(staging, staged);
    var table := new Group[maxGroups];
    for i := 0 to |entries|
      invariant forall j | 0 <= j < i :: table[j] == entries[j].data
    {
      table[i] := entries[i].data;
    }
    assert table[..] == Values(staged);
    return Table(table[..]);
  }

  // ----- the writer

  /** fprintf("key   %s~\n", value), rest being what will follow it */
  method PutLine(text: string, key: string, pad: string, value: string, ghost rest: string) returns (r: string)
    ensures r + rest == text + Line(key, pad, value, rest)
  {
    r := text + key + pad + value + "~" + "\n";
    Associate(text, key, pad + (value + ("~" + ("\n" + rest))));
    Associate(text + key, pad, value + ("~" + ("\n" + rest)));
    Associate(text + key + pad, value, "~" + ("\n" + rest));
    Associate(text + key + pad + value, "~", "\n" + rest);
    Associate(text + key + pad + value + "~", "\n", rest);
  }

  method PutSpells(text: string, spells: seq<string>, ghost rest: string) returns (r: string)
    ensures r + rest == text + SpellLines(spells, rest)
  {
    r := text;
    for j := 0 to |spells|
      invariant r + SpellLines(spells[j..], rest) == text + SpellLines(spells, rest)
    {
      Next(spells, j);
      if spells[j] != "" {
        r := PutLine(r, "Spell", "  ", spells[j], SpellLines(spells[j + 1..], rest));
      }
    }
  }

  lemma Next<T>(s: seq<T>, j: nat)
    requires j < |s|
    ensures s[j..] != [] && s[j..][0] == s[j] && s[j..][1..] == s[j + 1..]
  {
  }

  method PutGroup(text: string, g: Group, ghost rest: string) returns (r: string)
    ensures r + rest == text + GroupText(g, rest)
  {
    ghost var end := "End" + ("\n\n" + rest);
    ghost var spellLines := SpellLines(g.spells, end);
    r := PutLine(text, "Name", "   ", g.name, Line("RName", "  ", g.rname, spellLines));
    r := PutLine(r, "RName", "  ", g.rname, spellLines);
    r := PutSpells(r, g.spells, end);
    Associate(r, "End", "\n\n" + rest);
    Associate(r + "End", "\n\n", rest);
    r := r + "End" + "\n\n";
  }

  /** save_groups */
  method SaveGroups(table: seq<Group>) returns (text: string)
    ensures text == FileOf(table)
  {
    text := "";
    for i := 0 to |table|
      invariant text + FileOf(table[i..]) == FileOf(table)
    {
      Next(table, i);
      ghost var rest := FileOf(table[i + 1..]);
      Associate(text, "#GROUP", "\n" + GroupText(table[i], rest));
      Associate(text + "#GROUP", "\n", GroupText(table[i], rest));
      text := PutGroup(text + "#GROUP" + "\n", table[i], rest);
    }
    text := text + "#End\n";
  }
}
