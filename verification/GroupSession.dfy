/**
 Whole editing sessions on the skill groups: load, any lines typed, save, load again.
 */
module GroupSession {
  import opened Seqs
  import opened Text
  import opened FileText
  import opened GroupFile
  import opened GroupRoundTrip
  import opened GroupEditor

  /** A line typed to the open editor, or a gredit command. */
  datatype Input = Typed(line: string) | Command(argument: string)

  function Step(st: State, input: Input, skills: seq<Skill>): State {
    match input
    case Typed(line) => if 0 <= st.at < |st.table| then Edited(st, line, skills) else st
    case Command(argument) => Opened(st, argument)
  }

  function Run(st: State, inputs: seq<Input>, skills: seq<Skill>): State
    decreases |inputs|
  {
    if inputs == [] then st else Run(Step(st, inputs[0], skills), inputs[1..], skills)
  }

  ghost predicate CleanSkills(skills: seq<Skill>) {
    forall i | 0 <= i < |skills| :: Clean(skills[i].name)
  }

  /** Lines come from read_from_buffer, which ends them at the first line-end character. */
  ghost predicate LineInput(input: Input) { input.Typed? ==> OneLine(input.line) }

  // ----- arguments are clean

  lemma {:induction false} CookedOneLine(s: string)
    requires '\n' !in s && '\r' !in s
    ensures Cooked(s) == s
  {
    if s != "" {
      assert s[0] in s && forall c | c in s[1..] :: c in s;
      CookedOneLine(s[1..]);
    }
  }

  lemma {:induction false} SkipSpaceSubset(s: string)
    ensures forall c | c in SkipSpace(s) :: c in s
  {
    if s != "" { SkipSpaceSubset(s[1..]); }
  }

  lemma CutAtSubset(u: string, end: char)
    ensures forall c | c in CutAt(u, end).rest :: c in u
  {
    var n := Until(u, end);
    SkipSpaceSubset(if n < |u| then u[n + 1..] else "");
  }

  /** What follows the command word of a smashed line survives the file. */
  lemma ArgumentIsClean(line: string)
    requires OneLine(line)
    ensures Clean(OneArgument(Smashed(line)).rest)
  {
    assert forall c | c in line :: !IsEol(c);
    var s := Smashed(line);
    var t := SkipSpace(s);
    var rest := OneArgument(s).rest;
    SkipSpaceSubset(s);
    CutAtSubset(t, ' ');
    if t != "" { CutAtSubset(t[1..], t[0]); }
    assert forall c | c in rest :: c in s;
    assert forall c | c in s :: c != '~' && (c == '\n' || c == '\r' ==> c in line);
    CookedOneLine(rest);
  }

  // ----- what every step keeps

  ghost predicate Fit(st: State) { Sound(st) && CleanTable(st.table) }

  lemma PutKeepsFit(st: State, g: Group)
    requires Fit(st) && st.at >= 0 && WellFormed(g) && CleanGroup(g)
    ensures Fit(Put(st, g))
  {
  }

  lemma SpellsKeepClean(g: Group, spells: seq<string>, k: nat, name: string)
    requires CleanGroup(g) && k < |g.spells| && Clean(name) && spells == g.spells[k := name]
    ensures CleanGroup(g.(spells := spells))
  {
  }

  lemma PerformKeepsFit(st: State, number: nat, argument: string, skills: seq<Skill>)
    requires Fit(st) && st.at >= 0 && CleanSkills(skills) && Clean(argument)
    ensures Fit(Perform(st, number, argument, skills))
  {
    var g, r := st.table[st.at], Resolve(argument, st.table, skills);
    assert CleanGroup(g) && WellFormed(g);
    match number
    case 1 =>
      PutKeepsFit(st, g.(name := argument));
    case 2 =>
      PutKeepsFit(st, g.(rname := argument));
    case 3 =>
      if CanAdd(g.spells, argument, r) {
        ResolvedIsClean(argument, st.table, skills);
        SpellsKeepClean(g, WithSpell(g.spells, argument, r), FirstBlank(g.spells), r.name);
        PutKeepsFit(st, g.(spells := WithSpell(g.spells, argument, r)));
      }
    case 4 =>
      if CanDelete(g.spells, argument) {
        SpellsKeepClean(g, WithoutSpell(g.spells, argument), FirstSpell(argument, g.spells), "");
        PutKeepsFit(st, g.(spells := WithoutSpell(g.spells, argument)));
      }
    case _ =>
  }

  lemma ResolvedIsClean(word: string, t: seq<Group>, skills: seq<Skill>)
    requires CleanTable(t) && CleanSkills(skills) && Resolve(word, t, skills).Name?
    ensures Clean(Resolve(word, t, skills).name)
  {
  }

  lemma OpenedKeepsFit(st: State, argument: string)
    requires Fit(st)
    ensures Fit(Opened(st, argument))
  {
  }

  lemma StepKeepsFit(st: State, input: Input, skills: seq<Skill>)
    requires Fit(st) && CleanSkills(skills) && LineInput(input)
    ensures Fit(Step(st, input, skills))
  {
    match input
    case Typed(line) =>
      if st.at >= 0 {
        ArgumentIsClean(line);
        var a := OneArgument(Smashed(line));
        PerformKeepsFit(st, FirstCommand(a.word, 0), a.rest, skills);
      }
    case Command(argument) =>
      OpenedKeepsFit(st, argument);
  }

  /** Any run of editor commands keeps the table fit for the file. */
  lemma {:induction false} RunKeepsFit(st: State, inputs: seq<Input>, skills: seq<Skill>)
    requires Fit(st) && CleanSkills(skills) && forall i | 0 <= i < |inputs| :: LineInput(inputs[i])
    ensures Fit(Run(st, inputs, skills))
    decreases |inputs|
  {
    if inputs != [] {
      StepKeepsFit(st, inputs[0], skills);
      RunKeepsFit(Step(st, inputs[0], skills), inputs[1..], skills);
    }
  }

  /** groups_changed is set by every command that changes the table, and never reset. */
  lemma {:induction false} UnmarkedIsUnchanged(st: State, inputs: seq<Input>, skills: seq<Skill>)
    ensures st.changed ==> Run(st, inputs, skills).changed
    ensures !Run(st, inputs, skills).changed ==> Run(st, inputs, skills).table == st.table
    decreases |inputs|
  {
    if inputs != [] {
      UnmarkedIsUnchanged(Step(st, inputs[0], skills), inputs[1..], skills);
    }
  }

  /** A typed line changes no group but the one under edit, and never the number of groups. */
  lemma EditIsLocal(st: State, line: string, skills: seq<Skill>, i: nat)
    requires 0 <= st.at < |st.table|
    ensures |Edited(st, line, skills).table| == |st.table|
    ensures i < |st.table| && i != st.at ==> Edited(st, line, skills).table[i] == st.table[i]
  {
  }

  // ----- the session theorem

  /** Whatever file is loaded and whatever is typed, loading the file that do_grsave leaves behind gives
      every group back in its place, its spells moved to the front if the session changed anything. */
  lemma NoEditIsLost(file: string, inputs: seq<Input>, skills: seq<Skill>)
    requires ParseFile(file, []).Table? && CleanSkills(skills)
    requires forall i | 0 <= i < |inputs| :: LineInput(inputs[i])
    ensures var st := Run(State(ParseFile(file, []).groups, -1, false), inputs, skills);
            && WellFormedTable(st.table)
            && ParseFile(Saved(st, file), []) == Table(if st.changed then CompactAll(st.table) else st.table)
  {
    var start := State(ParseFile(file, []).groups, -1, false);
    LoadedIsClean(file, []);
    RunKeepsFit(start, inputs, skills);
    UnmarkedIsUnchanged(start, inputs, skills);
    var st := Run(start, inputs, skills);
    LoadSaved(st.table);
  }
}
