/**
 The skill-group editor of src/olc_groups.c: an open session may rename a group, add
 and delete spells, create groups and save.  Whatever is typed, the table stays fit for
 the group file, so no edit is lost by saving and loading.
 */
module GroupEditor {
  import opened Seqs
  import opened Text
  import opened FileText
  import opened GroupFile
  import opened GroupRoundTrip

  datatype Skill = Skill(name: string, rname: string)

  // ----- group_lookup and skill_lookup

  predicate Named(word: string, name: string, rname: string) {
    Abbreviates(word, name) || Abbreviates(word, rname)
  }

  function FirstGroup(word: string, t: seq<Group>): (i: nat)
    ensures i <= |t| && (i < |t| ==> Named(word, t[i].name, t[i].rname))
    ensures forall j | 0 <= j < i :: !Named(word, t[j].name, t[j].rname)
  {
    if t == [] || Named(word, t[0].name, t[0].rname) then 0 else 1 + FirstGroup(word, t[1..])
  }

  method GroupLookup(name: string, t: seq<Group>) returns (gn: int)
    ensures gn == if FirstGroup(name, t) < |t| then FirstGroup(name, t) else -1
  {
    if name == "" { return -1; }
    for i := 0 to |t|
      invariant forall j | 0 <= j < i :: !Named(name, t[j].name, t[j].rname)
    {
      if Named(name, t[i].name, t[i].rname) { return i; }
    }
    return -1;
  }

  /** The search of skill_lookup ends at a skill without a name. */
  function FirstSkill(word: string, skills: seq<Skill>): (i: nat)
    ensures i <= |skills|
    ensures i < |skills| ==> skills[i].name == "" || Named(word, skills[i].name, skills[i].rname)
    ensures forall j | 0 <= j < i :: skills[j].name != "" && !Named(word, skills[j].name, skills[j].rname)
  {
    if skills == [] || skills[0].name == "" || Named(word, skills[0].name, skills[0].rname) then 0
    else 1 + FirstSkill(word, skills[1..])
  }

  predicate KnownSkill(word: string, skills: seq<Skill>) {
    FirstSkill(word, skills) < |skills| && skills[FirstSkill(word, skills)].name != ""
  }

  method SkillLookup(name: string, skills: seq<Skill>) returns (sn: int)
    ensures sn == if KnownSkill(name, skills) then FirstSkill(name, skills) else -1
  {
    if name == "" { return -1; }
    for i := 0 to |skills|
      invariant forall j | 0 <= j < i :: skills[j].name != "" && !Named(name, skills[j].name, skills[j].rname)
    {
      if skills[i].name == "" { break; }
      if Named(name, skills[i].name, skills[i].rname) { return i; }
    }
    return -1;
  }

  // ----- what the commands do

  datatype Resolved = Unknown | Name(name: string)

  /** What a word given to `add` stands for: the name of a group, or else of a skill. */
  function Resolve(word: string, t: seq<Group>, skills: seq<Skill>): Resolved {
    if FirstGroup(word, t) < |t| then Name(t[FirstGroup(word, t)].name)
    else if KnownSkill(word, skills) then Name(skills[FirstSkill(word, skills)].name)
    else Unknown
  }

  /** Group k is the first whose name or rname the word abbreviates. */
  ghost predicate FirstNamed(word: string, t: seq<Group>, k: nat) {
    && k < |t| && Named(word, t[k].name, t[k].rname)
    && forall j | 0 <= j < k :: !Named(word, t[j].name, t[j].rname)
  }

  /** Skill k is the first whose name or rname the word abbreviates, and no skill up to it lacks a name. */
  ghost predicate FirstKnown(word: string, skills: seq<Skill>, k: nat) {
    && k < |skills| && Named(word, skills[k].name, skills[k].rname)
    && (forall j | 0 <= j <= k :: skills[j].name != "")
    && forall j | 0 <= j < k :: !Named(word, skills[j].name, skills[j].rname)
  }

  /** The name that `add` stores for the word: the English name of the first group it means, whether it is given
      in English or in Russian, and only if it means no group that of the first skill. */
  ghost predicate Means(word: string, t: seq<Group>, skills: seq<Skill>, name: string) {
    || (exists k: nat :: FirstNamed(word, t, k) && name == t[k].name)
    || ((forall k | 0 <= k < |t| :: !Named(word, t[k].name, t[k].rname)) &&
        exists k: nat :: FirstKnown(word, skills, k) && name == skills[k].name)
  }

  /** Resolve finds the one name the word means, and none exactly if it means none. */
  lemma ResolvedIsMeant(word: string, t: seq<Group>, skills: seq<Skill>)
    ensures forall name :: Means(word, t, skills, name) <==> Resolve(word, t, skills) == Name(name)
  {
    var k := FirstGroup(word, t);
    var l := FirstSkill(word, skills);
    forall i: nat
      ensures FirstNamed(word, t, i) <==> i == k < |t|
    {
      if i < |t| && i < k { assert !Named(word, t[i].name, t[i].rname); }
    }
    forall i: nat
      ensures FirstKnown(word, skills, i) <==> i == l && KnownSkill(word, skills)
    {
    }
  }

  function FirstBlank(spells: seq<string>): (i: nat)
    ensures i <= |spells| && (i < |spells| ==> spells[i] == "")
    ensures forall j | 0 <= j < i :: spells[j] != ""
  {
    if spells == [] || spells[0] == "" then 0 else 1 + FirstBlank(spells[1..])
  }

  predicate IsSpell(word: string, spell: string) { spell != "" && IsPrefix(word, spell) }

  function FirstSpell(word: string, spells: seq<string>): (i: nat)
    ensures i <= |spells| && (i < |spells| ==> IsSpell(word, spells[i]))
    ensures forall j | 0 <= j < i :: !IsSpell(word, spells[j])
  {
    if spells == [] || IsSpell(word, spells[0]) then 0 else 1 + FirstSpell(word, spells[1..])
  }

  /** gredit_add's spells afterwards, or the same ones if it refuses */
  function WithSpell(spells: seq<string>, word: string, r: Resolved): (s: seq<string>)
    ensures |s| == |spells|
  {
    if CanAdd(spells, word, r) then spells[FirstBlank(spells) := r.name] else spells
  }

  predicate CanAdd(spells: seq<string>, word: string, r: Resolved) {
    word != "" && FirstBlank(spells) < |spells| && r.Name? && FirstSpell(word, spells) == |spells|
  }

  predicate CanDelete(spells: seq<string>, word: string) {
    word != "" && FirstSpell(word, spells) < |spells|
  }

  function WithoutSpell(spells: seq<string>, word: string): (s: seq<string>)
    ensures |s| == |spells|
  {
    if CanDelete(spells, word) then spells[FirstSpell(word, spells) := ""] else spells
  }

  /** The first blank slot of the group under edit has been given the name the word means, and nothing else
      has changed. */
  ghost predicate Stored(t: seq<Group>, u: seq<Group>, at: int, word: string, skills: seq<Skill>) {
    && 0 <= at < |t| && |u| == |t|
    && exists i, name |
         && 0 <= i < |t[at].spells| && t[at].spells[i] == ""
         && (forall j | 0 <= j < i :: t[at].spells[j] != "")
         && Means(word, t, skills, name) ::
         u == t[at := t[at].(spells := t[at].spells[i := name])]
  }

  /** When add is carried out. */
  lemma AddsIf(spells: seq<string>, word: string, t: seq<Group>, skills: seq<Skill>)
    ensures CanAdd(spells, word, Resolve(word, t, skills)) <==>
            && word != "" && (exists i | 0 <= i < |spells| :: spells[i] == "")
            && (exists name :: Means(word, t, skills, name))
            && !exists i | 0 <= i < |spells| :: spells[i] != "" && IsPrefix(word, spells[i])
  {
    ResolvedIsMeant(word, t, skills);
    var r := Resolve(word, t, skills);
    if r.Name? { assert Means(word, t, skills, r.name); }
    var i, k := FirstBlank(spells), FirstSpell(word, spells);
    if i < |spells| { assert spells[i] == ""; }
    if k < |spells| { assert IsSpell(word, spells[k]); }
    assert forall j | 0 <= j < |spells| :: IsSpell(word, spells[j]) <==> spells[j] != "" && IsPrefix(word, spells[j]);
  }

  /** Adding and then deleting with the same word undoes the addition exactly if the word abbreviates
      the name that was stored, which a word found through a Russian name need not. */
  lemma DeleteUndoesAdd(spells: seq<string>, word: string, r: Resolved)
    requires CanAdd(spells, word, r)
    ensures WithoutSpell(WithSpell(spells, word, r), word) == spells <==> r.name == "" || IsPrefix(word, r.name)
  {
  }

  // ----- one line of input

  /** smash_tilde */
  function Smashed(s: string): (r: string)
    ensures |r| == |s| && forall i | 0 <= i < |s| :: r[i] == if s[i] == '~' then '-' else s[i]
  {
    seq(|s|, i requires 0 <= i < |s| => if s[i] == '~' then '-' else s[i])
  }

  method SmashTilde(str: array<char>)
    modifies str
    ensures str[..] == Smashed(old(str[..]))
  {
    for i := 0 to str.Length
      invariant forall j | 0 <= j < i :: str[j] == if old(str[j]) == '~' then '-' else old(str[j])
      invariant forall j | i <= j < str.Length :: str[j] == old(str[j])
    {
      if str[i] == '~' { str[i] := '-'; }
    }
  }

  const COMMANDS := ["show", "name", "rname", "add", "delete"]

  function FirstCommand(cmd: string, from: nat): (i: nat)
    requires from <= |COMMANDS|
    ensures from <= i <= |COMMANDS|
    ensures i < |COMMANDS| ==> IsPrefix(cmd, COMMANDS[i])
    ensures forall j | from <= j < i :: !IsPrefix(cmd, COMMANDS[j])
    decreases |COMMANDS| - from
  {
    if from == |COMMANDS| || IsPrefix(cmd, COMMANDS[from]) then from else FirstCommand(cmd, from + 1)
  }

  /** The table, the group under edit (pEdit, or -1) and groups_changed. */
  datatype State = State(table: seq<Group>, at: int, changed: bool)

  ghost predicate Sound(st: State) { WellFormedTable(st.table) && -1 <= st.at < |st.table| }

  function Put(st: State, g: Group): State
    requires 0 <= st.at < |st.table|
  {
    st.(table := st.table[st.at := g], changed := true)
  }

  /** The command of the given number, on the group under edit. */
  function Perform(st: State, number: nat, argument: string, skills: seq<Skill>): State
    requires 0 <= st.at < |st.table|
  {
    var g := st.table[st.at];
    var r := Resolve(argument, st.table, skills);
    match number
    case 1 => if argument == "" then st else Put(st, g.(name := argument))
    case 2 => if argument == "" then st else Put(st, g.(rname := argument))
    case 3 => if CanAdd(g.spells, argument, r) then Put(st, g.(spells := WithSpell(g.spells, argument, r))) else st
    case 4 => if CanDelete(g.spells, argument) then Put(st, g.(spells := WithoutSpell(g.spells, argument))) else st
    case _ => st
  }

  /** gredit: one line typed to the open editor. */
  function Edited(st: State, line: string, skills: seq<Skill>): State
    requires 0 <= st.at < |st.table|
  {
    var a := OneArgument(Smashed(line));
    if SameText(a.word, "done") then st.(at := -1)
    else if a.word == "" then st
    else Perform(st, FirstCommand(a.word, 0), a.rest, skills)
  }

  // ----- what is typed, in its own words

  lemma LowerPrefix(word: string, name: string)
    ensures IsPrefix(LowerAll(word), name) == IsPrefix(word, name)
    ensures SameText(LowerAll(word), name) == SameText(word, name)
  {
  }

  lemma SmashedLine(word: string, argument: string)
    requires '~' !in word
    ensures Smashed(word + " " + argument) == word + " " + Smashed(argument)
  {
  }

  /** A command word followed by a blank and its argument. */
  lemma LineSplits(word: string, argument: string)
    requires OneWord(word) && '~' !in word && (argument != "" ==> !IsSpace(argument[0]))
    ensures OneArgument(Smashed(word + " " + argument)) == Argument(LowerAll(word), Smashed(argument))
  {
    SmashedLine(word, argument);
    WordSplitsOff(word, Smashed(argument));
  }

  /** A word abbreviates at most one of the commands, since they begin with different letters. */
  lemma CommandOf(word: string)
    requires word != ""
    ensures IsPrefix(word, "show") <==> FirstCommand(word, 0) == 0
    ensures IsPrefix(word, "name") <==> FirstCommand(word, 0) == 1
    ensures IsPrefix(word, "rname") <==> FirstCommand(word, 0) == 2
    ensures IsPrefix(word, "add") <==> FirstCommand(word, 0) == 3
    ensures IsPrefix(word, "delete") <==> FirstCommand(word, 0) == 4
  {
    assert COMMANDS[0] == "show" && COMMANDS[1] == "name" && COMMANDS[2] == "rname";
    assert COMMANDS[3] == "add" && COMMANDS[4] == "delete";
    Initial(word, "show");
    Initial(word, "name");
    Initial(word, "rname");
    Initial(word, "add");
    Initial(word, "delete");
  }

  lemma Initial(word: string, name: string)
    requires word != "" && name != ""
    ensures IsPrefix(word, name) ==> SameLetter(word[0], name[0])
  {
  }

  /** The group under edit with one of its names replaced. */
  function Renamed(st: State, name: string, rname: string): State
    requires 0 <= st.at < |st.table|
  {
    State(st.table[st.at := Group(name, rname, st.table[st.at].spells)], st.at, true)
  }

  /** A word that changes neither the table nor what is edited. */
  predicate NoChange(word: string) {
    && !SameText(word, "done") && !IsPrefix(word, "name") && !IsPrefix(word, "rname")
    && !IsPrefix(word, "add") && !IsPrefix(word, "delete")
  }

  /** The commands by the words typed: done closes the editor, any other abbreviation of name or rname sets that
      field to the argument, its tildes smashed, and all but add and delete change nothing else. */
  lemma TypedName(st: State, word: string, argument: string, skills: seq<Skill>)
    requires 0 <= st.at < |st.table| && OneWord(word) && '~' !in word
    requires argument != "" ==> !IsSpace(argument[0])
    ensures var t, g := Edited(st, word + " " + argument, skills), st.table[st.at];
            var a := Smashed(argument);
            && (SameText(word, "done") ==> t == State(st.table, -1, st.changed))
            && (NoChange(word) ==> t == st)
            && (IsPrefix(word, "name") ==> t == if argument == "" then st else Renamed(st, a, g.rname))
            && (IsPrefix(word, "rname") ==> t == if argument == "" then st else Renamed(st, g.name, a))
  {
    var w := LowerAll(word);
    LineSplits(word, argument);
    LowerPrefix(word, "done");
    LowerPrefix(word, "name");
    LowerPrefix(word, "rname");
    LowerPrefix(word, "add");
    LowerPrefix(word, "delete");
    CommandOf(w);
    Initial(w, "done");
  }

  /** add stores the name its argument means in the first blank slot, and delete blanks the first spell its
      argument abbreviates. */
  lemma TypedSpell(st: State, word: string, argument: string, skills: seq<Skill>)
    requires 0 <= st.at < |st.table| && OneWord(word) && '~' !in word
    requires argument != "" ==> !IsSpace(argument[0])
    ensures var t, g := Edited(st, word + " " + argument, skills), st.table[st.at];
            var a := Smashed(argument);
            && (IsPrefix(word, "add") ==>
                  if CanAdd(g.spells, a, Resolve(a, st.table, skills))
                  then t.at == st.at && t.changed && Stored(st.table, t.table, st.at, a, skills) else t == st)
            && (IsPrefix(word, "delete") ==> Blanked(st, t, a))
  {
    var a := Smashed(argument);
    LineSplits(word, argument);
    LowerPrefix(word, "add");
    LowerPrefix(word, "delete");
    LowerPrefix(word, "done");
    CommandOf(LowerAll(word));
    Initial(LowerAll(word), "add");
    Initial(LowerAll(word), "delete");
    ResolvedIsMeant(a, st.table, skills);
    NotDone(word);
  }

  lemma NotDone(word: string)
    ensures !(SameText(word, "done") && IsPrefix(word, "add")) && !(SameText(word, "done") && IsPrefix(word, "delete"))
  {
    if SameText(word, "done") { assert SameLetter(word[0], "done"[0]) && SameLetter(word[1], "done"[1]); }
    if IsPrefix(word, "delete") && |word| > 1 { assert SameLetter(word[1], "delete"[1]); }
  }

  /** The first spell of the group under edit that the word abbreviates is gone; without one nothing happens. */
  ghost predicate Blanked(st: State, t: State, word: string)
    requires 0 <= st.at < |st.table|
  {
    var g := st.table[st.at];
    if word != "" && exists i | 0 <= i < |g.spells| :: g.spells[i] != "" && IsPrefix(word, g.spells[i])
    then exists i |
      && 0 <= i < |g.spells| && g.spells[i] != "" && IsPrefix(word, g.spells[i])
      && (forall j | 0 <= j < i :: g.spells[j] == "" || !IsPrefix(word, g.spells[j])) ::
      t == State(st.table[st.at := Group(g.name, g.rname, g.spells[i := ""])], st.at, true)
    else t == st
  }

  /** do_gredit: open a group, or a new one. */
  function Opened(st: State, argument: string): State {
    var word := OneArgument(argument).word;
    var i := FirstGroup(word, st.table);
    if SameText(word, "create") then State(st.table + [EMPTY_GROUP], |st.table|, true)
    else if i < |st.table| then st.(at := i)
    else st
  }

  /** create makes a group without names or spells and edits it; a word otherwise means the first group it
      abbreviates. */
  lemma OpenedByWord(st: State, argument: string)
    ensures var word, t := OneArgument(argument).word, Opened(st, argument);
            && (SameText(word, "create") ==>
                  && t.at == |st.table| && t.changed && |t.table| == |st.table| + 1 && t.table[..t.at] == st.table
                  && t.table[t.at].name == "" && t.table[t.at].rname == "" && |t.table[t.at].spells| == 35
                  && forall i | 0 <= i < 35 :: t.table[t.at].spells[i] == "")
            && (!SameText(word, "create") ==>
                  && t.table == st.table && t.changed == st.changed
                  && (t.at == st.at || (0 <= t.at && FirstNamed(word, t.table, t.at)))
                  && forall k | FirstNamed(word, t.table, k) :: t.at == k)
  {
    var word := OneArgument(argument).word;
    var k := FirstGroup(word, st.table);
    forall i: nat | FirstNamed(word, st.table, i)
      ensures i == k
    {
    }
  }

  // ----- the editor

  class Editor {
    const skills: seq<Skill>      // skill_table
    var groupTable: seq<Group>    // group_table and max_groups
    var pEdit: int
    var groupsChanged: bool

    constructor (skills: seq<Skill>, groups: seq<Group>)
      requires WellFormedTable(groups)
      ensures Valid() && this.skills == skills && Now() == State(groups, -1, false)
    {
      this.skills, groupTable, pEdit, groupsChanged := skills, groups, -1, false;
    }

    ghost predicate Valid()
      reads this
    {
      Sound(Now())
    }

    function Now(): State
      reads this
    {
      State(groupTable, pEdit, groupsChanged)
    }

    /** gredit_name and gredit_rname */
    method SetName(russian: bool, argument: string) returns (done: bool)
      requires Valid() && pEdit >= 0
      modifies this`groupTable
      ensures done == (argument != "")
      ensures groupTable == if !done then old(groupTable) else
                old(groupTable)[pEdit := if russian then old(groupTable)[pEdit].(rname := argument)
                                         else old(groupTable)[pEdit].(name := argument)]
    {
      if argument == "" { return false; }
      var g := groupTable[pEdit];
      groupTable := groupTable[pEdit := if russian then g.(rname := argument) else g.(name := argument)];
      return true;
    }

    /** gredit_add */
    method Add(argument: string) returns (done: bool)
      requires Valid() && pEdit >= 0
      modifies this`groupTable
      ensures var g, r := old(groupTable)[pEdit], Resolve(argument, old(groupTable), skills);
              && done == CanAdd(g.spells, argument, r)
              && groupTable == old(groupTable)[pEdit := g.(spells := WithSpell(g.spells, argument, r))]
      ensures var t, g := old(groupTable), old(groupTable)[pEdit];
              done <==> && argument != "" && (exists i | 0 <= i < MAX_IN_GROUP :: g.spells[i] == "")
                        && (exists name :: Means(argument, t, skills, name))
                        && !exists i | 0 <= i < MAX_IN_GROUP ::
                             g.spells[i] != "" && IsPrefix(argument, g.spells[i])
      ensures done ==> Stored(old(groupTable), groupTable, pEdit, argument, skills)
    {
      ghost var spells0 := groupTable[pEdit].spells;
      ResolvedIsMeant(argument, groupTable, skills);
      AddsIf(spells0, argument, groupTable, skills);
      var g := groupTable[pEdit];
      if argument == "" { return false; }
      var num := -1;
      for i := 0 to MAX_IN_GROUP
        invariant num == -1 && forall j | 0 <= j < i :: g.spells[j] != ""
      {
        if g.spells[i] == "" {
          num := i;
          break;
        }
      }
      if num == -1 { return false; }
      assert num == FirstBlank(g.spells);
      var name;
      var sk := GroupLookup(argument, groupTable);
      if sk >= 0 {
        name := groupTable[sk].name;
      } else {
        sk := SkillLookup(argument, skills);
        if sk < 0 { return false; }
        name := skills[sk].name;
      }
      for i := 0 to MAX_IN_GROUP
        invariant forall j | 0 <= j < i :: !IsSpell(argument, g.spells[j])
      {
        if IsSpell(argument, g.spells[i]) { return false; }
      }
      groupTable := groupTable[pEdit := g.(spells := g.spells[num := name])];
      return true;
    }

    /** gredit_delete */
    method Delete(argument: string) returns (done: bool)
      requires Valid() && pEdit >= 0
      modifies this`groupTable
      ensures var g := old(groupTable)[pEdit];
              && done == CanDelete(g.spells, argument)
              && groupTable == old(groupTable)[pEdit := g.(spells := WithoutSpell(g.spells, argument))]
      ensures done <==> argument != "" && exists i | 0 <= i < MAX_IN_GROUP ::
                                            IsSpell(argument, old(groupTable)[pEdit].spells[i])
    {
      var g := groupTable[pEdit];
      if argument == "" { return false; }
      for i := 0 to MAX_IN_GROUP
        invariant forall j | 0 <= j < i :: !IsSpell(argument, g.spells[j])
      {
        if IsSpell(argument, g.spells[i]) {
          groupTable := groupTable[pEdit := g.(spells := g.spells[i := ""])];
          return true;
        }
      }
      return false;
    }

    /** One entry of gredit_table; show changes nothing. */
    method Call(number: nat, argument: string) returns (done: bool)
      requires Valid() && pEdit >= 0 && number < |COMMANDS|
      modifies this`groupTable
      ensures Now().(changed := old(groupsChanged) || done) == Perform(old(Now()), number, argument, skills)
    {
      match number
      case 1 => done := SetName(false, argument);
      case 2 => done := SetName(true, argument);
      case 3 => done := Add(argument);
      case 4 => done := Delete(argument);
      case _ => done := false;
    }

    /** The search of gredit_table: the first command the word abbreviates. */
    method Dispatch(cmd: string, argument: string) returns (passedOn: bool)
      requires Valid() && pEdit >= 0
      modifies this`groupTable, this`groupsChanged
      ensures Valid() && Now() == Perform(old(Now()), FirstCommand(cmd, 0), argument, skills)
      ensures passedOn == (FirstCommand(cmd, 0) == |COMMANDS|)
    {
      for i := 0 to |COMMANDS|
        invariant Now() == old(Now())
        invariant forall j | 0 <= j < i :: !IsPrefix(cmd, COMMANDS[j])
      {
        if IsPrefix(cmd, COMMANDS[i]) {
          assert FirstCommand(cmd, 0) == i;
          var done := Call(i, argument);
          if done { groupsChanged := true; }
          return false;
        }
      }
      assert FirstCommand(cmd, 0) == |COMMANDS|;
      return true;
    }

    /** gredit; passedOn is a line left to the command interpreter. */
    method Gredit(line: array<char>) returns (passedOn: bool)
      requires Valid() && pEdit >= 0
      modifies this, line
      ensures Valid() && Now() == Edited(old(Now()), old(line[..]), skills)
      ensures passedOn ==> Now() == old(Now())
    {
      SmashTilde(line);
      var cmd, argument := SplitArgument(line[..]);
      if SameText(cmd, "done") {
        pEdit := -1;
        return false;
      }
      if cmd == "" { return false; }
      passedOn := Dispatch(cmd, argument);
    }

    /** do_gredit */
    method Open(argument: string)
      requires Valid()
      modifies this
      ensures Valid() && Now() == Opened(old(Now()), argument)
    {
      var arg, rest := SplitArgument(argument);
      if SameText(arg, "create") {
        groupTable, pEdit, groupsChanged := groupTable + [EMPTY_GROUP], |groupTable|, true;
        return;
      }
      var i := GroupLookup(arg, groupTable);
      if i == -1 { return; }
      pEdit := i;
    }

    /** do_grsave: the file's text afterwards. */
    method Save(file: string) returns (text: string)
      ensures text == Saved(Now(), file)
    {
      text := file;
      if groupsChanged {
        text := SaveGroups(groupTable);
      }
    }
  }

  function Saved(st: State, file: string): string {
    if st.changed then FileOf(st.table) else file
  }
}
