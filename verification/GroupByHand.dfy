/**
 Group files written by hand: with comments, unknown words and sections, and the lines of a group in
 any order and layout.  Whatever is around them, exactly their groups are loaded.
 */
module GroupByHand {
  import opened Seqs
  import opened Text
  import opened FileText
  import opened GroupFile
  import opened GroupRoundTrip

  predicate White(s: string) { forall i | 0 <= i < |s| :: IsSpace(s[i]) }

  predicate Gap(s: string) { s != "" && White(s) }

  /** A keyword of a group, whose first letter must be the capital. */
  predicate Key(word: string, key: string) { word != "" && key != "" && word[0] == key[0] && SameText(word, key) }

  // ----- the body of a group

  /** A comment, a word that means nothing, or a keyword with its value. */
  datatype Item =
    | Note(text: string, eols: string)
    | Odd(word: string, gap: string)
    | Field(key: string, word: string, gap: string, value: string, after: string)

  predicate ProperItem(it: Item) {
    match it
    case Note(text, eols) => OneLine(text) && Eols(eols)
    case Odd(word, gap) =>
      && IsBare(word) && Gap(gap) && word[0] != '*'
      && !Key(word, "End") && !Key(word, "Name") && !Key(word, "RName") && !Key(word, "Spell")
    case Field(key, word, gap, value, after) =>
      && (key == "Name" || key == "RName" || key == "Spell")
      && IsBare(word) && Key(word, key) && Gap(gap) && Clean(value) && White(after)
  }

  predicate ProperItems(items: seq<Item>) { forall i | 0 <= i < |items| :: ProperItem(items[i]) }

  function ItemText(it: Item, rest: string): string {
    match it
    case Note(text, eols) => "*" + (text + (eols + rest))
    case Odd(word, gap) => word + (gap + rest)
    case Field(_, word, gap, value, after) => word + (gap + (value + ("~" + (after + rest))))
  }

  function BodyText(items: seq<Item>, rest: string): string {
    if items == [] then rest else ItemText(items[0], BodyText(items[1..], rest))
  }

  /** The value of the last line with that key. */
  function LastOf(items: seq<Item>, key: string, otherwise: string): string {
    if items == [] then otherwise
    else
      var it := items[0];
      LastOf(items[1..], key, if it.Field? && it.key == key then it.value else otherwise)
  }

  /** The values of the Spell lines, in order. */
  function SpellsOf(items: seq<Item>): seq<string> {
    if items == [] then []
    else (if items[0].Field? && items[0].key == "Spell" then [items[0].value] else []) + SpellsOf(items[1..])
  }

  /** A group g, whose first n slots are taken, with what the items say. */
  function WithItems(g: Group, n: nat, items: seq<Item>): (r: Group)
    requires WellFormed(g) && n + |SpellsOf(items)| <= MAX_IN_GROUP
    ensures WellFormed(r)
  {
    Group(LastOf(items, "Name", g.name), LastOf(items, "RName", g.rname),
          Overwrite(g.spells, n, SpellsOf(items)))
  }

  lemma SameParse(s: string, t: string, g: Group, n: nat)
    requires WellFormed(g) && ReadWord(s) == ReadWord(t)
    ensures ParseGroup(s, g, n) == ParseGroup(t, g, n)
  {
  }

  lemma WhiteIsSkipped(pad: string, s: string, g: Group, n: nat)
    requires WellFormed(g) && White(pad)
    ensures ParseGroup(pad + s, g, n) == ParseGroup(s, g, n)
  {
    WordSkipsSpace(pad, s);
    SameParse(pad + s, s, g, n);
  }

  /** fread_word's view of a comment: a word that starts with the star, the rest of the line left. */
  lemma StarWord(text: string, eols: string, s: string) returns (word: string, more: string)
    requires OneLine(text) && Eols(eols)
    ensures ReadWord("*" + (text + (eols + s))) == Got(word, more + (eols + s))
    ensures word != "" && word[0] == '*' && OneLine(more)
  {
    var k := UntilSpace(text);
    word, more := "*" + text[..k], text[k..];
    var tail := more + (eols + s);
    assert word + tail == "*" + (text + (eols + s));
    assert tail[0] == if more == "" then eols[0] else more[0];
    WordIsRead(word, tail);
  }

  lemma NoteIsRead(text: string, eols: string, s: string, g: Group, n: nat)
    requires WellFormed(g) && OneLine(text) && Eols(eols)
    ensures ParseGroup("*" + (text + (eols + s)), g, n) == ParseGroup(s, g, n)
  {
    var word, more := StarWord(text, eols, s);
    LineIsSkipped(more, eols, s);
    WordAfterEols(s);
    SameParse(SkipEols(s), s, g, n);
  }

  lemma OddIsRead(word: string, gap: string, s: string, g: Group, n: nat)
    requires WellFormed(g) && ProperItem(Odd(word, gap))
    ensures ParseGroup(word + (gap + s), g, n) == ParseGroup(s, g, n)
  {
    assert (gap + s)[0] == gap[0];
    WordIsRead(word, gap + s);
    WhiteIsSkipped(gap, s, g, n);
  }

  lemma ValueIsRead(word: string, gap: string, value: string, after: string, s: string)
    requires IsBare(word) && Gap(gap) && Clean(value)
    ensures var tail := gap + (value + ("~" + (after + s)));
            ReadWord(word + tail) == Got(word, tail) && ReadString(tail) == Got(value, after + s)
  {
    var tail := gap + (value + ("~" + (after + s)));
    assert tail[0] == gap[0];
    WordIsRead(word, tail);
    CleanIsRead(gap, value, after + s);
  }

  lemma NameIsRead(it: Item, s: string, g: Group, n: nat)
    requires WellFormed(g) && it.Field? && ProperItem(it) && it.key == "Name"
    ensures ParseGroup(ItemText(it, s), g, n) == ParseGroup(s, g.(name := it.value), n)
  {
    ValueIsRead(it.word, it.gap, it.value, it.after, s);
    WhiteIsSkipped(it.after, s, g.(name := it.value), n);
  }

  lemma RNameIsRead(it: Item, s: string, g: Group, n: nat)
    requires WellFormed(g) && it.Field? && ProperItem(it) && it.key == "RName"
    ensures ParseGroup(ItemText(it, s), g, n) == ParseGroup(s, g.(rname := it.value), n)
  {
    ValueIsRead(it.word, it.gap, it.value, it.after, s);
    WhiteIsSkipped(it.after, s, g.(rname := it.value), n);
  }

  lemma SpellIsRead(it: Item, s: string, g: Group, n: nat)
    requires WellFormed(g) && it.Field? && ProperItem(it) && it.key == "Spell" && n < MAX_IN_GROUP
    ensures ParseGroup(ItemText(it, s), g, n) == ParseGroup(s, g.(spells := g.spells[n := it.value]), n + 1)
  {
    ValueIsRead(it.word, it.gap, it.value, it.after, s);
    WhiteIsSkipped(it.after, s, g.(spells := g.spells[n := it.value]), n + 1);
  }

  /** A group has room for 35 spells; the source does not look, and the model has no answer for one more. */
  lemma OneSpellTooMany(it: Item, s: string, g: Group)
    requires WellFormed(g) && it.Field? && ProperItem(it) && it.key == "Spell"
    ensures ParseGroup(ItemText(it, s), g, 35) == Stuck
  {
    ValueIsRead(it.word, it.gap, it.value, it.after, s);
  }

  /** The reader goes on from t as it would have from s. */
  ghost predicate ReadsAs(s: string, g: Group, n: nat, t: string, h: Group, m: nat) {
    WellFormed(g) && WellFormed(h) && ParseGroup(s, g, n) == ParseGroup(t, h, m)
  }

  lemma ReadsOn(s: string, g: Group, n: nat, t: string, h: Group, m: nat, u: string, k: Group, l: nat)
    requires ReadsAs(s, g, n, t, h, m) && ReadsAs(t, h, m, u, k, l)
    ensures ReadsAs(s, g, n, u, k, l)
  {
  }

  function SpellCount(it: Item): nat { if it.Field? && it.key == "Spell" then 1 else 0 }

  /** A group with what one item says. */
  function WithItem(g: Group, n: nat, it: Item): (r: Group)
    requires WellFormed(g) && n + SpellCount(it) <= MAX_IN_GROUP
    ensures WellFormed(r)
  {
    if !it.Field? then g
    else if it.key == "Name" then g.(name := it.value)
    else if it.key == "RName" then g.(rname := it.value)
    else if it.key == "Spell" then g.(spells := g.spells[n := it.value])
    else g
  }

  lemma FieldIsRead(it: Item, s: string, g: Group, n: nat)
    requires WellFormed(g) && ProperItem(it) && it.Field? && n + SpellCount(it) <= MAX_IN_GROUP
    ensures ReadsAs(ItemText(it, s), g, n, s, WithItem(g, n, it), n + SpellCount(it))
  {
    if it.key == "Name" {
      NameIsRead(it, s, g, n);
    } else if it.key == "RName" {
      RNameIsRead(it, s, g, n);
    } else {
      SpellIsRead(it, s, g, n);
    }
  }

  lemma ItemIsRead(it: Item, text: string, s: string, g: Group, n: nat, h: Group, m: nat)
    requires WellFormed(g) && ProperItem(it) && n + SpellCount(it) <= MAX_IN_GROUP
    requires text == ItemText(it, s) && h == WithItem(g, n, it) && m == n + SpellCount(it)
    ensures ReadsAs(text, g, n, s, h, m)
  {
    match it
    case Note(comment, eols) => NoteIsRead(comment, eols, s, g, n);
    case Odd(word, gap) => OddIsRead(word, gap, s, g, n);
    case Field(key, word, gap, value, after) => FieldIsRead(it, s, g, n);
  }

  lemma SpellMore(spells: seq<string>, n: nat, items: seq<Item>)
    requires items != [] && n + |SpellsOf(items)| <= |spells|
    ensures |SpellsOf(items)| == SpellCount(items[0]) + |SpellsOf(items[1..])|
    ensures SpellCount(items[0]) == 0 ==> SpellsOf(items) == SpellsOf(items[1..])
    ensures SpellCount(items[0]) == 1 ==>
      Overwrite(spells, n, SpellsOf(items)) == Overwrite(spells[n := items[0].value], n + 1, SpellsOf(items[1..]))
  {
    if SpellCount(items[0]) == 1 { OverwriteFirst(spells, n, items[0].value, SpellsOf(items[1..])); }
  }

  lemma OneItemMore(g: Group, n: nat, items: seq<Item>)
    requires WellFormed(g) && items != [] && ProperItem(items[0]) && n + |SpellsOf(items)| <= MAX_IN_GROUP
    ensures |SpellsOf(items)| == SpellCount(items[0]) + |SpellsOf(items[1..])|
    ensures WithItems(g, n, items)
         == WithItems(WithItem(g, n, items[0]), n + SpellCount(items[0]), items[1..])
  {
    SpellMore(g.spells, n, items);
  }

  /** Whatever their order and layout, the items of a body are read as what they say. */
  lemma {:induction false} BodyIsReadAs(items: seq<Item>, text: string, s: string, g: Group, n: nat, k: Group, l: nat)
    requires WellFormed(g) && ProperItems(items) && n + |SpellsOf(items)| <= MAX_IN_GROUP
    requires text == BodyText(items, s) && k == WithItems(g, n, items) && l == n + |SpellsOf(items)|
    ensures ReadsAs(text, g, n, s, k, l)
    decreases |items|
  {
    if items == [] {
      OverwriteNone(g.spells, n);
    } else {
      var it, rest := items[0], items[1..];
      var more, h, m := BodyText(rest, s), WithItem(g, n, it), n + SpellCount(it);
      OneItemMore(g, n, items);
      BodyIsReadAs(rest, more, s, h, m, k, l);
      ItemIsRead(it, text, more, g, n, h, m);
      ReadsOn(text, g, n, more, h, m, s, k, l);
    }
  }

  // ----- the file

  /** A comment, a section nobody knows, or a group. */
  datatype Part =
    | Remark(text: string, eols: string)
    | Stray(word: string, gap: string)
    | Section(word: string, gap: string, items: seq<Item>, end: string, after: string)

  predicate ProperPart(p: Part) {
    match p
    case Remark(text, eols) => OneLine(text) && Eols(eols)
    case Stray(word, gap) => IsBare(word) && Gap(gap) && !SameText(word, "GROUP") && !SameText(word, "End")
    case Section(word, gap, items, end, after) =>
      && IsBare(word) && SameText(word, "GROUP") && Gap(gap)
      && ProperItems(items) && |SpellsOf(items)| <= 35
      && IsBare(end) && Key(end, "End") && Gap(after)
  }

  predicate ProperParts(parts: seq<Part>) { forall i | 0 <= i < |parts| :: ProperPart(parts[i]) }

  function PartText(p: Part, rest: string): string {
    match p
    case Remark(text, eols) => "*" + (text + (eols + rest))
    case Stray(word, gap) => "#" + (word + (gap + rest))
    case Section(word, gap, items, end, after) => "#" + (word + (gap + BodyText(items, end + (after + rest))))
  }

  function PartsText(parts: seq<Part>, tail: string): string {
    if parts == [] then tail else PartText(parts[0], PartsText(parts[1..], tail))
  }

  /** The group a body describes: its last names, and its spells in order, in front of blank slots. */
  function GroupOf(items: seq<Item>): Group
    requires |SpellsOf(items)| <= 35
  {
    var spells := SpellsOf(items);
    Group(LastOf(items, "Name", ""), LastOf(items, "RName", ""), spells + seq(35 - |spells|, i => ""))
  }

  function GroupsOf(parts: seq<Part>): seq<Group>
    requires ProperParts(parts)
  {
    if parts == [] then []
    else
      var rest := GroupsOf(parts[1..]);
      assert ProperPart(parts[0]);
      if parts[0].Section? then [GroupOf(parts[0].items)] + rest else rest
  }

  /** What the loader takes for the end: the end of the file, an End section and anything behind it, or anything
      that starts no section. */
  predicate Closing(tail: string) {
    || tail == ""
    || (!IsSpace(tail[0]) && tail[0] != '#' && tail[0] != '*')
    || EndSection(tail)
  }

  predicate EndSection(tail: string) {
    |tail| > 4 && tail[0] == '#' && IsBare(tail[1..4]) && SameText(tail[1..4], "End") && IsSpace(tail[4])
  }

  lemma SameSection(s: string, t: string, sofar: seq<Group>)
    requires SkipSpace(s) == SkipSpace(t)
    ensures ParseFile(s, sofar) == ParseFile(t, sofar)
  {
  }

  /** A comment line makes no difference, in front of any section. */
  lemma RemarkIsSkipped(text: string, eols: string, s: string, sofar: seq<Group>)
    requires OneLine(text) && Eols(eols)
    ensures ParseFile("*" + (text + (eols + s)), sofar) == ParseFile(s, sofar)
  {
    var t := "*" + (text + (eols + s));
    assert t[0] == '*' && t[1..] == text + (eols + s);
    LineIsSkipped(text, eols, s);
    SpaceAfterEols(s);
    SameSection(SkipEols(s), s, sofar);
  }

  lemma HashWord(word: string, gap: string, s: string)
    requires IsBare(word) && Gap(gap)
    ensures var t := "#" + (word + (gap + s));
            SkipSpace(t) == t && t[0] == '#' && ReadWord(t[1..]) == Got(word, gap + s)
  {
    var t := "#" + (word + (gap + s));
    assert t[0] == '#' && t[1..] == word + (gap + s) && (gap + s)[0] == gap[0];
    WordIsRead(word, gap + s);
  }

  /** Neither does a section nobody knows. */
  lemma StrayIsSkipped(word: string, gap: string, s: string, sofar: seq<Group>)
    requires ProperPart(Stray(word, gap))
    ensures ParseFile("#" + (word + (gap + s)), sofar) == ParseFile(s, sofar)
  {
    HashWord(word, gap, s);
    SkipsAll(gap, s);
    SameSection(gap + s, s, sofar);
  }

  lemma BodyGivesGroup(items: seq<Item>, gap: string, end: string, after: string, s: string)
    requires ProperItems(items) && |SpellsOf(items)| <= 35
    requires White(gap) && IsBare(end) && Key(end, "End") && Gap(after)
    ensures ParseGroup(gap + BodyText(items, end + (after + s)), EMPTY_GROUP, 0)
         == Parsed(GroupOf(items), after + s)
  {
    var tail, n := end + (after + s), |SpellsOf(items)|;
    WhiteIsSkipped(gap, BodyText(items, tail), EMPTY_GROUP, 0);
    BodyIsReadAs(items, BodyText(items, tail), tail, EMPTY_GROUP, 0, WithItems(EMPTY_GROUP, 0, items), n);
    GroupOfItems(items);
    assert (after + s)[0] == after[0];
    WordIsRead(end, after + s);
  }

  lemma GroupOfItems(items: seq<Item>)
    requires |SpellsOf(items)| <= 35
    ensures GroupOf(items) == WithItems(EMPTY_GROUP, 0, items)
  {
    OverwriteBlanks(SpellsOf(items));
  }

  /** A group section gives its group, and the load goes on behind it. */
  lemma SectionGivesGroup(p: Part, s: string, sofar: seq<Group>)
    requires p.Section? && ProperPart(p)
    ensures ParseFile(PartText(p, s), sofar) == ParseFile(s, sofar + [GroupOf(p.items)])
  {
    var body := BodyText(p.items, p.end + (p.after + s));
    HashWord(p.word, p.gap, body);
    BodyGivesGroup(p.items, p.gap, p.end, p.after, s);
    SkipsAll(p.after, s);
    SameSection(p.after + s, s, sofar + [GroupOf(p.items)]);
  }

  lemma ClosingEnds(tail: string, sofar: seq<Group>)
    requires Closing(tail)
    ensures ParseFile(tail, sofar) == Table(sofar)
  {
    if EndSection(tail) {
      var word, rest := tail[1..4], tail[4..];
      WordIsRead(word, rest);
      assert tail[1..] == word + rest && SkipSpace(tail) == tail;
    }
  }

  lemma {:induction false} PartsAreRead(parts: seq<Part>, tail: string, sofar: seq<Group>)
    requires ProperParts(parts) && Closing(tail)
    ensures ParseFile(PartsText(parts, tail), sofar) == Table(sofar + GroupsOf(parts))
    decreases |parts|
  {
    if parts == [] {
      ClosingEnds(tail, sofar);
      assert sofar + [] == sofar;
    } else {
      var p, rest := parts[0], parts[1..];
      var more := PartsText(rest, tail);
      assert ProperPart(p);
      match p
      case Remark(text, eols) =>
        RemarkIsSkipped(text, eols, more, sofar);
        PartsAreRead(rest, tail, sofar);
      case Stray(word, gap) =>
        StrayIsSkipped(word, gap, more, sofar);
        PartsAreRead(rest, tail, sofar);
      case Section(_, _, items, _, _) =>
        SectionGivesGroup(p, more, sofar);
        PartsAreRead(rest, tail, sofar + [GroupOf(items)]);
        Associate(sofar, [GroupOf(items)], GroupsOf(rest));
    }
  }

  lemma LeadIsSkipped(lead: string, text: string, groups: seq<Group>)
    requires White(lead) && ParseFile(text, []) == Table(groups)
    ensures ParseFile(lead + text, []) == Table(groups)
  {
    ParseFileSkipsSpace(lead, text, []);
  }

  /** A file written by hand loads as exactly its groups, in their order. */
  lemma HandWrittenIsLoaded(lead: string, parts: seq<Part>, tail: string)
    requires White(lead) && ProperParts(parts) && Closing(tail)
    ensures ParseFile(lead + PartsText(parts, tail), []) == Table(GroupsOf(parts))
  {
    var text, groups := PartsText(parts, tail), GroupsOf(parts);
    PartsAreRead(parts, tail, []);
    assert [] + groups == groups;
    LeadIsSkipped(lead, text, groups);
  }

  // ----- what save_groups writes

  function SpellItems(spells: seq<string>): seq<Item> {
    if spells == [] then []
    else (if spells[0] == "" then [] else [Field("Spell", "Spell", "  ", spells[0], "\n")]) + SpellItems(spells[1..])
  }

  function PartOf(g: Group): Part {
    Section("GROUP", "\n",
            [Field("Name", "Name", "   ", g.name, "\n"), Field("RName", "RName", "  ", g.rname, "\n")]
            + SpellItems(g.spells), "End", "\n\n")
  }

  function PartsOf(t: seq<Group>): seq<Part> { if t == [] then [] else [PartOf(t[0])] + PartsOf(t[1..]) }

  lemma {:induction false} SpellItemsText(spells: seq<string>, rest: string)
    ensures BodyText(SpellItems(spells), rest) == SpellLines(spells, rest)
  {
    if spells != [] {
      SpellItemsText(spells[1..], rest);
      if spells[0] == "" {
        assert [] + SpellItems(spells[1..]) == SpellItems(spells[1..]);
      } else {
        assert SpellItems(spells)[1..] == SpellItems(spells[1..]);
      }
    }
  }

  lemma PartOfText(g: Group, rest: string)
    ensures PartText(PartOf(g), rest) == "#GROUP" + ("\n" + GroupText(g, rest))
  {
    var tail := "End" + ("\n\n" + rest);
    NamesText(g, tail);
    Associate("#", "GROUP", "\n" + GroupText(g, rest));
    assert "#" + "GROUP" == "#GROUP";
  }

  lemma NamesText(g: Group, tail: string)
    ensures BodyText(PartOf(g).items, tail)
         == Line("Name", "   ", g.name, Line("RName", "  ", g.rname, SpellLines(g.spells, tail)))
  {
    var first, second := Field("Name", "Name", "   ", g.name, "\n"), Field("RName", "RName", "  ", g.rname, "\n");
    var more := SpellItems(g.spells);
    SpellItemsText(g.spells, tail);
    TwoItems(first, second, more, tail);
  }

  lemma TwoItems(first: Item, second: Item, more: seq<Item>, tail: string)
    ensures BodyText([first, second] + more, tail) == ItemText(first, ItemText(second, BodyText(more, tail)))
  {
    var items := [first, second] + more;
    assert items[1..] == [second] + more && ([second] + more)[1..] == more;
  }

  /** A saved file is such a file: a GROUP section for every group, with its Name, its RName and its Spell lines in
      that order, and an End section. */
  lemma {:induction false} SavedIsByHand(t: seq<Group>)
    ensures FileOf(t) == PartsText(PartsOf(t), "#End\n")
    decreases |t|
  {
    if t != [] {
      SavedIsByHand(t[1..]);
      assert PartsOf(t)[1..] == PartsOf(t[1..]);
      PartOfText(t[0], FileOf(t[1..]));
    }
  }
}
