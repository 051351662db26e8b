/**
 Exactly which arena statistics come back from their files: no name and no opponent that breaks
 the file format is ever read back by accident.
 */
module ArenaExact {
  import opened Seqs
  import opened Text
  import opened FileText
  import opened ArenaFile
  import opened ArenaRoundTrip

  predicate EndsIn(s: string, t: string) { |t| <= |s| && s[|s| - |t|..] == t }

  function NameLines(ns: seq<string>): string {
    if ns == [] then "$\n" else ns[0] + ("\n" + NameLines(ns[1..]))
  }

  lemma {:induction false} ListIsNameLines(a: seq<Record>)
    ensures ListText(a) == NameLines(FileNames(a))
    decreases |a|
  {
    if a != [] {
      ListIsNameLines(a[1..]);
      assert FileNames(a)[1..] == FileNames(a[1..]);
    }
  }

  // ----- where a word was read

  lemma EndOfEnd(s: string, t: string, n: nat)
    requires EndsIn(s, t) && n <= |t|
    ensures EndsIn(s, t[n..]) && s[|s| - |t|..|s| - |t| + n] == t[..n]
  {
    assert forall i | 0 <= i < |t| :: s[|s| - |t| + i] == t[i];
  }

  /** What fread_word has taken: a quoted word and its quotes, or a bare word and blanks in front. */
  lemma WordTaken(s: string, word: string, rest: string)
    requires ReadWord(s) == Got(word, rest)
    ensures EndsIn(s, rest)
    ensures || |rest| + |word| + 2 <= |s|
            || (IsBare(word) && |rest| + |word| <= |s| && s[|s| - |rest| - |word|..|s| - |rest|] == word)
  {
    var t := SkipSpace(s);
    SkippedIsSpace(s);
    SkipAgain(s);
    TakenFrom(s, t, word, rest);
  }

  lemma SkipAgain(s: string)
    ensures ReadWord(SkipSpace(s)) == ReadWord(s)
  {
    assert SkipSpace(SkipSpace(s)) == SkipSpace(s);
  }

  lemma TakenFrom(s: string, t: string, word: string, rest: string)
    requires EndsIn(s, t) && SkipSpace(t) == t && ReadWord(t) == Got(word, rest)
    ensures EndsIn(s, rest)
    ensures || |rest| + |word| + 2 <= |s|
            || (IsBare(word) && |rest| + |word| <= |s| && s[|s| - |rest| - |word|..|s| - |rest|] == word)
  {
    if IsQuote(t[0]) {
      QuotedTaken(t, word, rest);
      EndOfEnd(s, t, |word| + 2);
    } else {
      BareTaken(t, word, rest);
      EndOfEnd(s, t, |word|);
    }
  }

  lemma QuotedTaken(t: string, word: string, rest: string)
    requires SkipSpace(t) == t && t != "" && IsQuote(t[0]) && ReadWord(t) == Got(word, rest)
    ensures |word| + 2 <= |t| && rest == t[|word| + 2..]
  {
  }

  lemma BareTaken(t: string, word: string, rest: string)
    requires SkipSpace(t) == t && t != "" && !IsSpace(t[0]) && !IsQuote(t[0]) && ReadWord(t) == Got(word, rest)
    ensures |word| <= |t| && word == t[..|word|] && rest == t[|word|..] && IsBare(word)
  {
  }

  // ----- names that come back

  /** A load that has read these names, one after the other, on top of what it had. */
  ghost predicate NamesRead(r: Loaded<seq<Record>>, sofar: seq<Record>, ns: seq<string>) {
    && r.Loaded? && |r.value| == |ns| + |sofar| && r.value[|ns|..] == sofar
    && forall i | 0 <= i < |ns| :: r.value[|ns| - 1 - i].name == ns[i]
  }

  lemma {:induction false} ScoresKeepName(s: string, r: Record)
    ensures ReadScores(s, r).Loaded? ==> ReadScores(s, r).value.name == r.name
    decreases |s|
  {
    var t := SkipSpace(s);
    if t != "" && t[0] == '#' && ReadWord(t[1..]).Got? && ReadScore(ReadWord(t[1..]).rest).ScoreRead? {
      var score := ReadScore(ReadWord(t[1..]).rest);
      ScoresKeepName(score.rest, Push(r, score.score));
    }
  }

  /** The next challenger of a load, and what is left of the list behind it. */
  datatype Step = End | Fails | Next(c: Record, rest: string)

  function NextOne(s: string, files: Files): (n: Step)
    ensures n.Next? ==> |n.rest| < |s|
  {
    match ReadWord(s)
    case Cut(word) => if word != "" && word[0] == '$' then End else Fails
    case Got(word, rest) =>
      if word != "" && word[0] == '$' then End
      else
        match ReadChallenger(word, files)
        case Exit => Fails
        case Loaded(r) => Next(r, rest)
  }

  lemma ReadListIs(s: string, files: Files, sofar: seq<Record>)
    ensures NextOne(s, files).End? ==> ReadList(s, files, sofar) == Loaded(sofar)
    ensures NextOne(s, files).Fails? ==> ReadList(s, files, sofar) == Exit
    ensures var n := NextOne(s, files);
            n.Next? ==> ReadList(s, files, sofar) == ReadList(n.rest, files, [n.c] + sofar)
  {
  }

  lemma {:induction false} ListKeeps(s: string, files: Files, sofar: seq<Record>, r: Loaded<seq<Record>>)
    requires r == ReadList(s, files, sofar) && r.Loaded?
    ensures |sofar| <= |r.value| && r.value[|r.value| - |sofar|..] == sofar
    decreases |s|
  {
    ReadListIs(s, files, sofar);
    var next := NextOne(s, files);
    if next.Next? {
      var more := [next.c] + sofar;
      ListKeeps(next.rest, files, more, r);
      KeepsLess(sofar, next.c, more, r.value);
    }
  }

  lemma KeepsLess(sofar: seq<Record>, c: Record, more: seq<Record>, r: seq<Record>)
    requires more == [c] + sofar && |more| <= |r| && r[|r| - |more|..] == more
    ensures |sofar| <= |r| && r[|r| - |sofar|..] == sofar
  {
    assert r[|r| - |sofar| - 1..][1..] == sofar;
  }

  /** The first of the names: the word read is that name, and the load goes on behind it. */
  lemma FirstName(s: string, files: Files, sofar: seq<Record>, ns: seq<string>)
    returns (rest: string, more: seq<Record>)
    requires NamesRead(ReadList(s, files, sofar), sofar, ns) && ns != []
    ensures ReadWord(s) == Got(ns[0], rest) && (ns[0] == "" || ns[0][0] != '$')
    ensures NamesRead(ReadList(rest, files, more), more, ns[1..])
    ensures ReadList(rest, files, more) == ReadList(s, files, sofar)
  {
    ReadListIs(s, files, sofar);
    var r := ReadList(s, files, sofar);
    var next := NextOne(s, files);
    rest, more := next.rest, [next.c] + sofar;
    NextHasName(s, files);
    ListKeeps(rest, files, more, r);
    FewerNames(r, sofar, next.c, ns);
  }

  lemma NextHasName(s: string, files: Files)
    requires NextOne(s, files).Next?
    ensures var n := NextOne(s, files);
            ReadWord(s) == Got(n.c.name, n.rest) && (n.c.name == "" || n.c.name[0] != '$')
  {
    var word := ReadWord(s).text;
    ScoresKeepName(files[word], Record(word, [], 0, 0));
  }

  lemma FewerNames(r: Loaded<seq<Record>>, sofar: seq<Record>, c: Record, ns: seq<string>)
    requires NamesRead(r, sofar, ns) && ns != [] && r.value[|ns| - 1..] == [c] + sofar
    ensures NamesRead(r, [c] + sofar, ns[1..]) && c.name == ns[0]
  {
    assert r.value[|ns| - 1 - 0] == r.value[|ns| - 1..][0] == c;
    forall i | 0 <= i < |ns[1..]|
      ensures r.value[|ns[1..]| - 1 - i].name == ns[1..][i]
    {
      assert r.value[|ns| - 1 - (i + 1)].name == ns[i + 1];
    }
  }

  /** Once the reader is ahead of the lines it does not give their names any more. */
  lemma {:induction false} NoNamesAhead(ns: seq<string>, s: string, files: Files, sofar: seq<Record>)
    requires EndsIn(NameLines(ns), s) && |s| < |NameLines(ns)|
    ensures !NamesRead(ReadList(s, files, sofar), sofar, ns)
    decreases |ns|
  {
    if ns == [] {
      assert s == "\n" || s == "";
      assert ReadWord(s) == Cut("");
    } else if NamesRead(ReadList(s, files, sofar), sofar, ns) {
      var rest, more := FirstName(s, files, sofar, ns);
      WordTaken(s, ns[0], rest);
      StaysAhead(ns, s, rest);
      NoNamesAhead(ns[1..], rest, files, more);
    }
  }

  lemma EndsInBoth(s: string, t: string, u: string)
    requires EndsIn(s, t) && EndsIn(s, u) && |u| <= |t|
    ensures EndsIn(t, u)
  {
    forall i | 0 <= i < |u|
      ensures t[|t| - |u|..][i] == u[i]
    {
      assert s[|s| - |t|..][|t| - |u| + i] == s[|s| - |u|..][i];
    }
  }

  lemma NotOneAhead(word: string, tail: string, s: string)
    requires IsBare(word) && EndsIn(word + ("\n" + tail), s) && |s| == |word| + |tail|
    ensures s[..|word|] != word
  {
    var all := word + ("\n" + tail);
    assert s[|word| - 1] == all[1..][|word| - 1] == all[|word|] == '\n';
  }

  lemma StaysAhead(ns: seq<string>, s: string, rest: string)
    requires ns != [] && EndsIn(NameLines(ns), s) && |s| < |NameLines(ns)| && EndsIn(s, rest)
    requires || |rest| + |ns[0]| + 2 <= |s|
             || (IsBare(ns[0]) && |rest| + |ns[0]| <= |s| && s[|s| - |rest| - |ns[0]|..|s| - |rest|] == ns[0])
    ensures EndsIn(NameLines(ns[1..]), rest) && |rest| < |NameLines(ns[1..])|
  {
    var all, tail := NameLines(ns), NameLines(ns[1..]);
    assert |all| == |ns[0]| + 1 + |tail|;
    if |rest| >= |tail| { NotOneAhead(ns[0], tail, s); }
    EndsInTail(ns[0], tail);
    EndOfEnd(all, s, |s| - |rest|);
    EndsInBoth(all, tail, rest);
  }

  lemma EndsInTail(word: string, tail: string)
    ensures EndsIn(word + ("\n" + tail), tail)
  {
  }

  /** Names that a load gives back are such as can be listed. */
  lemma {:induction false} ReadNamesAreListable(ns: seq<string>, files: Files, sofar: seq<Record>)
    requires NamesRead(ReadList(NameLines(ns), files, sofar), sofar, ns)
    ensures forall i | 0 <= i < |ns| :: Listable(ns[i])
    decreases |ns|
  {
    if ns != [] {
      var s, tail := NameLines(ns), NameLines(ns[1..]);
      var rest, more := FirstName(s, files, sofar, ns);
      WordTaken(s, ns[0], rest);
      if Listable(ns[0]) {
        assert ("\n" + tail)[0] == '\n';
        WordIsRead(ns[0], "\n" + tail);
        WordSkipsSpace("\n", tail);
        assert ReadList(rest, files, more) == ReadList(tail, files, more);
        ReadNamesAreListable(ns[1..], files, more);
      } else {
        GetsAhead(ns, rest);
        NoNamesAhead(ns[1..], rest, files, more);
      }
    }
  }

  lemma GetsAhead(ns: seq<string>, rest: string)
    requires ns != [] && ReadWord(NameLines(ns)) == Got(ns[0], rest)
    requires !IsBare(ns[0])
    ensures EndsIn(NameLines(ns[1..]), rest) && |rest| < |NameLines(ns[1..])|
  {
    var all, tail := NameLines(ns), NameLines(ns[1..]);
    WordTaken(all, ns[0], rest);
    EndsInTail(ns[0], tail);
    EndsInBoth(all, tail, rest);
  }

  // ----- opponents that come back

  ghost predicate CleanScores(r: Record) {
    forall i | 0 <= i < |r.scores| :: Clean(r.scores[i].opponent)
  }

  lemma {:induction false} ReadScoresAreClean(s: string, r: Record)
    requires CleanScores(r)
    ensures ReadScores(s, r).Loaded? ==> CleanScores(ReadScores(s, r).value)
    decreases |s|
  {
    var t := SkipSpace(s);
    if t != "" && t[0] == '#' && ReadWord(t[1..]).Got? && ReadScore(ReadWord(t[1..]).rest).ScoreRead? {
      var u := ReadWord(t[1..]).rest;
      var score := ReadScore(u);
      ReadIsClean(ReadNumber(u).rest);
      ReadScoresAreClean(score.rest, Push(r, score.score));
    }
  }

  lemma {:induction false} LoadedAreClean(s: string, files: Files, sofar: seq<Record>)
    requires forall i | 0 <= i < |sofar| :: CleanScores(sofar[i])
    ensures var r := ReadList(s, files, sofar);
            r.Loaded? ==> forall i | 0 <= i < |r.value| :: CleanScores(r.value[i])
    decreases |s|
  {
    ReadListIs(s, files, sofar);
    var next := NextOne(s, files);
    if next.Next? {
      NextIsClean(s, files);
      LoadedAreClean(next.rest, files, [next.c] + sofar);
    }
  }

  lemma NextIsClean(s: string, files: Files)
    requires NextOne(s, files).Next?
    ensures CleanScores(NextOne(s, files).c)
  {
    var word := ReadWord(s).text;
    ReadScoresAreClean(files[word], Record(word, [], 0, 0));
  }

  // ----- the exact condition

  lemma ReverseBack<T>(s: seq<T>)
    ensures forall i | 0 <= i < |s| :: Reverse(s)[|s| - 1 - i] == s[i]
  {
    forall i | 0 <= i < |s|
      ensures Reverse(s)[|s| - 1 - i] == s[i]
    {
      ReverseAt(s, |s| - 1 - i);
    }
  }

  lemma NamesAsRead(ns: seq<string>, f: seq<Record>, r: seq<Record>)
    requires |f| == |ns| == |r| && forall i | 0 <= i < |ns| :: r[|ns| - 1 - i] == f[i]
    requires forall i | 0 <= i < |ns| :: f[i].name == ns[i]
    ensures NamesRead(Loaded(r), [], ns)
  {
  }

  lemma FlippedNames(a: seq<Record>, r: seq<Record>)
    requires r == Reverse(FlippedAll(a))
    ensures NamesRead(Loaded(r), [], FileNames(a))
  {
    ReverseBack(FlippedAll(a));
    NamesAsRead(FileNames(a), FlippedAll(a), r);
  }

  lemma NamesComeBack(a: seq<Record>, files: Files)
    requires NamesRead(ReadList(ListText(a), files, []), [], FileNames(a))
    ensures forall i | 0 <= i < |a| :: Listable(Capitalize(a[i].name))
  {
    ListIsNameLines(a);
    ReadNamesAreListable(FileNames(a), files, []);
    assert forall i | 0 <= i < |a| :: FileNames(a)[i] == Capitalize(a[i].name);
  }

  lemma FlippedIsClean(r: Record, j: nat)
    requires CleanScores(Flipped(r)) && j < |r.scores|
    ensures Clean(Capitalize(r.scores[j].opponent))
  {
    var w := WrittenAll(r.scores);
    ReverseAt(w, |w| - 1 - j);
    assert Flipped(r).scores[|w| - 1 - j] == w[j];
  }

  lemma OpponentsComeBack(a: seq<Record>, files: Files, r: seq<Record>, i: nat, j: nat)
    requires r == Reverse(FlippedAll(a)) && ReadList(ListText(a), files, []) == Loaded(r)
    requires i < |a| && j < |a[i].scores|
    ensures Clean(Capitalize(a[i].scores[j].opponent))
  {
    LoadedAreClean(ListText(a), files, []);
    var f := FlippedAll(a);
    ReverseBack(f);
    assert f[i] == Flipped(a[i]);
    FlippedIsClean(a[i], j);
  }

  /** Whatever the names, opponents and files: one save and load reverses the challengers and each score list
      exactly if every capitalized name can be listed, every capitalized opponent is clean, and no two
      challengers of the same capitalized name differ in their scores. */
  lemma LoadsBackIff(a: seq<Record>, files: Files)
    ensures Load(SavedFiles(files, a), ListText(a)) == Loaded(Reverse(FlippedAll(a)))
            <==> AllWritable(a) && FilesAgree(a)
  {
    var saved, r := SavedFiles(files, a), Reverse(FlippedAll(a));
    if Load(saved, ListText(a)) == Loaded(r) {
      FlippedNames(a, r);
      NamesComeBack(a, saved);
      forall i, j | 0 <= i < |a| && 0 <= j < |a[i].scores|
        ensures Clean(Capitalize(a[i].scores[j].opponent))
      {
        OpponentsComeBack(a, saved, r, i, j);
      }
      assert forall i | 0 <= i < |a| :: Writable(a[i]);
    }
    if AllWritable(a) { LoadSaved(a, files); }
  }
}
