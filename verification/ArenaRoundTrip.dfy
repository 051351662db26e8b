/**
 Saving and loading the arena statistics reverses the challengers and every score list,
 keeps the totals, and a second time restores the order.
 */
module ArenaRoundTrip {
  import opened Seqs
  import opened Text
  import opened FileText
  import opened ArenaFile

  ghost function Written(s: Score): Score { s.(opponent := Capitalize(s.opponent)) }

  ghost function WrittenAll(scores: seq<Score>): (r: seq<Score>)
    ensures |r| == |scores| && forall i | 0 <= i < |r| :: r[i] == Written(scores[i])
  {
    seq(|scores|, i requires 0 <= i < |scores| => Written(scores[i]))
  }

  /** A record as it comes back from its file. */
  ghost function Flipped(r: Record): Record {
    Record(Capitalize(r.name), Reverse(WrittenAll(r.scores)), Ball(r.scores), |r.scores|)
  }

  ghost function FlippedAll(a: seq<Record>): (b: seq<Record>)
    ensures |b| == |a| && forall i | 0 <= i < |a| :: b[i] == Flipped(a[i])
  {
    seq(|a|, i requires 0 <= i < |a| => Flipped(a[i]))
  }

  /** A name fread_word reads as one word that does not end the list. */
  predicate Listable(name: string) {
    name != "" && !IsQuote(name[0]) && name[0] != '$' && forall i | 0 <= i < |name| :: !IsSpace(name[i])
  }

  ghost predicate Writable(r: Record) {
    Listable(Capitalize(r.name)) && forall i | 0 <= i < |r.scores| :: Clean(Capitalize(r.scores[i].opponent))
  }

  ghost predicate AllWritable(a: seq<Record>) {
    forall i | 0 <= i < |a| :: Writable(a[i])
  }

  // ----- one file

  lemma HashWord(word: string, tail: string)
    requires word != "" && !IsQuote(word[0]) && forall i | 0 <= i < |word| :: !IsSpace(word[i])
    requires tail != "" && IsSpace(tail[0])
    ensures var t := SkipSpace("#" + (word + tail));
            t != "" && t[0] == '#' && ReadWord(t[1..]) == Got(word, tail)
  {
    var t := "#" + (word + tail);
    assert t[0] == '#' && t[1..] == word + tail;
    WordIsRead(word, tail);
  }

  lemma ScoreIsRead(s: Score, rest: string)
    requires Clean(Capitalize(s.opponent))
    ensures var opponent := Capitalize(s.opponent) + ("~" + ("\n" + (Show(s.won) + ("\n" + rest))));
            ReadScore("\n" + (Show(s.time) + ("\n" + opponent))) == ScoreRead(Written(s), "\n" + rest)
  {
    var won := "\n" + (Show(s.won) + ("\n" + rest));
    var opponent := Capitalize(s.opponent) + ("~" + won);
    NumberIsRead(s.time, opponent);
    CleanIsRead("\n", Capitalize(s.opponent), won);
    NumberIsRead(s.won, rest);
  }

  lemma SkipsNewline(s: string, r: Record)
    ensures ReadScores("\n" + s, r) == ReadScores(s, r)
  {
  }

  lemma SectionIsRead(s: Score, rest: string, r: Record)
    requires Clean(Capitalize(s.opponent))
    ensures ReadScores(ScoreText(s, rest), r) == ReadScores(rest, Push(r, Written(s)))
  {
    var body := Show(s.time) + ("\n" + (Capitalize(s.opponent) + ("~" + ("\n" + (Show(s.won) + ("\n" + rest))))));
    assert ScoreText(s, rest) == "#" + ("SCOREDATA" + ("\n" + body)) by {
      Associate("#", "SCOREDATA", "\n" + body);
      assert "#" + "SCOREDATA" == "#SCOREDATA";
    }
    assert ("\n" + body)[0] == '\n';
    HashWord("SCOREDATA", "\n" + body);
    ScoreIsRead(s, rest);
    ScoreFollows(ScoreText(s, rest), "\n" + body, Written(s), "\n" + rest, r);
    SkipsNewline(rest, Push(r, Written(s)));
  }

  /** A score section, read. */
  lemma ScoreFollows(s: string, body: string, score: Score, rest: string, r: Record)
    requires SkipSpace(s) != "" && SkipSpace(s)[0] == '#' && ReadWord(SkipSpace(s)[1..]) == Got("SCOREDATA", body)
    requires ReadScore(body) == ScoreRead(score, rest)
    ensures ReadScores(s, r) == ReadScores(rest, Push(r, score))
  {
  }

  lemma EndIsRead(r: Record)
    ensures ReadScores("#END\n", r) == Loaded(r)
  {
    assert "#END\n" == "#" + ("END" + "\n");
    HashWord("END", "\n");
  }

  ghost function PushedAll(r: Record, scores: seq<Score>): Record {
    Record(r.name, Reverse(WrittenAll(scores)) + r.scores, r.ball + Ball(scores), r.game + |scores|)
  }

  lemma PushFirst(r: Record, scores: seq<Score>)
    requires scores != []
    ensures PushedAll(Push(r, Written(scores[0])), scores[1..]) == PushedAll(r, scores)
  {
    assert WrittenAll(scores)[1..] == WrittenAll(scores[1..]);
    Associate(Reverse(WrittenAll(scores[1..])), [Written(scores[0])], r.scores);
  }

  lemma {:induction false} ScoresAreRead(scores: seq<Score>, r: Record)
    requires forall i | 0 <= i < |scores| :: Clean(Capitalize(scores[i].opponent))
    ensures ReadScores(ScoresText(scores), r) == Loaded(PushedAll(r, scores))
    decreases |scores|
  {
    if scores == [] {
      EndIsRead(r);
      assert Reverse(WrittenAll(scores)) + r.scores == r.scores;
    } else {
      SectionIsRead(scores[0], ScoresText(scores[1..]), r);
      ScoresAreRead(scores[1..], Push(r, Written(scores[0])));
      PushFirst(r, scores);
    }
  }

  // ----- all files

  ghost predicate OnDisk(files: Files, r: Record) {
    Capitalize(r.name) in files && files[Capitalize(r.name)] == ScoresText(r.scores)
  }

  ghost predicate DistinctNames(a: seq<Record>) {
    forall i, j | 0 <= i < j < |a| :: Capitalize(a[i].name) != Capitalize(a[j].name)
  }

  /** A map after a number of writes, and the last write to a key. */
  ghost function WriteAll<K, V>(m: map<K, V>, ks: seq<K>, vs: seq<V>): map<K, V>
    requires |ks| == |vs|
    decreases |ks|
  {
    if ks == [] then m
    else
      var n := |ks| - 1;
      WriteAll(m, ks[..n], vs[..n])[ks[n] := vs[n]]
  }

  ghost function LastAt<K>(ks: seq<K>, i: nat): (j: nat)
    requires i < |ks|
    ensures i <= j < |ks| && ks[j] == ks[i] && forall k | j < k < |ks| :: ks[k] != ks[i]
    decreases |ks|
  {
    if ks[|ks| - 1] == ks[i] then |ks| - 1 else LastAt(ks[..|ks| - 1], i)
  }

  lemma {:induction false} LastWriteStays<K, V>(m: map<K, V>, ks: seq<K>, vs: seq<V>, i: nat)
    requires |ks| == |vs| && i < |ks|
    ensures ks[i] in WriteAll(m, ks, vs) && WriteAll(m, ks, vs)[ks[i]] == vs[LastAt(ks, i)]
    decreases |ks|
  {
    var n := |ks| - 1;
    if ks[n] != ks[i] { LastWriteStays(m, ks[..n], vs[..n], i); }
  }

  ghost function FileNames(a: seq<Record>): (ns: seq<string>)
    ensures |ns| == |a| && forall i | 0 <= i < |a| :: ns[i] == Capitalize(a[i].name)
  {
    seq(|a|, i requires 0 <= i < |a| => Capitalize(a[i].name))
  }

  ghost function FileTexts(a: seq<Record>): (ts: seq<string>)
    ensures |ts| == |a| && forall i | 0 <= i < |a| :: ts[i] == ScoresText(a[i].scores)
  {
    seq(|a|, i requires 0 <= i < |a| => ScoresText(a[i].scores))
  }

  lemma {:induction false} SavedIsWritten(files: Files, a: seq<Record>)
    ensures SavedFiles(files, a) == WriteAll(files, FileNames(a), FileTexts(a))
    decreases |a|
  {
    if a != [] {
      var n := |a| - 1;
      SavedIsWritten(files, a[..n]);
      assert FileNames(a)[..n] == FileNames(a[..n]) && FileTexts(a)[..n] == FileTexts(a[..n]);
    }
  }

  /** The records as the files have them: a name's file holds what was written last under it. */
  ghost function OnFile(a: seq<Record>): (b: seq<Record>)
    ensures |b| == |a|
    ensures forall i | 0 <= i < |a| :: b[i] == a[i].(scores := a[LastAt(FileNames(a), i)].scores)
  {
    seq(|a|, i requires 0 <= i < |a| => a[i].(scores := a[LastAt(FileNames(a), i)].scores))
  }

  lemma SavedIsOnDisk(files: Files, a: seq<Record>, i: nat)
    requires i < |a|
    ensures OnDisk(SavedFiles(files, a), OnFile(a)[i])
  {
    SavedIsWritten(files, a);
    LastWriteStays(files, FileNames(a), FileTexts(a), i);
  }

  lemma PushedOnNothing(r: Record)
    ensures PushedAll(Record(Capitalize(r.name), [], 0, 0), r.scores) == Flipped(r)
  {
  }

  lemma Nothing<T>(s: seq<T>)
    ensures s + [] == s && [] + s == s
  {
  }

  lemma FileIsRead(files: Files, r: Record)
    requires Writable(r) && OnDisk(files, r)
    ensures ReadChallenger(Capitalize(r.name), files) == Loaded(Flipped(r))
  {
    var start := Record(Capitalize(r.name), [], 0, 0);
    ScoresAreRead(r.scores, start);
    PushedOnNothing(r);
  }

  lemma ListEnd(files: Files, sofar: seq<Record>)
    ensures ReadList("$\n", files, sofar) == Loaded(sofar)
  {
  }

  lemma NameIsRead(r: Record, rest: string, files: Files, sofar: seq<Record>)
    requires Writable(r) && OnDisk(files, r)
    ensures ReadList(Capitalize(r.name) + ("\n" + rest), files, sofar) == ReadList(rest, files, [Flipped(r)] + sofar)
  {
    assert ("\n" + rest)[0] == '\n';
    WordIsRead(Capitalize(r.name), "\n" + rest);
    FileIsRead(files, r);
    NameFollows(Capitalize(r.name) + ("\n" + rest), Capitalize(r.name), "\n" + rest, files, Flipped(r), sofar);
    WordSkipsSpace("\n", rest);
    SameReading("\n" + rest, rest, files, [Flipped(r)] + sofar);
  }

  /** A listed name, read. */
  lemma NameFollows(s: string, name: string, rest: string, files: Files, r: Record, sofar: seq<Record>)
    requires ReadWord(s) == Got(name, rest) && (name == "" || name[0] != '$')
    requires ReadChallenger(name, files) == Loaded(r)
    ensures ReadList(s, files, sofar) == ReadList(rest, files, [r] + sofar)
  {
  }

  lemma SameReading(s: string, t: string, files: Files, sofar: seq<Record>)
    requires ReadWord(s) == ReadWord(t)
    ensures ReadList(s, files, sofar) == ReadList(t, files, sofar)
  {
  }

  lemma {:induction false} ListIsRead(a: seq<Record>, files: Files, sofar: seq<Record>)
    requires AllWritable(a) && forall i | 0 <= i < |a| :: OnDisk(files, a[i])
    ensures ReadList(ListText(a), files, sofar) == Loaded(Reverse(FlippedAll(a)) + sofar)
    decreases |a|
  {
    if a == [] {
      ListEnd(files, sofar);
      assert Reverse(FlippedAll(a)) + sofar == sofar;
    } else {
      NameIsRead(a[0], ListText(a[1..]), files, sofar);
      ListIsRead(a[1..], files, [Flipped(a[0])] + sofar);
      assert FlippedAll(a)[1..] == FlippedAll(a[1..]);
      Associate(Reverse(FlippedAll(a[1..])), [Flipped(a[0])], sofar);
    }
  }

  // ----- the theorems

  ghost function Load(files: Files, list: string): Loaded<seq<Record>> { ReadList(list, files, []) }

  lemma {:induction false} ReverseAt<T>(s: seq<T>, i: nat)
    requires i < |s|
    ensures Reverse(s)[i] == s[|s| - 1 - i]
    decreases |s|
  {
    if i < |s| - 1 { ReverseAt(s[1..], i); }
  }

  lemma ReverseTwice<T>(s: seq<T>)
    ensures Reverse(Reverse(s)) == s
  {
    forall i | 0 <= i < |s|
      ensures Reverse(Reverse(s))[i] == s[i]
    {
      ReverseAt(Reverse(s), i);
      ReverseAt(s, |s| - 1 - i);
    }
  }

  lemma {:induction false} BallSplits(s: seq<Score>, t: seq<Score>)
    ensures Ball(s + t) == Ball(s) + Ball(t)
    decreases |s|
  {
    if s == [] {
      assert s + t == t;
    } else {
      assert (s + t)[1..] == s[1..] + t;
      BallSplits(s[1..], t);
    }
  }

  /** The order of the scores does not matter to the total, nor does capitalising. */
  lemma {:induction false} BallOfReverse(s: seq<Score>)
    ensures Ball(Reverse(WrittenAll(s))) == Ball(s)
    decreases |s|
  {
    if s != [] {
      assert WrittenAll(s)[1..] == WrittenAll(s[1..]);
      BallOfReverse(s[1..]);
      BallSplits(Reverse(WrittenAll(s[1..])), [Written(s[0])]);
      assert Ball([Written(s[0])]) == Points(s[0].won);
    }
  }

  /** Totals survive: what is loaded is tallied, and with the same totals if the saved record was. */
  lemma TotalsSurvive(r: Record)
    ensures Tallied(Flipped(r))
    ensures Tallied(r) ==> Flipped(r).ball == r.ball && Flipped(r).game == r.game
  {
    BallOfReverse(r.scores);
  }

  // ----- names that share a file

  lemma {:induction false} SameList(a: seq<Record>, b: seq<Record>)
    requires |a| == |b| && forall i | 0 <= i < |a| :: a[i].name == b[i].name
    ensures ListText(a) == ListText(b)
    decreases |a|
  {
    if a != [] { SameList(a[1..], b[1..]); }
  }

  /** What a load makes of any saved list: all challengers in reverse, each with the scores of the last
      one of its name, in reverse. */
  lemma LoadSavedExactly(a: seq<Record>, files: Files)
    requires AllWritable(a)
    ensures Load(SavedFiles(files, a), ListText(a)) == Loaded(Reverse(FlippedAll(OnFile(a))))
  {
    var b := OnFile(a);
    forall i | 0 <= i < |a|
      ensures OnDisk(SavedFiles(files, a), b[i]) && Writable(b[i])
    {
      SavedIsOnDisk(files, a, i);
      assert Writable(a[i]) && Writable(a[LastAt(FileNames(a), i)]);
    }
    SameList(a, b);
    ListIsRead(b, SavedFiles(files, a), []);
    Nothing(Reverse(FlippedAll(b)));
  }

  ghost function WrittenScores(a: seq<Record>): (ws: seq<seq<Score>>)
    ensures |ws| == |a| && forall i | 0 <= i < |a| :: ws[i] == WrittenAll(a[i].scores)
  {
    seq(|a|, i requires 0 <= i < |a| => WrittenAll(a[i].scores))
  }

  ghost predicate Agree<K, V>(ks: seq<K>, vs: seq<V>)
    requires |ks| == |vs|
  {
    forall i, j | 0 <= i < j < |ks| && ks[i] == ks[j] :: vs[i] == vs[j]
  }

  ghost predicate AsLast<K, V>(ks: seq<K>, vs: seq<V>, i: nat)
    requires i < |ks| == |vs|
  {
    vs[LastAt(ks, i)] == vs[i]
  }

  lemma AgreeWithLast<K, V>(ks: seq<K>, vs: seq<V>)
    requires |ks| == |vs|
    ensures Agree(ks, vs) <==> forall i | 0 <= i < |ks| :: AsLast(ks, vs, i)
  {
    if forall i | 0 <= i < |ks| :: AsLast(ks, vs, i) {
      forall i, j | 0 <= i < j < |ks| && ks[i] == ks[j]
        ensures vs[i] == vs[j]
      {
        assert AsLast(ks, vs, i) && AsLast(ks, vs, j);
      }
    }
  }

  /** Challengers that share a file have the same scores, but for letter case. */
  ghost predicate FilesAgree(a: seq<Record>) { Agree(FileNames(a), WrittenScores(a)) }

  lemma SameScores(r: Record, s: Record)
    requires r.name == s.name
    ensures Flipped(r) == Flipped(s) <==> WrittenAll(r.scores) == WrittenAll(s.scores)
  {
    ReverseTwice(WrittenAll(r.scores));
    ReverseTwice(WrittenAll(s.scores));
    BallOfReverse(r.scores);
    BallOfReverse(s.scores);
  }

  lemma SameAt(a: seq<Record>, i: nat)
    requires i < |a|
    ensures Flipped(OnFile(a)[i]) == Flipped(a[i]) <==> AsLast(FileNames(a), WrittenScores(a), i)
  {
    SameScores(OnFile(a)[i], a[i]);
  }

  lemma OnFileIffAgree(a: seq<Record>)
    ensures FlippedAll(OnFile(a)) == FlippedAll(a) <==> FilesAgree(a)
  {
    var f, g := FlippedAll(OnFile(a)), FlippedAll(a);
    AgreeWithLast(FileNames(a), WrittenScores(a));
    forall i | 0 <= i < |a|
      ensures f[i] == g[i] <==> AsLast(FileNames(a), WrittenScores(a), i)
    {
      SameAt(a, i);
    }
  }

  /** One save and load reverses the challengers and each score list, whatever files were there, exactly
      if no two challengers of the same capitalized name differ in their scores. */
  lemma LoadSaved(a: seq<Record>, files: Files)
    requires AllWritable(a)
    ensures Load(SavedFiles(files, a), ListText(a)) == Loaded(Reverse(FlippedAll(a))) <==> FilesAgree(a)
  {
    LoadSavedExactly(a, files);
    OnFileIffAgree(a);
    ReverseTwice(FlippedAll(OnFile(a)));
    ReverseTwice(FlippedAll(a));
  }

  /** The record with its texts capitalised. */
  ghost function Settled(r: Record): Record {
    Record(Capitalize(r.name), WrittenAll(r.scores), Ball(r.scores), |r.scores|)
  }

  lemma FlippedTwice(r: Record)
    ensures Flipped(Flipped(r)) == Settled(r)
  {
    var w := WrittenAll(r.scores);
    CapitalizeTwice(r.name);
    forall i | 0 <= i < |w|
      ensures WrittenAll(Reverse(w))[i] == Reverse(w)[i]
    {
      ReverseAt(w, i);
      CapitalizeTwice(r.scores[|w| - 1 - i].opponent);
    }
    assert WrittenAll(Reverse(w)) == Reverse(w);
    ReverseTwice(w);
    BallOfReverse(r.scores);
  }

  lemma FlippedIsWritable(r: Record)
    requires Writable(r)
    ensures Writable(Flipped(r))
  {
    var w := WrittenAll(r.scores);
    CapitalizeTwice(r.name);
    forall i | 0 <= i < |w|
      ensures Clean(Capitalize(Reverse(w)[i].opponent))
    {
      ReverseAt(w, i);
      CapitalizeTwice(r.scores[|w| - 1 - i].opponent);
    }
  }

  lemma LowerOfCapital(s: string, i: nat)
    requires i < |s|
    ensures Lower(Capitalize(s)[i]) == Lower(s[i])
  {
  }

  lemma SameFileIsSameText(a: string, b: string)
    requires Capitalize(a) == Capitalize(b)
    ensures SameText(a, b)
  {
    assert |a| == |Capitalize(a)| == |Capitalize(b)| == |b|;
    forall i | 0 <= i < |a|
      ensures Lower(a[i]) == Lower(b[i])
    {
      LowerOfCapital(a, i);
      LowerOfCapital(b, i);
    }
    assert forall i | 0 <= i < |a| :: SameLetter(a[i], b[i]);
  }

  /** A challenger whose name find_challenger does not know gets a file of its own. */
  lemma UnknownNameIsDistinct(r: Record, a: seq<Record>)
    requires DistinctNames(a) && forall i | 0 <= i < |a| :: !SameText(a[i].name, r.name)
    ensures DistinctNames([r] + a)
  {
    forall j | 0 <= j < |a|
      ensures Capitalize(r.name) != Capitalize(a[j].name)
    {
      if Capitalize(a[j].name) == Capitalize(r.name) { SameFileIsSameText(a[j].name, r.name); }
    }
  }

  lemma DistinctAgree(a: seq<Record>)
    requires DistinctNames(a)
    ensures FilesAgree(a)
  {
    assert forall i, j | 0 <= i < j < |a| :: FileNames(a)[i] != FileNames(a)[j];
  }

  lemma ReloadKeeps(a: seq<Record>)
    requires AllWritable(a) && DistinctNames(a)
    ensures var b := Reverse(FlippedAll(a)); AllWritable(b) && DistinctNames(b)
  {
    var f := FlippedAll(a);
    forall i | 0 <= i < |f|
      ensures Writable(Reverse(f)[i]) && Capitalize(Reverse(f)[i].name) == Capitalize(a[|f| - 1 - i].name)
    {
      ReverseAt(f, i);
      FlippedIsWritable(a[|f| - 1 - i]);
      CapitalizeTwice(a[|f| - 1 - i].name);
    }
  }

  ghost function SettledAll(a: seq<Record>): (b: seq<Record>)
    ensures |b| == |a| && forall i | 0 <= i < |a| :: b[i] == Settled(a[i])
  {
    seq(|a|, i requires 0 <= i < |a| => Settled(a[i]))
  }

  lemma MapOfReverse<A, B>(s: seq<A>, t: seq<B>, f: A -> B)
    requires |t| == |s| && forall i | 0 <= i < |s| :: t[i] == f(s[i])
    ensures forall i | 0 <= i < |s| :: Reverse(t)[i] == f(Reverse(s)[i])
  {
  }

  lemma FlippedOfReverse(a: seq<Record>)
    ensures FlippedAll(Reverse(a)) == Reverse(FlippedAll(a))
  {
    MapOfReverse(a, FlippedAll(a), r => Flipped(r));
  }

  lemma TwiceIsSettled(a: seq<Record>)
    ensures Reverse(FlippedAll(Reverse(FlippedAll(a)))) == SettledAll(a)
  {
    var f := FlippedAll(a);
    FlippedOfReverse(f);
    ReverseTwice(FlippedAll(f));
    forall i | 0 <= i < |a|
      ensures FlippedAll(f)[i] == Settled(a[i])
    {
      FlippedTwice(a[i]);
    }
  }

  /** Saving and loading twice gives every record back in its place, with its texts capitalised. */
  lemma TwiceRestores(a: seq<Record>, files: Files, files': Files)
    requires AllWritable(a) && DistinctNames(a)
    ensures var b := Reverse(FlippedAll(a));
            && Load(SavedFiles(files, a), ListText(a)) == Loaded(b)
            && Load(SavedFiles(files', b), ListText(b)) == Loaded(SettledAll(a))
  {
    var b := Reverse(FlippedAll(a));
    DistinctAgree(a);
    LoadSaved(a, files);
    ReloadKeeps(a);
    DistinctAgree(b);
    LoadSaved(b, files');
    TwiceIsSettled(a);
  }

  // ----- files the loader gives up on

  /** A score file with an unknown section, with text where a section should begin, or without its end stops the
      server. */
  lemma BadFileExits(word: string, gap: string, s: string, r: Record)
    requires IsBare(word) && gap != "" && IsSpace(gap[0]) && !SameText(word, "END") && !SameText(word, "SCOREDATA")
    ensures ReadScores("#" + (word + (gap + s)), r) == Exit
    ensures SkipSpace(s) == "" || SkipSpace(s)[0] != '#' ==> ReadScores(s, r) == Exit
  {
    assert (gap + s)[0] == gap[0];
    HashWord(word, gap + s);
  }

  /** So does a listed challenger without a file, and a list without its dollar sign. */
  lemma BadListExits(name: string, rest: string, files: Files, sofar: seq<Record>)
    requires Listable(name) && name !in files
    ensures ReadList(name + ("\n" + rest), files, sofar) == Exit
    ensures ReadList("", files, sofar) == Exit
  {
    assert ("\n" + rest)[0] == '\n';
    WordIsRead(name, "\n" + rest);
  }
}
