/**
 Whole sessions of the arena command: challengers enter, fight and are deleted again, and what
 is on disk afterwards loads as the list in memory.
 */
module ArenaSession {
  import opened Seqs
  import opened Text
  import opened FileText
  import opened ArenaFile
  import opened ArenaRoundTrip
  import opened Arena
  import opened ArenaExact

  datatype Command =
    | Enter(name: string)
    | Fight(name: string, time: int, opponent: string, won: int)
    | Forget(name: string, time: int)
    | Expel(name: string)

  /** A name that can be written as a line of the list and as an opponent. */
  ghost predicate ProperName(name: string) { Listable(Capitalize(name)) && Clean(Capitalize(name)) }

  ghost predicate ProperNames(c: Command) { ProperName(c.name) && (c.Fight? ==> ProperName(c.opponent)) }

  // ----- the commands on records

  function Entered(a: seq<Record>, name: string): seq<Record> {
    if NamedAt(a, name) < |a| then a else [Record(Capitalize(name), [], 0, 0)] + a
  }

  /** A score for that name, which enters the list if it is new. */
  function Scored(a: seq<Record>, name: string, s: Score): seq<Record> {
    var k := NamedAt(a, name);
    if k < |a| then a[k := Push(a[k], s)] else [Push(Record(Capitalize(name), [], 0, 0), s)] + a
  }

  /** The other side's result. */
  function Mirrored(won: int): int { if won == 2 then 0 else if won == 1 then 1 else 2 }

  function Expelled(a: seq<Record>, name: string): seq<Record> {
    var k := NamedAt(a, name);
    if k < |a| then Seqs.Cut(a, k, k + 1) else a
  }

  /** A score is deleted by its time, and the challenger with the last one. */
  function Forgotten(a: seq<Record>, name: string, time: int): seq<Record> {
    var k := NamedAt(a, name);
    if k == |a| || !Has(a[k], time) then a
    else if Dropped(a[k], time).scores == [] then Seqs.Cut(a, k, k + 1)
    else a[k := Dropped(a[k], time)]
  }

  function Step(a: seq<Record>, c: Command): seq<Record> {
    match c
    case Enter(name) => Entered(a, name)
    case Fight(name, time, opponent, won) =>
      Scored(Scored(a, name, Score(time, Capitalize(opponent), won)),
             opponent, Score(time, Capitalize(name), Mirrored(won)))
    case Forget(name, time) => Forgotten(a, name, time)
    case Expel(name) => Expelled(a, name)
  }

  function Run(a: seq<Record>, cs: seq<Command>): seq<Record> {
    if cs == [] then a else Step(Run(a, cs[..|cs| - 1]), cs[|cs| - 1])
  }

  // ----- what every command keeps

  /** Fit for the files: writable, and no two names share a file. */
  ghost predicate Fit(a: seq<Record>) { AllWritable(a) && DistinctNames(a) }

  lemma PushKeepsWritable(r: Record, s: Score)
    requires Writable(r) && Clean(Capitalize(s.opponent))
    ensures Writable(Push(r, s))
  {
  }

  lemma DroppedIsWritable(r: Record, time: int)
    requires Writable(r)
    ensures Writable(Dropped(r, time)) && Dropped(r, time).name == r.name
  {
  }

  lemma NewIsDistinct(a: seq<Record>, r: Record, name: string)
    requires DistinctNames(a) && NamedAt(a, name) == |a| && r.name == Capitalize(name)
    ensures DistinctNames([r] + a)
  {
    forall i | 0 <= i < |a|
      ensures !SameText(a[i].name, r.name)
    {
      if SameText(a[i].name, r.name) { SameAsCapital(a[i].name, name); }
    }
    UnknownNameIsDistinct(r, a);
  }

  lemma NewIsFit(a: seq<Record>, r: Record, name: string)
    requires Fit(a) && Writable(r) && NamedAt(a, name) == |a| && r.name == Capitalize(name)
    ensures Fit([r] + a)
  {
    NewIsDistinct(a, r, name);
  }

  lemma SameAsCapital(text: string, name: string)
    requires SameText(text, Capitalize(name))
    ensures SameText(text, name)
  {
    forall i | 0 <= i < |name|
      ensures SameLetter(text[i], name[i])
    {
      LowerOfCapital(name, i);
      assert SameLetter(text[i], Capitalize(name)[i]);
    }
  }

  lemma PutKeepsFit(a: seq<Record>, k: nat, r: Record)
    requires Fit(a) && k < |a| && Writable(r) && r.name == a[k].name
    ensures Fit(a[k := r])
  {
  }

  lemma CutKeepsFit(a: seq<Record>, k: nat)
    requires Fit(a) && k < |a|
    ensures Fit(Seqs.Cut(a, k, k + 1))
  {
  }

  lemma ScoredKeepsFit(a: seq<Record>, name: string, s: Score)
    requires Fit(a) && ProperName(name) && Clean(Capitalize(s.opponent))
    ensures Fit(Scored(a, name, s))
  {
    var k := NamedAt(a, name);
    if k < |a| {
      PushKeepsWritable(a[k], s);
      PutKeepsFit(a, k, Push(a[k], s));
    } else {
      CapitalizeTwice(name);
      NewIsFit(a, Push(Record(Capitalize(name), [], 0, 0), s), name);
    }
  }

  lemma StepKeepsFit(a: seq<Record>, c: Command)
    requires Fit(a) && ProperNames(c)
    ensures Fit(Step(a, c))
  {
    var k := NamedAt(a, c.name);
    CapitalizeTwice(c.name);
    match c
    case Enter(name) =>
      if k == |a| { NewIsFit(a, Record(Capitalize(name), [], 0, 0), name); }
    case Fight(name, time, opponent, won) =>
      CapitalizeTwice(opponent);
      var s := Score(time, Capitalize(opponent), won);
      ScoredKeepsFit(a, name, s);
      ScoredKeepsFit(Scored(a, name, s), opponent, Score(time, Capitalize(name), Mirrored(won)));
    case Forget(name, time) =>
      if k < |a| {
        CutKeepsFit(a, k);
        DroppedIsWritable(a[k], time);
        PutKeepsFit(a, k, Dropped(a[k], time));
      }
    case Expel(name) =>
      if k < |a| { CutKeepsFit(a, k); }
  }

  lemma ScoredKeepsDistinct(a: seq<Record>, name: string, s: Score)
    requires DistinctNames(a)
    ensures DistinctNames(Scored(a, name, s))
  {
    if NamedAt(a, name) == |a| { NewIsDistinct(a, Push(Record(Capitalize(name), [], 0, 0), s), name); }
  }

  lemma ForgottenKeepsDistinct(a: seq<Record>, name: string, time: int)
    requires DistinctNames(a)
    ensures DistinctNames(Forgotten(a, name, time))
  {
  }

  /** Whatever the names are like, no two challengers come to share a file. */
  lemma StepKeepsDistinct(a: seq<Record>, c: Command)
    requires DistinctNames(a)
    ensures DistinctNames(Step(a, c))
  {
    match c
    case Enter(name) =>
      if NamedAt(a, name) == |a| { NewIsDistinct(a, Record(Capitalize(name), [], 0, 0), name); }
    case Fight(name, time, opponent, won) =>
      var s := Score(time, Capitalize(opponent), won);
      ScoredKeepsDistinct(a, name, s);
      ScoredKeepsDistinct(Scored(a, name, s), opponent, Score(time, Capitalize(name), Mirrored(won)));
    case Forget(name, time) => ForgottenKeepsDistinct(a, name, time);
    case Expel(name) =>
  }

  lemma {:induction false} RunKeepsDistinct(a: seq<Record>, cs: seq<Command>)
    requires DistinctNames(a)
    ensures DistinctNames(Run(a, cs))
    decreases |cs|
  {
    if cs != [] {
      RunKeepsDistinct(a, cs[..|cs| - 1]);
      StepKeepsDistinct(Run(a, cs[..|cs| - 1]), cs[|cs| - 1]);
    }
  }

  lemma {:induction false} RunKeepsFit(a: seq<Record>, cs: seq<Command>)
    requires Fit(a) && forall i | 0 <= i < |cs| :: ProperNames(cs[i])
    ensures Fit(Run(a, cs))
    decreases |cs|
  {
    if cs != [] {
      RunKeepsFit(a, cs[..|cs| - 1]);
      StepKeepsFit(Run(a, cs[..|cs| - 1]), cs[|cs| - 1]);
    }
  }

  // ----- the commands on the list in memory

  ghost function Crew(board: Board): set<Challenger>
    reads board
  {
    set c | c in board.challengers
  }

  /** find_challenger, and add_challenger for a name it does not find. */
  method FindOrAdd(board: Board, name: string) returns (c: Challenger)
    requires board.Holds()
    requires board.Stored()
    modifies board
    ensures board.Holds()
    ensures board.Stored()
    ensures board.records == Entered(old(board.records), name)
    ensures NamedAt(board.records, name) < |board.records|
    ensures board.challengers[NamedAt(board.records, name)] == c
    ensures fresh(Crew(board) - old(Crew(board)))
  {
    var found := board.FindChallenger(name);
    if found != null { return found; }
    c := board.AddChallenger(Capitalize(name));
    CapitalSame(name);
  }

  lemma CapitalSame(name: string)
    ensures SameText(Capitalize(name), name)
  {
    forall i | 0 <= i < |name|
      ensures SameLetter(Capitalize(name)[i], name[i])
    {
      LowerOfCapital(name, i);
    }
  }

  lemma ScoredIsPushed(a: seq<Record>, name: string, s: Score)
    ensures var e := Entered(a, name);
            var k := NamedAt(e, name);
            k < |e| && Scored(a, name, s) == e[k := Push(e[k], s)]
  {
    CapitalSame(name);
  }

  /** One side of a fight. */
  method DoScore(board: Board, name: string, time: int, opponent: string, won: int)
    requires board.Holds()
    requires board.Stored()
    modifies board, Crew(board)
    ensures board.Holds()
    ensures board.Stored()
    ensures board.records == Scored(old(board.records), name, Score(time, opponent, won))
    ensures fresh(Crew(board) - old(Crew(board)))
  {
    ghost var e := Entered(board.records, name);
    ghost var k := NamedAt(e, name);
    ghost var target := Scored(board.records, name, Score(time, opponent, won));
    ScoredIsPushed(board.records, name, Score(time, opponent, won));
    var c := FindOrAdd(board, name);
    assert c in Crew(board);
    board.AddScore(c, time, opponent, won, k);
    assert board.records == target;
  }

  method DoFight(board: Board, name: string, time: int, opponent: string, won: int)
    requires board.Holds()
    requires board.Stored()
    modifies board, Crew(board)
    ensures board.Holds()
    ensures board.Stored()
    ensures board.records == Step(old(board.records), Fight(name, time, opponent, won))
    ensures fresh(Crew(board) - old(Crew(board)))
  {
    DoScore(board, name, time, Capitalize(opponent), won);
    DoScore(board, opponent, time, Capitalize(name), Mirrored(won));
  }

  /** delete_score, and delete_challenger when that was the last one. */
  method DoForget(board: Board, name: string, time: int)
    requires board.Holds()
    requires board.Stored()
    modifies board, Crew(board)
    ensures board.Holds()
    ensures board.Stored()
    ensures board.records == Forgotten(old(board.records), name, time)
    ensures Crew(board) <= old(Crew(board))
  {
    ghost var a := board.records;
    ghost var k, target := NamedAt(a, name), Forgotten(a, name, time);
    var c := board.FindChallenger(name);
    if c == null { return; }
    assert c.Now() == a[k];
    var known := c.Knows(time);
    if !known { return; }
    DropLast(board, c, time, k, Dropped(a[k], time));
    assert board.records == target;
  }

  lemma CutOfPut(a: seq<Record>, k: nat, r: Record)
    requires k < |a|
    ensures Seqs.Cut(a[k := r], k, k + 1) == Seqs.Cut(a, k, k + 1)
  {
  }

  lemma CutSubset(cs: seq<Challenger>, k: nat)
    requires k < |cs|
    ensures forall c | c in Seqs.Cut(cs, k, k + 1) :: c in cs
  {
  }

  method DropLast(board: Board, c: Challenger, time: int, ghost k: nat, ghost r: Record)
    requires board.Holds()
    requires board.Stored()
    requires k < |board.challengers| && board.challengers[k] == c
    requires Has(board.records[k], time) && r == Dropped(board.records[k], time)
    modifies board, c
    ensures board.Holds()
    ensures board.Stored()
    ensures r.scores == [] ==> board.records == Seqs.Cut(old(board.records), k, k + 1)
    ensures r.scores != [] ==> board.records == old(board.records)[k := r]
    ensures Crew(board) <= old(Crew(board))
  {
    ghost var cs := board.challengers;
    CutOfPut(board.records, k, r);
    CutSubset(cs, k);
    board.DeleteScore(c, time, k);
    assert board.challengers == cs && c.Now() == board.records[k];
    if c.scores == [] { board.DeleteChallenger(c, k); }
  }

  method DoExpel(board: Board, name: string)
    requires board.Holds()
    requires board.Stored()
    modifies board, Crew(board)
    ensures board.Holds()
    ensures board.Stored()
    ensures board.records == Expelled(old(board.records), name)
    ensures Crew(board) <= old(Crew(board))
  {
    ghost var a := board.records;
    ghost var k, target := NamedAt(a, name), Expelled(a, name);
    var c := board.FindChallenger(name);
    if c != null {
      board.DeleteChallenger(c, k);
      assert board.records == target;
    }
  }

  /** One command does to the list in memory what Step does to records, and leaves it saved. */
  method Perform(board: Board, c: Command)
    requires board.Holds()
    requires board.Stored()
    modifies board, Crew(board)
    ensures board.Holds()
    ensures board.Stored()
    ensures board.records == Step(old(board.records), c)
    ensures fresh(Crew(board) - old(Crew(board)))
  {
    match c
    case Enter(name) => var _ := FindOrAdd(board, name);
    case Fight(name, time, opponent, won) => DoFight(board, name, time, opponent, won);
    case Forget(name, time) => DoForget(board, name, time);
    case Expel(name) => DoExpel(board, name);
  }

  method PerformAll(board: Board, cs: seq<Command>)
    requires board.Holds()
    requires board.Stored()
    modifies board, Crew(board)
    ensures board.Holds()
    ensures board.Stored()
    ensures board.records == Run(old(board.records), cs)
  {
    ghost var a := board.records;
    assert cs[..0] == [];
    for i := 0 to |cs|
      invariant board.Holds()
      invariant board.Stored()
      invariant board.records == Run(a, cs[..i])
      invariant fresh(Crew(board) - old(Crew(board)))
    {
      Perform(board, cs[i]);
      OneMoreCommand(a, cs, i);
    }
    assert cs[..|cs|] == cs;
  }

  lemma OneMoreCommand(a: seq<Record>, cs: seq<Command>, i: nat)
    requires i < |cs|
    ensures Run(a, cs[..i + 1]) == Step(Run(a, cs[..i]), cs[i])
  {
    assert cs[..i + 1][..i] == cs[..i];
  }

  /** Whatever names are given to the commands: what is on disk afterwards loads as the list in memory in
      reverse exactly if the list's names can be listed and its opponents are clean. */
  method AnySession(board: Board, cs: seq<Command>)
    requires board.Holds()
    requires board.Stored()
    requires DistinctNames(board.records)
    modifies board, Crew(board)
    ensures board.Holds()
    ensures board.records == Run(old(board.records), cs)
    ensures Load(board.files, board.list) == Loaded(Reverse(FlippedAll(board.records))) <==> AllWritable(board.records)
  {
    RunKeepsDistinct(board.records, cs);
    PerformAll(board, cs);
    DistinctAgree(board.records);
    LoadsBackIff(board.records, board.base);
  }

  /** Whatever is done to a list fit for the files, what is on disk afterwards loads as that list in
      reverse, and is fit for the files again. */
  method Session(board: Board, cs: seq<Command>)
    requires board.Holds()
    requires board.Stored()
    requires Fit(board.records) && forall i | 0 <= i < |cs| :: ProperNames(cs[i])
    modifies board, Crew(board)
    ensures board.Holds()
    ensures board.records == Run(old(board.records), cs) && Fit(board.records)
    ensures Load(board.files, board.list) == Loaded(Reverse(FlippedAll(board.records)))
    ensures Fit(Reverse(FlippedAll(board.records)))
  {
    RunKeepsFit(board.records, cs);
    PerformAll(board, cs);
    ReloadsReversed(board);
    ReloadKeeps(board.records);
  }

  /** A win counts three for one side and nothing for the other, a draw one for each. */
  lemma BothSides(won: int)
    requires 0 <= won <= 2
    ensures Points(2) == 3 && Points(1) == 1 && Points(0) == 0 && Mirrored(Mirrored(won)) == won
    ensures Points(won) + Points(Mirrored(won)) == if won == 1 then 2 else 3
    ensures won == 1 <==> Points(won) == Points(Mirrored(won))
  {
  }

  lemma {:induction false} BallCounts(scores: seq<Score>)
    requires forall i | 0 <= i < |scores| :: 0 <= scores[i].won <= 2
    ensures Ball(scores) == 3 * |set i | 0 <= i < |scores| && scores[i].won == 2|
                          + |set i | 0 <= i < |scores| && scores[i].won == 1|
  {
    if scores != [] {
      var n := |scores| - 1;
      var init, last := scores[..n], scores[n];
      BallCounts(init);
      BallSplits(init, [last]);
      assert scores == init + [last];
      assert Ball([last]) == Points(last.won) + Ball([]) by { assert [last][1..] == []; }
      OneMoreWon(scores, 2);
      OneMoreWon(scores, 1);
    }
  }

  lemma OneMoreWon(scores: seq<Score>, won: int)
    requires scores != []
    ensures var n := |scores| - 1;
            |set i | 0 <= i < |scores| && scores[i].won == won| ==
            |set i | 0 <= i < n && scores[..n][i].won == won| + if scores[n].won == won then 1 else 0
  {
    var n := |scores| - 1;
    var a := set i | 0 <= i < |scores| && scores[i].won == won;
    var b := set i | 0 <= i < n && scores[..n][i].won == won;
    assert a == b + if scores[n].won == won then {n} else {};
  }

  // ----- what the commands mean

  /** The record that a name finds. */
  ghost predicate Finds(a: seq<Record>, name: string, r: Record) {
    NamedAt(a, name) < |a| && a[NamedAt(a, name)] == r
  }

  /** Entering makes the name known and keeps everyone else in place behind it. */
  lemma EnteredMeans(a: seq<Record>, name: string)
    ensures var b := Step(a, Enter(name));
            && NamedAt(b, name) < |b|
            && (NamedAt(a, name) < |a| ==> b == a)
            && (NamedAt(a, name) == |a| ==> b[1..] == a && Finds(b, name, Record(Capitalize(name), [], 0, 0)))
  {
    CapitalSame(name);
  }

  /** One side of a fight: the score is the first of the one the name finds, and nobody else's change. */
  lemma ScoredMeans(a: seq<Record>, name: string, s: Score)
    ensures var b := Scored(a, name, s);
            && NamedAt(b, name) < |b| && b[NamedAt(b, name)].scores != [] && b[NamedAt(b, name)].scores[0] == s
            && if NamedAt(a, name) == |a| then |b| == |a| + 1 && b[1..] == a
               else && |b| == |a| && NamedAt(b, name) == NamedAt(a, name)
                    && forall i | 0 <= i < |a| && i != NamedAt(a, name) :: b[i] == a[i]
  {
    CapitalSame(name);
    var k := NamedAt(a, name);
    if k < |a| { SameNamed(a, a[k := Push(a[k], s)], name); }
  }

  lemma {:induction false} SameNamed(a: seq<Record>, b: seq<Record>, name: string)
    requires |a| == |b| && forall i | 0 <= i < |a| :: a[i].name == b[i].name
    ensures NamedAt(a, name) == NamedAt(b, name)
    decreases |a|
  {
    if a != [] && !SameText(a[0].name, name) { SameNamed(a[1..], b[1..], name); }
  }

  /** Forgetting a score takes away the first of that time, and the challenger whose only one it was; without such
      a score nothing happens.  Expelling takes the challenger away. */
  lemma ForgottenMeans(a: seq<Record>, name: string, time: int)
    ensures var k, b := NamedAt(a, name), Step(a, Forget(name, time));
            if k == |a| || forall i | 0 <= i < |a[k].scores| :: a[k].scores[i].time != time then b == a
            else if |a[k].scores| == 1 then b == a[..k] + a[k + 1..]
            else && |b| == |a| && |b[k].scores| == |a[k].scores| - 1
                 && forall i | 0 <= i < |a| && i != k :: b[i] == a[i]
    ensures var k, b := NamedAt(a, name), Step(a, Expel(name)); b == if k < |a| then a[..k] + a[k + 1..] else a
  {
    var k := NamedAt(a, name);
    if k < |a| {
      var i := FirstAt(a[k].scores, time);
      if i < |a[k].scores| { assert a[k].scores[i].time == time; }
    }
  }
}
