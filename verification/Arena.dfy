/**
 The arena statistics in memory (src/arena.c, with the score free list of src/recycle.c):
 every operation keeps the totals, and leaves on disk what a later load needs.
 */
module Arena {
  import opened Seqs
  import opened Text
  import opened FileText
  import opened ArenaFile
  import opened ArenaRoundTrip

  // ----- scores by time

  function FirstAt(scores: seq<Score>, time: int): (i: nat)
    ensures i <= |scores| && (i < |scores| ==> scores[i].time == time)
    ensures forall j | 0 <= j < i :: scores[j].time != time
  {
    if scores == [] || scores[0].time == time then 0 else 1 + FirstAt(scores[1..], time)
  }

  /** The scores without the first one of that time. */
  function Without(scores: seq<Score>, time: int): (r: seq<Score>)
    ensures |r| <= |scores|
  {
    var i := FirstAt(scores, time);
    if i < |scores| then scores[..i] + scores[i + 1..] else scores
  }

  predicate Has(r: Record, time: int) { FirstAt(r.scores, time) < |r.scores| }

  /** A record after delete_score. */
  function Dropped(r: Record, time: int): (d: Record)
    ensures d.name == r.name && d.scores == Without(r.scores, time)
  {
    if Has(r, time) then
      var won := r.scores[FirstAt(r.scores, time)].won;
      Record(r.name, Without(r.scores, time), r.ball - Points(won), r.game - 1)
    else r
  }

  lemma DropKeepsTally(r: Record, time: int)
    requires Tallied(r)
    ensures Tallied(Dropped(r, time))
  {
    if Has(r, time) { BallWithout(r.scores, FirstAt(r.scores, time)); }
  }

  function WithoutAll(scores: seq<Score>, times: seq<int>): seq<Score>
    decreases |times|
  {
    if times == [] then scores else WithoutAll(Without(scores, times[0]), times[1..])
  }

  function Times(scores: seq<Score>): (r: seq<int>)
    ensures |r| == |scores| && forall i | 0 <= i < |r| :: r[i] == scores[i].time
  {
    seq(|scores|, i requires 0 <= i < |scores| => scores[i].time)
  }

  /** What delete_challenger fails to free.  Its loop goes on from a freed score's next pointer, that is,
      through the free list, and deletes by the times it finds there. */
  function Leftover(scores: seq<Score>, free: seq<int>): seq<Score> {
    if scores == [] then [] else WithoutAll(scores[1..], free)
  }

  lemma BallWithout(scores: seq<Score>, i: nat)
    requires i < |scores|
    ensures Ball(scores[..i] + scores[i + 1..]) == Ball(scores) - Points(scores[i].won)
  {
    assert scores == scores[..i] + ([scores[i]] + scores[i + 1..]);
    BallSplits(scores[..i], [scores[i]] + scores[i + 1..]);
    BallSplits(scores[..i], scores[i + 1..]);
    assert ([scores[i]] + scores[i + 1..])[1..] == scores[i + 1..];
  }

  lemma LessOne(s: seq<int>, i: nat)
    requires i < |s|
    ensures multiset(s[..i] + s[i + 1..]) == multiset(s) - multiset{s[i]}
  {
    assert s == s[..i] + ([s[i]] + s[i + 1..]);
  }

  lemma LessMore(m: multiset<int>, t: int, ts: seq<int>)
    ensures m - multiset{t} - multiset(ts) == m - multiset([t] + ts)
  {
  }

  lemma TimesOfCut(scores: seq<Score>, i: nat)
    requires i < |scores|
    ensures Times(scores[..i] + scores[i + 1..]) == Times(scores)[..i] + Times(scores)[i + 1..]
  {
  }

  lemma TimesWithout(scores: seq<Score>, time: int)
    ensures multiset(Times(Without(scores, time))) == multiset(Times(scores)) - multiset{time}
  {
    var i, ts := FirstAt(scores, time), Times(scores);
    if i < |scores| {
      TimesOfCut(scores, i);
      LessOne(ts, i);
    } else {
      assert time !in ts;
    }
  }

  lemma {:induction false} TimesWithoutAll(scores: seq<Score>, times: seq<int>)
    ensures multiset(Times(WithoutAll(scores, times))) == multiset(Times(scores)) - multiset(times)
    decreases |times|
  {
    if times != [] {
      TimesWithout(scores, times[0]);
      TimesWithoutAll(Without(scores, times[0]), times[1..]);
      LessMore(multiset(Times(scores)), times[0], times[1..]);
      assert [times[0]] + times[1..] == times;
    }
  }

  /** Deleting a challenger frees all scores exactly if the free list happens to hold, for every score
      after the first, a score of the same time. */
  lemma AllFreedIff(scores: seq<Score>, free: seq<int>)
    ensures Leftover(scores, free) == [] <==> scores == [] || multiset(Times(scores[1..])) <= multiset(free)
  {
    if scores != [] {
      TimesWithoutAll(scores[1..], free);
      EmptyDifference(Times(Leftover(scores, free)), multiset(Times(scores[1..])), multiset(free));
    }
  }

  lemma EmptyDifference(left: seq<int>, a: multiset<int>, b: multiset<int>)
    requires multiset(left) == a - b
    ensures left == [] <==> a <= b
  {
    if left != [] { assert left[0] in multiset(left); }
    if left == [] {
      forall x | x in a
        ensures a[x] <= b[x]
      {
        assert (a - b)[x] == 0;
      }
    }
  }

  /** With an empty free list all scores but the first stay behind. */
  lemma DeleteLeaks(scores: seq<Score>)
    ensures Leftover(scores, []) == if scores == [] then [] else scores[1..]
  {
  }

  // ----- the list in memory

  /** The first record of that name up to letter case, as find_challenger finds it. */
  function NamedAt(a: seq<Record>, name: string): (k: nat)
    ensures k <= |a| && (k < |a| ==> SameText(a[k].name, name))
    ensures forall i | 0 <= i < k :: !SameText(a[i].name, name)
  {
    if a == [] || SameText(a[0].name, name) then 0 else 1 + NamedAt(a[1..], name)
  }

  class Challenger {
    const name: string
    var scores: seq<Score>   // newest first
    var ball: int
    var game: int

    constructor (name: string)
      ensures Now() == Record(name, [], 0, 0)
    {
      this.name, scores, ball, game := name, [], 0, 0;
    }

    function Now(): Record
      reads this
    {
      Record(name, scores, ball, game)
    }

    /** add_score's update */
    method Put(s: Score)
      requires Tallied(Now())
      modifies this
      ensures Now() == Push(old(Now()), s) && Tallied(Now())
    {
      ball := ball + Points(s.won);
      game := game + 1;
      scores := [s] + scores;
      assert scores[1..] == old(scores);
    }

    /** find_score_by_time, as far as whether there is one */
    method Knows(time: int) returns (found: bool)
      ensures found == Has(Now(), time)
    {
      for i := 0 to |scores|
        invariant forall j | 0 <= j < i :: scores[j].time != time
      {
        if scores[i].time == time { return true; }
      }
      return false;
    }

    /** delete_score but for the save; freed is whether there was a score of that time. */
    method Take(time: int) returns (freed: bool)
      requires Tallied(Now())
      modifies this
      ensures Now() == Dropped(old(Now()), time) && Tallied(Now())
      ensures freed == Has(old(Now()), time)
    {
      DropKeepsTally(Now(), time);
      var i := 0;
      while i < |scores| && scores[i].time != time
        invariant i <= |scores| && forall j | 0 <= j < i :: scores[j].time != time
      {
        i := i + 1;
      }
      assert i == FirstAt(scores, time);
      if i == |scores| { return false; }
      ball := ball - Points(scores[i].won);
      game := game - 1;
      scores := scores[..i] + scores[i + 1..];
      return true;
    }
  }

  class Board {
    var challengers: seq<Challenger>   // challenger_list
    var scoreFree: seq<int>            // the times left in the score free list
    var files: Files
    var list: string
    ghost var records: seq<Record>     // what the challengers hold
    ghost var base: Files              // the files before the last save

    constructor (files: Files)
      ensures Holds() && Stored() && records == []
    {
      challengers, scoreFree, this.files, list := [], [], files, "$\n";
      records, base := [], files;
    }

    /** records is what the list holds, and its totals are right. */
    ghost predicate Holds()
      reads this, challengers
    {
      && Distinct(challengers) && |records| == |challengers|
      && (forall i | 0 <= i < |records| :: challengers[i].Now() == records[i])
      && (forall i | 0 <= i < |records| :: Tallied(records[i]))
    }

    /** The files are those of the list in memory. */
    ghost predicate Stored()
      reads this
    {
      list == ListText(records) && files == SavedFiles(base, records)
    }

    /** save_arenastats, all files being writable */
    method Save()
      requires Holds()
      modifies this`files, this`list, this`base
      ensures Stored()
    {
      base := files;
      list := "";
      for i := 0 to |challengers|
        invariant files == SavedFiles(base, records[..i])
        invariant list + ListText(records[i..]) == ListText(records)
      {
        SaveOne(i);
      }
      assert records[..|records|] == records;
      list := list + "$\n";
    }

    /** The file and the list entry of one challenger. */
    method SaveOne(i: nat)
      requires Holds() && i < |challengers|
      requires files == SavedFiles(base, records[..i]) && list + ListText(records[i..]) == ListText(records)
      modifies this`files, this`list
      ensures files == SavedFiles(base, records[..i + 1]) && list + ListText(records[i + 1..]) == ListText(records)
    {
      var c := challengers[i];
      assert c.Now() == records[i];
      var text := WriteScores(c.scores);
      OneMoreFile(base, records, i);
      list := WriteName(list, Capitalize(c.name), ListText(records[i + 1..]));
      files := files[Capitalize(c.name) := text];
    }

    /** find_challenger */
    method FindChallenger(name: string) returns (c: Challenger?)
      requires Holds()
      ensures c == null ==> forall i | 0 <= i < |records| :: !SameText(records[i].name, name)
      ensures c != null ==> exists i | 0 <= i < |records| :: challengers[i] == c && SameText(records[i].name, name)
      ensures c == null <==> NamedAt(records, name) == |records|
      ensures c != null ==> challengers[NamedAt(records, name)] == c
    {
      for i := 0 to |challengers|
        invariant forall j | 0 <= j < i :: !SameText(records[j].name, name)
      {
        assert challengers[i].Now() == records[i];
        if SameText(challengers[i].name, name) {
          assert NamedAt(records, name) == i;
          return challengers[i];
        }
      }
      return null;
    }

    method LinkNew(name: string) returns (c: Challenger)
      requires Holds()
      modifies this`challengers, this`records
      ensures Holds() && challengers == [c] + old(challengers) && fresh(c)
      ensures records == [Record(name, [], 0, 0)] + old(records)
    {
      c := new Challenger(name);
      challengers := [c] + challengers;
      records := [c.Now()] + records;
    }

    /** add_challenger */
    method AddChallenger(name: string) returns (c: Challenger)
      requires Holds()
      modifies this
      ensures Holds() && Stored() && challengers == [c] + old(challengers) && fresh(c)
      ensures records == [Record(name, [], 0, 0)] + old(records) && scoreFree == old(scoreFree)
    {
      c := LinkNew(name);
      Save();
    }

    /** add_score but for the save: new_score takes a freed score if there is one. */
    method Win(c: Challenger, s: Score, ghost k: nat)
      requires Holds() && k < |challengers| && challengers[k] == c
      modifies this`records, this`scoreFree, c
      ensures Holds() && records == old(records)[k := Push(old(records)[k], s)]
      ensures scoreFree == if old(scoreFree) == [] then [] else old(scoreFree)[1..]
    {
      if scoreFree != [] { scoreFree := scoreFree[1..]; }
      c.Put(s);
      records := records[k := c.Now()];
    }

    /** add_score */
    method AddScore(c: Challenger, time: int, opponent: string, won: int, ghost k: nat)
      requires Holds() && k < |challengers| && challengers[k] == c
      modifies this, c
      ensures Holds() && Stored() && challengers == old(challengers)
      ensures records == old(records)[k := Push(old(records)[k], Score(time, opponent, won))]
      ensures scoreFree == if old(scoreFree) == [] then [] else old(scoreFree)[1..]
    {
      Win(c, Score(time, opponent, won), k);
      Save();
    }

    /** delete_score */
    method DeleteScore(c: Challenger, time: int, ghost k: nat)
      requires Holds() && k < |challengers| && challengers[k] == c
      modifies this, c
      ensures Holds() && challengers == old(challengers)
      ensures records == old(records)[k := Dropped(old(records)[k], time)]
      ensures scoreFree == if Has(old(records)[k], time) then [time] + old(scoreFree) else old(scoreFree)
      ensures if Has(old(records)[k], time) then Stored() else unchanged(`files) && unchanged(`list) && unchanged(`base)
    {
      var freed := c.Take(time);
      if !freed { return; }
      scoreFree := [time] + scoreFree;
      records := records[k := c.Now()];
      Save();
    }

    /** The loop of delete_challenger: on from the first score it frees into the free list. */
    method DeleteScores(c: Challenger, ghost k: nat)
      requires Holds() && k < |challengers| && challengers[k] == c
      modifies this, c
      ensures Holds() && challengers == old(challengers)
      ensures |records| == |old(records)| && records[k].scores == Leftover(old(c.scores), old(scoreFree))
      ensures forall i | 0 <= i < |records| && i != k :: records[i] == old(records)[i]
    {
      if c.scores == [] { return; }
      var next := scoreFree;
      DeleteScore(c, c.scores[0].time, k);
      assert records[k].scores == old(c.scores)[1..];
      while next != []
        invariant Holds() && challengers == old(challengers) && |records| == |old(records)|
        invariant WithoutAll(records[k].scores, next) == Leftover(old(c.scores), old(scoreFree))
        invariant forall i | 0 <= i < |records| && i != k :: records[i] == old(records)[i]
        decreases |next|
      {
        DeleteScore(c, next[0], k);
        next := next[1..];
      }
    }

    method Unlink(c: Challenger, ghost k: nat)
      requires Holds() && k < |challengers| && challengers[k] == c
      modifies this`challengers, this`records
      ensures Holds()
      ensures challengers == Seqs.Cut(old(challengers), k, k + 1) && records == Seqs.Cut(old(records), k, k + 1)
    {
      var prev := 0;
      while challengers[prev] != c
        invariant prev <= k
        decreases k - prev
      {
        prev := prev + 1;
      }
      CutDistinct(challengers, k, k + 1);
      challengers := challengers[..prev] + challengers[prev + 1..];
      records := records[..k] + records[k + 1..];
    }

    /** delete_challenger */
    method DeleteChallenger(c: Challenger, ghost k: nat)
      requires Holds() && k < |challengers| && challengers[k] == c
      modifies this, c
      ensures Holds() && Stored() && challengers == Seqs.Cut(old(challengers), k, k + 1)
      ensures records == Seqs.Cut(old(records), k, k + 1)
      ensures c.scores == Leftover(old(c.scores), old(scoreFree))
    {
      DeleteScores(c, k);
      assert Seqs.Cut(records, k, k + 1) == Seqs.Cut(old(records), k, k + 1);
      Unlink(c, k);
      Save();
    }
  }

  // ----- writing

  lemma OneMoreFile(files: Files, a: seq<Record>, i: nat)
    requires i < |a|
    ensures SavedFiles(files, a[..i + 1]) == SavedFiles(files, a[..i])[Capitalize(a[i].name) := ScoresText(a[i].scores)]
    ensures ListText(a[i..]) == Capitalize(a[i].name) + ("\n" + ListText(a[i + 1..]))
  {
    assert a[..i + 1][..i] == a[..i];
    assert a[i..][1..] == a[i + 1..];
  }

  method WriteName(text: string, name: string, ghost rest: string) returns (r: string)
    ensures r + rest == text + (name + ("\n" + rest))
  {
    Associate(text, name, "\n" + rest);
    Associate(text + name, "\n", rest);
    r := text + name + "\n";
  }

  /** One section of a challenger's file. */
  method WriteScore(text: string, s: Score, ghost rest: string) returns (r: string)
    ensures r + rest == text + ScoreText(s, rest)
  {
    ghost var won := Show(s.won) + ("\n" + rest);
    ghost var opponent := Capitalize(s.opponent) + ("~" + ("\n" + won));
    r := WriteName(text, "#SCOREDATA", Show(s.time) + ("\n" + opponent));
    r := WriteName(r, Show(s.time), opponent);
    Associate(r, Capitalize(s.opponent), "~" + ("\n" + won));
    r := r + Capitalize(s.opponent);
    r := WriteName(r, "~", won);
    r := WriteName(r, Show(s.won), rest);
  }

  /** A challenger's file. */
  method WriteScores(scores: seq<Score>) returns (text: string)
    ensures text == ScoresText(scores)
  {
    text := "";
    for i := 0 to |scores|
      invariant text + ScoresText(scores[i..]) == ScoresText(scores)
    {
      assert scores[i..][1..] == scores[i + 1..];
      text := WriteScore(text, scores[i], ScoresText(scores[i + 1..]));
    }
    text := text + "#END\n";
  }

  // ----- reading

  /** The section loop of load_arenastats for one file. */
  method LoadScores(text: string, name: string) returns (r: Loaded<Record>)
    ensures r == ReadScores(text, Record(name, [], 0, 0))
  {
    var s, c := text, Record(name, [], 0, 0);
    while true
      invariant ReadScores(s, c) == ReadScores(text, Record(name, [], 0, 0))
      decreases |s|
    {
      var t := SkipSpace(s);
      if t == "" || t[0] != '#' { return Exit; }
      var word := ReadWord(t[1..]);
      if word.Cut? { return Exit; }
      if SameText(word.text, "END") { return Loaded(c); }
      if !SameText(word.text, "SCOREDATA") { return Exit; }
      var score := ReadScore(word.rest);
      if score.BadScore? { return Exit; }
      c := Push(c, score.score);
      s := score.rest;
    }
  }

  /** load_arenastats */
  method LoadArena(list: string, files: Files) returns (r: Loaded<seq<Record>>)
    ensures r == ReadList(list, files, [])
  {
    var s, sofar := list, [];
    while true
      invariant ReadList(s, files, sofar) == ReadList(list, files, [])
      decreases |s|
    {
      var word := ReadWord(s);
      if word.text != "" && word.text[0] == '$' { return Loaded(sofar); }
      if word.Cut? || word.text !in files { return Exit; }
      var c := LoadScores(files[word.text], word.text);
      if c.Exit? { return Exit; }
      sofar := [c.value] + sofar;
      s := word.rest;
    }
  }

  /** After any of the operations a load gives the list in memory back in reverse, totals and all. */
  lemma ReloadsReversed(board: Board)
    requires board.Holds() && board.Stored() && AllWritable(board.records) && DistinctNames(board.records)
    ensures Load(board.files, board.list) == Loaded(Reverse(FlippedAll(board.records)))
    ensures forall i | 0 <= i < |board.challengers| ::
      var c, r := board.challengers[i], FlippedAll(board.records)[i];
      r.name == Capitalize(c.name) && r.ball == c.ball && r.game == c.game
  {
    DistinctAgree(board.records);
    LoadSaved(board.records, board.base);
    forall i | 0 <= i < |board.challengers|
      ensures var c, r := board.challengers[i], FlippedAll(board.records)[i];
              r.name == Capitalize(c.name) && r.ball == c.ball && r.game == c.game
    {
      assert board.challengers[i].Now() == board.records[i];
      TotalsSurvive(board.records[i]);
    }
  }
}
