/**
 The arena statistics on disk (src/arena.c): a list of names and one file of scores per
 name.  Writing capitalises every name; reading puts everything at the front of its list.
 */
module ArenaFile {
  import opened Seqs
  import opened Text
  import opened FileText

  datatype Score = Score(time: int, opponent: string, won: int)

  datatype Record = Record(name: string, scores: seq<Score>, ball: int, game: int)

  /** A win counts three. */
  function Points(won: int): int { if won == 2 then 3 else won }

  function Ball(scores: seq<Score>): int {
    if scores == [] then 0 else Points(scores[0].won) + Ball(scores[1..])
  }

  predicate Tallied(r: Record) { r.ball == Ball(r.scores) && r.game == |r.scores| }

  // ----- capitalize

  function Upper(c: char): char {
    if '\U{0430}' <= c <= '\U{044F}' then (c as int - 32) as char
    else if 'a' <= c <= 'z' then (c as int - 32) as char
    else c
  }

  function Capitalize(s: string): (r: string)
    ensures |r| == |s|
  {
    if s == "" then "" else [Upper(Lower(s[0]))] + LowerAll(s[1..])
  }

  lemma CapitalizeTwice(s: string)
    ensures Capitalize(Capitalize(s)) == Capitalize(s)
  {
  }

  // ----- numbers

  function Digit(d: nat): char
    requires d < 10
  {
    '0' + d as char
  }

  predicate IsDigit(c: char) { '0' <= c <= '9' }

  function Decimal(n: nat): string {
    if n < 10 then [Digit(n)] else Decimal(n / 10) + [Digit(n % 10)]
  }

  /** printf's %d */
  function Show(n: int): string { if n < 0 then "-" + Decimal(-n) else Decimal(n) }

  datatype Counted = Counted(value: int, rest: string)

  function ReadDigits(s: string, sofar: nat): (r: Counted)
    ensures |r.rest| <= |s|
  {
    if s == "" || !IsDigit(s[0]) then Counted(sofar, s)
    else ReadDigits(s[1..], sofar * 10 + (s[0] as int - '0' as int))
  }

  datatype Number = Number(value: int, rest: string) | BadFormat

  /** fread_number: `a|b` is a sum, and one blank after a number is eaten. */
  function ReadNumber(s: string): (r: Number)
    ensures r.Number? ==> |r.rest| < |s|
    decreases |s|
  {
    var t := SkipSpace(s);
    var signed := t != "" && (t[0] == '+' || t[0] == '-');
    var u := if signed then t[1..] else t;
    if u == "" || !IsDigit(u[0]) then BadFormat
    else
      var d := ReadDigits(u[1..], u[0] as int - '0' as int);
      BehindNumber(if signed && t[0] == '-' then -d.value else d.value, d.rest)
  }

  function BehindNumber(n: int, s: string): (r: Number)
    ensures r.Number? ==> |r.rest| <= |s|
    decreases |s|
  {
    if s != "" && s[0] == '|' then
      var more := ReadNumber(s[1..]);
      if more.Number? then Number(n + more.value, more.rest) else BadFormat
    else if s != "" && s[0] == ' ' then Number(n, s[1..])
    else Number(n, s)
  }

  lemma {:induction false} DecimalIsRead(n: nat, t: string)
    ensures ReadDigits(Decimal(n) + t, 0) == ReadDigits(t, n)
  {
    if n < 10 {
      assert ([Digit(n)] + t)[1..] == t;
    } else {
      Associate(Decimal(n / 10), [Digit(n % 10)], t);
      DecimalIsRead(n / 10, [Digit(n % 10)] + t);
      assert ([Digit(n % 10)] + t)[1..] == t;
    }
  }

  lemma {:induction false} DecimalStarts(n: nat)
    ensures Decimal(n) != "" && IsDigit(Decimal(n)[0])
  {
    if n >= 10 { DecimalStarts(n / 10); }
  }

  /** ReadNumber's two halves on a text that starts with a digit. */
  lemma FirstDigit(s: string)
    requires s != "" && IsDigit(s[0])
    ensures ReadDigits(s, 0) == ReadDigits(s[1..], s[0] as int - '0' as int)
  {
  }

  /** A printed number in a line of its own is read back. */
  lemma NumberIsRead(n: int, rest: string)
    ensures ReadNumber("\n" + (Show(n) + ("\n" + rest))) == Number(n, "\n" + rest)
  {
    var end := "\n" + rest;
    var m := if n < 0 then -n else n;
    SkipsAll("\n", Show(n) + end);
    DecimalStarts(m);
    DecimalIsRead(m, end);
    var u := Decimal(m) + end;
    assert u[0] == Decimal(m)[0] && end[0] == '\n';
    FirstDigit(u);
    assert ReadDigits(end, m) == Counted(m, end);
    if n < 0 {
      Associate("-", Decimal(m), end);
      assert ("-" + u)[1..] == u;
    }
  }

  // ----- save_arenastats

  function ScoresText(scores: seq<Score>): string {
    if scores == [] then "#END\n" else ScoreText(scores[0], ScoresText(scores[1..]))
  }

  function ScoreText(s: Score, rest: string): string {
    var opponent := Capitalize(s.opponent) + ("~" + ("\n" + (Show(s.won) + ("\n" + rest))));
    "#SCOREDATA" + ("\n" + (Show(s.time) + ("\n" + opponent)))
  }

  function ListText(a: seq<Record>): string {
    if a == [] then "$\n" else Capitalize(a[0].name) + ("\n" + ListText(a[1..]))
  }

  type Files = map<string, string>

  /** The score files after all records have been written in order. */
  function SavedFiles(files: Files, a: seq<Record>): Files {
    if a == [] then files
    else
      var last := a[|a| - 1];
      SavedFiles(files, a[..|a| - 1])[Capitalize(last.name) := ScoresText(last.scores)]
  }

  // ----- load_arenastats

  datatype Loaded<T> = Loaded(value: T) | Exit

  function Push(r: Record, s: Score): Record {
    Record(r.name, [s] + r.scores, r.ball + Points(s.won), r.game + 1)
  }

  datatype ScoreRead = ScoreRead(score: Score, rest: string) | BadScore

  /** load_scores */
  function ReadScore(s: string): (r: ScoreRead)
    ensures r.ScoreRead? ==> |r.rest| < |s|
  {
    var time := ReadNumber(s);
    if time.BadFormat? then BadScore
    else
      var opponent := ReadString(time.rest);
      if opponent.Cut? then BadScore
      else
        var won := ReadNumber(opponent.rest);
        if won.BadFormat? then BadScore else ScoreRead(Score(time.value, opponent.text, won.value), won.rest)
  }

  /** One challenger's file. */
  function ReadScores(s: string, r: Record): Loaded<Record>
    decreases |s|
  {
    var t := SkipSpace(s);
    if t == "" || t[0] != '#' then Exit
    else
      match ReadWord(t[1..])
      case Cut(_) => Exit
      case Got(word, rest) =>
        if SameText(word, "END") then Loaded(r)
        else if SameText(word, "SCOREDATA") then
          match ReadScore(rest)
          case BadScore => Exit
          case ScoreRead(score, rest') => ReadScores(rest', Push(r, score))
        else Exit
  }

  /** A listed name's file. */
  function ReadChallenger(name: string, files: Files): Loaded<Record> {
    if name in files then ReadScores(files[name], Record(name, [], 0, 0)) else Exit
  }

  /** The list file, and through it all the others. */
  function ReadList(s: string, files: Files, sofar: seq<Record>): Loaded<seq<Record>>
    decreases |s|
  {
    match ReadWord(s)
    case Cut(word) => if word != "" && word[0] == '$' then Loaded(sofar) else Exit
    case Got(word, rest) =>
      if word != "" && word[0] == '$' then Loaded(sofar)
      else
        match ReadChallenger(word, files)
        case Exit => Exit
        case Loaded(r) => ReadList(rest, files, [r] + sofar)
  }

  // ----- what the helpers mean

  predicate IsCapital(c: char) { 'A' <= c <= 'Z' || '\U{0410}' <= c <= '\U{042F}' }

  predicate IsSmall(c: char) { 'a' <= c <= 'z' || '\U{0430}' <= c <= '\U{044F}' }

  /** capitalize leaves a text that differs in letter case alone, with no small letter in front and no capital
      behind it. */
  lemma CapitalizeMeans(s: string)
    requires s != ""
    ensures SameText(Capitalize(s), s) && !IsSmall(Capitalize(s)[0])
    ensures forall i | 0 < i < |s| :: !IsCapital(Capitalize(s)[i])
  {
    var r := Capitalize(s);
    forall i | 0 <= i < |s|
      ensures SameLetter(r[i], s[i]) && (i > 0 ==> !IsCapital(r[i]))
    {
      assert r[i] == if i == 0 then Upper(Lower(s[0])) else Lower(s[i]);
      UpperOfLower(s[i]);
    }
  }

  lemma UpperOfLower(c: char)
    ensures Lower(Upper(Lower(c))) == Lower(c) == Lower(Lower(c))
    ensures !IsCapital(Lower(c)) && !IsSmall(Upper(Lower(c)))
  {
  }

  lemma DigitsThen(n: nat, end: string)
    requires end != "" && !IsDigit(end[0])
    ensures ReadNumber(Decimal(n) + end) == BehindNumber(n, end)
    ensures ReadNumber("+" + (Decimal(n) + end)) == BehindNumber(n, end)
  {
    PlainNumber(n, end);
    UnsignedThen(Decimal(n) + end, n, end);
    PlusThen(Decimal(n) + end, n, end);
  }

  lemma UnsignedThen(u: string, n: int, end: string)
    requires u != "" && IsDigit(u[0]) && ReadDigits(u[1..], u[0] as int - '0' as int) == Counted(n, end)
    ensures ReadNumber(u) == BehindNumber(n, end)
  {
    assert SkipSpace(u) == u;
  }

  lemma PlusThen(u: string, n: int, end: string)
    requires u != "" && IsDigit(u[0]) && ReadDigits(u[1..], u[0] as int - '0' as int) == Counted(n, end)
    ensures ReadNumber("+" + u) == BehindNumber(n, end)
  {
    var s := "+" + u;
    assert SkipSpace(s) == s && s[0] == '+' && s[1..] == u;
  }

  lemma BarAdds(n: int, m: int, s: string, rest: string)
    requires ReadNumber(s) == Number(m, rest)
    ensures BehindNumber(n, "|" + s) == Number(n + m, rest)
  {
    assert ("|" + s)[1..] == s;
  }

  /** Numbers joined by bars are summed, a plus sign means nothing, and one blank behind a number is taken with
      it. */
  lemma NumbersAreSummed(n: nat, m: nat, rest: string)
    requires rest != "" && IsSpace(rest[0]) && rest[0] != ' '
    ensures ReadNumber(Decimal(n) + ("|" + (Decimal(m) + rest))) == Number(n + m, rest)
    ensures ReadNumber("+" + (Decimal(n) + rest)) == Number(n, rest)
    ensures ReadNumber(Decimal(n) + (" " + rest)) == Number(n, rest)
  {
    DigitsThen(m, rest);
    BarAdds(n, m, Decimal(m) + rest, rest);
    DigitsThen(n, "|" + (Decimal(m) + rest));
    DigitsThen(n, rest);
    DigitsThen(n, " " + rest);
    assert (" " + rest)[1..] == rest;
  }

  /** The digits of a number in front of a text that starts with none. */
  lemma PlainNumber(n: nat, end: string)
    requires end != "" && !IsDigit(end[0])
    ensures var u := Decimal(n) + end;
            && u != "" && IsDigit(u[0]) && SkipSpace(u) == u
            && ReadDigits(u[1..], u[0] as int - '0' as int) == Counted(n, end)
  {
    var u := Decimal(n) + end;
    DecimalStarts(n);
    DecimalIsRead(n, end);
    assert u[0] == Decimal(n)[0];
    FirstDigit(u);
    assert ReadDigits(end, n) == Counted(n, end);
  }

  /** The words around what save_arenastats writes. */
  lemma WrittenInFull(s: Score, rest: string)
    ensures ScoreText(s, rest)
         == "#SCOREDATA\n" + Show(s.time) + "\n" + Capitalize(s.opponent) + "~\n" + Show(s.won) + "\n" + rest
    ensures ScoresText([]) == "#END\n" && ListText([]) == "$\n"
    ensures Show(0) == "0" && Show(10) == "10" && Show(-3) == "-3"
  {
    assert "#SCOREDATA" + "\n" == "#SCOREDATA\n" && "~" + "\n" == "~\n";
    Regrouped("#SCOREDATA\n", Show(s.time), "\n", Capitalize(s.opponent), "~\n" + (Show(s.won) + ("\n" + rest)));
    assert Decimal(1) == "1";
  }

  lemma Regrouped(a: string, b: string, c: string, d: string, e: string)
    ensures a + b + c + d + e == a + (b + (c + (d + e)))
  {
  }
}
