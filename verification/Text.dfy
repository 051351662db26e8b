/**
 The text helpers the tables and editors share: letter case (src/merc.h), prefix
 comparison (src/db.c), and splitting off an argument (src/interp.c).
 A C string is the sequence of its characters before the terminating NUL.
 */
module Text {

  const IE := '\U{0435}'  // Cyrillic small ie
  const YO := '\U{0451}'  // Cyrillic small yo

  /** LOWER: Latin and Cyrillic capitals; capital yo lies outside the Cyrillic range. */
  function Lower(c: char): char {
    if '\U{0410}' <= c <= '\U{042F}' then (c as int + 32) as char
    else if 'A' <= c <= 'Z' then (c as int + 32) as char
    else c
  }

  function LowerAll(s: string): (r: string)
    ensures |r| == |s| && forall i | 0 <= i < |s| :: r[i] == Lower(s[i])
  {
    seq(|s|, i requires 0 <= i < |s| => Lower(s[i]))
  }

  predicate IsSpace(c: char) { c == ' ' || c == '\n' || c == '\r' || c == '\t' }

  /** str_prefix's letter comparison: case is ignored, and yo counts as ie. */
  predicate SameLetter(a: char, b: char) {
    || Lower(a) == Lower(b)
    || (Lower(a) == IE && Lower(b) == YO)
    || (Lower(a) == YO && Lower(b) == IE)
  }

  predicate IsPrefix(a: string, b: string) {
    |a| <= |b| && forall i | 0 <= i < |a| :: SameLetter(a[i], b[i])
  }

  /** str_prefix, which returns FALSE when a is a prefix of b. */
  method StrPrefix(a: string, b: string) returns (differs: bool)
    ensures differs == !IsPrefix(a, b)
  {
    var i := 0;
    while i < |a|
      invariant 0 <= i <= |a| && i <= |b|
      invariant forall j | 0 <= j < i :: SameLetter(a[j], b[j])
    {
      if i == |b| || !SameLetter(a[i], b[i]) { return true; }
      i := i + 1;
    }
    return false;
  }

  /** The match of the table lookups: same first letter up to case, then prefix. */
  predicate Abbreviates(word: string, name: string) {
    word != "" && name != "" && Lower(word[0]) == Lower(name[0]) && IsPrefix(word, name)
  }

  // ----- one_argument

  function SkipSpace(s: string): (r: string)
    ensures |r| <= |s|
    ensures r == "" || !IsSpace(r[0])
    ensures s != "" && !IsSpace(s[0]) ==> r == s
  {
    if s == "" || !IsSpace(s[0]) then s else SkipSpace(s[1..])
  }

  lemma {:induction false} SkippedIsSpace(s: string)
    ensures s[|s| - |SkipSpace(s)|..] == SkipSpace(s)
    ensures forall i | 0 <= i < |s| - |SkipSpace(s)| :: IsSpace(s[i])
  {
    if s != "" && IsSpace(s[0]) {
      SkippedIsSpace(s[1..]);
      assert s[|s| - |SkipSpace(s)|..] == s[1..][|s| - 1 - |SkipSpace(s)|..];
    }
  }

  predicate IsQuote(c: char) { c == '\'' || c == '"' }

  /** Where the argument that starts s ends: at the first end character or at the end of s. */
  function Until(s: string, end: char): (n: nat)
    ensures n <= |s| && (n < |s| ==> s[n] == end)
    ensures forall i | 0 <= i < n :: s[i] != end
  {
    if s == "" || s[0] == end then 0 else 1 + Until(s[1..], end)
  }

  datatype Argument = Argument(word: string, rest: string)

  /** The text up to the end character, in lower case, and what follows after more blanks. */
  function CutAt(u: string, end: char): (a: Argument)
    ensures |a.rest| <= |u| && (u != "" && a.rest != "" ==> |a.rest| < |u|)
    ensures a.rest == "" || !IsSpace(a.rest[0])
  {
    var n := Until(u, end);
    Argument(LowerAll(u[..n]), SkipSpace(if n < |u| then u[n + 1..] else ""))
  }

  /** The first argument and what follows it.  An argument ends at a blank, or at the closing quote if
      it starts with a quote. */
  function OneArgument(s: string): (a: Argument)
    ensures |a.rest| <= |s| && (a.word != "" ==> |a.rest| < |s|)
    ensures a.rest == "" || !IsSpace(a.rest[0])
  {
    var t := SkipSpace(s);
    if t != "" && IsQuote(t[0]) then CutAt(t[1..], t[0]) else CutAt(t, ' ')
  }

  /** one_argument */
  method SplitArgument(argument: string) returns (word: string, rest: string)
    ensures Argument(word, rest) == OneArgument(argument)
  {
    if argument == "" { return "", ""; }
    var p := Skip(argument, 0);
    assert argument[0..] == argument;
    if p < |argument| && IsQuote(argument[p]) {
      assert argument[p..][1..] == argument[p + 1..];
      word, rest := TakeArgument(argument, p + 1, argument[p]);
    } else {
      word, rest := TakeArgument(argument, p, ' ');
    }
  }

  method TakeArgument(s: string, p: nat, end: char) returns (word: string, rest: string)
    requires p <= |s|
    ensures Argument(word, rest) == CutAt(s[p..], end)
  {
    var q;
    word, q := TakeWord(s, p, end);
    rest := "";
    if q < |s| {
      rest := RestAfter(s, p, q);
    }
  }

  method RestAfter(s: string, p: nat, q: nat) returns (rest: string)
    requires p <= q < |s|
    ensures rest == SkipSpace(s[p..][q - p + 1..])
  {
    Slices(s, p, q);
    var r := Skip(s, q + 1);
    rest := s[r..];
  }

  lemma Slices(s: string, p: nat, q: nat)
    requires p <= q <= |s|
    ensures s[p..][..q - p] == s[p..q] && s[|s|..] == ""
    ensures q < |s| ==> s[p..][q - p + 1..] == s[q + 1..]
  {
  }

  /** The copying loop, up to the end character. */
  method TakeWord(s: string, p: nat, end: char) returns (word: string, q: nat)
    requires p <= |s|
    ensures q == p + Until(s[p..], end) && q <= |s| && word == LowerAll(s[p..][..q - p])
  {
    word := "";
    q := p;
    while q < |s| && s[q] != end
      invariant p <= q <= |s| && forall i | p <= i < q :: s[i] != end
      invariant word == LowerAll(s[p..q])
    {
      word := word + [Lower(s[q])];
      q := q + 1;
    }
    UntilIs(s[p..], end, q - p);
    Slices(s, p, q);
  }

  lemma UntilIs(s: string, end: char, n: nat)
    requires n <= |s| && (n < |s| ==> s[n] == end) && forall i | 0 <= i < n :: s[i] != end
    ensures Until(s, end) == n
  {
  }

  lemma DropOne(s: string, p: nat)
    requires p < |s|
    ensures s[p..][0] == s[p] && s[p..][1..] == s[p + 1..]
  {
  }

  method Skip(s: string, from: nat) returns (p: nat)
    requires from <= |s|
    ensures from <= p <= |s| && s[p..] == SkipSpace(s[from..])
  {
    p := from;
    while p < |s| && IsSpace(s[p])
      invariant from <= p <= |s| && SkipSpace(s[p..]) == SkipSpace(s[from..])
    {
      DropOne(s, p);
      p := p + 1;
    }
  }

  /** A name one_argument takes as one word. */
  predicate OneWord(name: string) {
    name != "" && ' ' !in name && !IsSpace(name[0]) && !IsQuote(name[0])
  }

  /** A word alone, */
  lemma WordAlone(name: string)
    requires OneWord(name)
    ensures OneArgument(name) == Argument(LowerAll(name), "")
  {
  }

  /** or followed by a blank and more. */
  lemma WordSplitsOff(name: string, more: string)
    requires OneWord(name) && (more != "" ==> !IsSpace(more[0]))
    ensures OneArgument(name + " " + more) == Argument(LowerAll(name), more)
  {
    var s := name + " " + more;
    assert forall i | 0 <= i < |name| :: name[i] in name && s[i] == name[i];
    UntilIs(s, ' ', |name|);
    Glued(name, more);
  }

  lemma Glued(name: string, more: string)
    ensures (name + " " + more)[..|name|] == name && (name + " " + more)[|name| + 1..] == more
  {
  }

  // ----- what the helpers mean

  /** Position k of a range of letters. */
  function Letter(first: char, k: nat): char
    requires k < 32 && first as int < 0x1000
  {
    first + k as char
  }

  /** LOWER maps the 26 Latin and the 32 Cyrillic capitals to their small letters and nothing else. */
  lemma LetterCase(c: char)
    ensures forall k | 0 <= k < 26 :: Lower(Letter('A', k)) == Letter('a', k)
    ensures forall k | 0 <= k < 32 :: Lower(Letter('\U{0410}', k)) == Letter('\U{0430}', k)
    ensures || (exists k | 0 <= k < 26 :: c == Letter('A', k)) || (exists k | 0 <= k < 32 :: c == Letter('\U{0410}', k))
            || Lower(c) == c
  {
    if 'A' <= c <= 'Z' { assert c == Letter('A', c as int - 'A' as int); }
    if '\U{0410}' <= c <= '\U{042F}' { assert c == Letter('\U{0410}', c as int - 0x410); }
  }

  /** The four blanks are skipped, and the two quotes quote. */
  lemma BlanksAndQuotes(s: string)
    ensures SkipSpace(" \t\n\r" + s) == SkipSpace(s) && IsQuote('\'') && IsQuote('"')
  {
    var t := " \t\n\r" + s;
    var u, v, w := "\t\n\r" + s, "\n\r" + s, "\r" + s;
    assert t[1..] == u && u[1..] == v && v[1..] == w && w[1..] == s;
    assert SkipSpace(t) == SkipSpace(u) && SkipSpace(u) == SkipSpace(v) && SkipSpace(v) == SkipSpace(w);
  }

  predicate IeOrYo(c: char) { Lower(c) == IE || Lower(c) == YO }

  /** The lookups' match is the prefix match, but that the first letters may not differ as ie and yo do. */
  lemma AbbreviatesIff(word: string, name: string)
    ensures Abbreviates(word, name) <==>
              && word != "" && IsPrefix(word, name)
              && (IeOrYo(word[0]) && IeOrYo(name[0]) ==> Lower(word[0]) == Lower(name[0]))
  {
    if word != "" && IsPrefix(word, name) { assert SameLetter(word[0], name[0]); }
  }

  /** A quoted argument ends at its closing quote, blanks and all. */
  lemma QuotedSplitsOff(quote: char, word: string, more: string)
    requires IsQuote(quote) && quote !in word && (more != "" ==> !IsSpace(more[0]))
    ensures OneArgument([quote] + (word + ([quote] + more))) == Argument(LowerAll(word), more)
  {
    var u := word + ([quote] + more);
    var s := [quote] + u;
    assert s[0] == quote && s[1..] == u && SkipSpace(s) == s;
    QuotedUntil(quote, word, more);
    assert CutAt(u, quote) == Argument(LowerAll(word), SkipSpace(more));
  }

  lemma QuotedUntil(quote: char, word: string, more: string)
    requires quote !in word
    ensures var u := word + ([quote] + more);
            Until(u, quote) == |word| && |word| < |u| && u[..|word|] == word && u[|word| + 1..] == more
  {
    var u := word + ([quote] + more);
    assert forall i | 0 <= i < |word| :: word[i] in word && u[i] == word[i];
    assert u[|word|] == quote;
    UntilIs(u, quote, |word|);
  }
}
