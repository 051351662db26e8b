/**
 Reading area-style text files: fread_letter, fread_word, fread_string and fread_to_eol
 of src/db.c, as functions of the text that is left, and the strings that survive being
 written with `%s~` and read back.
 */
module FileText {
  import opened Text

  /** What a reader got and what is left, or what it had when the file ended under it. */
  datatype Read = Got(text: string, rest: string) | Cut(text: string)

  function UntilSpace(s: string): (n: nat)
    ensures n <= |s| && (n < |s| ==> IsSpace(s[n]))
    ensures forall i | 0 <= i < n :: !IsSpace(s[i])
  {
    if s == "" || IsSpace(s[0]) then 0 else 1 + UntilSpace(s[1..])
  }

  /** fread_word: up to white space, which is left to be read again, or up to a closing quote. */
  function ReadWord(s: string): (r: Read)
    ensures r.Got? ==> |r.rest| < |s|
  {
    var t := SkipSpace(s);
    if t == "" then Cut("")
    else if IsQuote(t[0]) then
      var n := Until(t[1..], t[0]);
      if n < |t| - 1 then Got(t[1..][..n], t[n + 2..]) else Cut(t[1..])
    else
      var n := UntilSpace(t);
      if n < |t| then Got(t[..n], t[n..]) else Cut(t)
  }

  /** The line-end conversion of fread_string: "\\n" becomes "\\n\\r", and "\\r" is dropped. */
  function Cooked(s: string): string {
    if s == "" then ""
    else (if s[0] == '\n' then "\n\r" else if s[0] == '\r' then "" else [s[0]]) + Cooked(s[1..])
  }

  /** fread_string: after white space, up to a tilde. */
  function ReadString(s: string): (r: Read)
    ensures r.Got? ==> |r.rest| < |s|
  {
    var t := SkipSpace(s);
    var n := Until(t, '~');
    if n < |t| then Got(Cooked(t[..n]), t[n + 1..]) else Cut(t)
  }

  /** fread_to_eol: past the end of the line and of empty lines after it. */
  function ReadToEol(s: string): (r: Read)
    ensures r.Got? ==> |r.rest| < |s|
  {
    if s == "" then Cut("")
    else if s[0] == '\n' || s[0] == '\r' then Got("", SkipEols(s))
    else ReadToEol(s[1..])
  }

  function SkipEols(s: string): (r: string)
    ensures |r| <= |s|
    ensures s != "" && (s[0] == '\n' || s[0] == '\r') ==> |r| < |s|
  {
    if s != "" && (s[0] == '\n' || s[0] == '\r') then SkipEols(s[1..]) else s
  }

  /** str_cmp: equal up to case, with yo counting as ie. */
  predicate SameText(a: string, b: string) {
    |a| == |b| && IsPrefix(a, b)
  }

  // ----- strings that survive

  predicate Clean(v: string) {
    '~' !in v && (v != "" ==> !IsSpace(v[0])) && Cooked(v) == v
  }

  lemma {:induction false} CookedNoTilde(s: string)
    requires '~' !in s
    ensures '~' !in Cooked(s)
  {
    if s != "" {
      assert forall x | x in s[1..] :: x in s;
      CookedNoTilde(s[1..]);
    }
  }

  lemma {:induction false} CookedTwice(s: string)
    ensures Cooked(Cooked(s)) == Cooked(s)
  {
    if s != "" {
      CookedTwice(s[1..]);
      var rest := Cooked(s[1..]);
      if s[0] == '\n' {
        assert ("\n\r" + rest)[1..] == "\r" + rest && ("\r" + rest)[1..] == rest;
        assert Cooked("\r" + rest) == "" + Cooked(rest) == Cooked(rest);
      } else if s[0] == '\r' {
        assert "" + rest == rest;
      } else {
        assert ([s[0]] + rest)[1..] == rest;
      }
    }
  }

  lemma CookedStart(s: string)
    requires s != "" && !IsSpace(s[0])
    ensures Cooked(s) != "" && Cooked(s)[0] == s[0]
  {
  }

  /** Whatever fread_string returns is clean. */
  lemma ReadIsClean(s: string)
    requires ReadString(s).Got?
    ensures Clean(ReadString(s).text)
  {
    var t := SkipSpace(s);
    var v := t[..Until(t, '~')];
    CookedTwice(v);
    CookedNoTilde(v);
    if v != "" { CookedStart(v); }
  }

  lemma {:induction false} SkipsAll(pad: string, s: string)
    requires forall i | 0 <= i < |pad| :: IsSpace(pad[i])
    ensures SkipSpace(pad + s) == SkipSpace(s)
  {
    if pad == "" {
      assert pad + s == s;
    } else {
      assert (pad + s)[1..] == pad[1..] + s;
      SkipsAll(pad[1..], s);
    }
  }

  /** A clean string written with white space in front and a tilde behind is read back as it was. */
  lemma CleanIsRead(pad: string, v: string, rest: string)
    requires Clean(v) && forall i | 0 <= i < |pad| :: IsSpace(pad[i])
    ensures ReadString(pad + (v + ("~" + rest))) == Got(v, rest)
  {
    var t := v + ("~" + rest);
    SkipsAll(pad, t);
    assert t[0] == if v == "" then '~' else v[0];
    assert SkipSpace(t) == t;
    Front(v, rest);
    UntilIs(t, '~', |v|);
  }

  lemma Front(v: string, rest: string)
    requires '~' !in v
    ensures var t := v + ("~" + rest);
            && |v| < |t| && t[|v|] == '~' && t[..|v|] == v && t[|v| + 1..] == rest
            && forall i | 0 <= i < |v| :: t[i] != '~'
  {
  }

  /** Exactly the clean strings survive `%s~`. */
  lemma SurvivesIffClean(pad: string, v: string, rest: string)
    requires forall i | 0 <= i < |pad| :: IsSpace(pad[i])
    ensures (exists r :: ReadString(pad + (v + ("~" + rest))) == Got(v, r)) <==> Clean(v)
  {
    if Clean(v) {
      CleanIsRead(pad, v, rest);
    } else if ReadString(pad + (v + ("~" + rest))).Got? {
      ReadIsClean(pad + (v + ("~" + rest)));
    }
  }

  /** A word fread_word takes without quotes. */
  predicate IsBare(word: string) {
    word != "" && !IsQuote(word[0]) && forall i | 0 <= i < |word| :: !IsSpace(word[i])
  }

  /** A keyword followed by white space is read as it stands. */
  lemma WordIsRead(key: string, rest: string)
    requires IsBare(key) && rest != "" && IsSpace(rest[0])
    ensures ReadWord(key + rest) == Got(key, rest)
  {
    var s := key + rest;
    assert SkipSpace(s) == s;
    assert forall i | 0 <= i < |key| :: s[i] == key[i];
    assert s[|key|] == rest[0];
    UntilSpaceIs(s, |key|);
    assert s[..|key|] == key && s[|key|..] == rest;
  }

  lemma UntilSpaceIs(s: string, n: nat)
    requires n <= |s| && (n < |s| ==> IsSpace(s[n])) && forall i | 0 <= i < n :: !IsSpace(s[i])
    ensures UntilSpace(s) == n
  {
  }

  lemma WordSkipsSpace(pad: string, s: string)
    requires forall i | 0 <= i < |pad| :: IsSpace(pad[i])
    ensures ReadWord(pad + s) == ReadWord(s)
  {
    SkipsAll(pad, s);
  }

  /** A quoted word is read up to its closing quote, blanks and all. */
  lemma QuotedIsRead(quote: char, word: string, rest: string)
    requires IsQuote(quote) && quote !in word
    ensures ReadWord([quote] + (word + ([quote] + rest))) == Got(word, rest)
  {
    var u := word + ([quote] + rest);
    var s := [quote] + u;
    assert s[0] == quote && s[1..] == u;
    assert forall i | 0 <= i < |word| :: word[i] in word && u[i] == word[i];
    assert u[|word|] == quote;
    UntilIs(u, quote, |word|);
    assert u[..|word|] == word && s[|word| + 2..] == rest;
  }

  // ----- comments and line ends

  predicate IsEol(c: char) { c == '\n' || c == '\r' }

  predicate OneLine(s: string) { forall i | 0 <= i < |s| :: !IsEol(s[i]) }

  predicate Eols(s: string) { s != "" && forall i | 0 <= i < |s| :: IsEol(s[i]) }

  lemma {:induction false} EolsAreSkipped(eols: string, s: string)
    requires forall i | 0 <= i < |eols| :: IsEol(eols[i])
    ensures SkipEols(eols + s) == SkipEols(s)
  {
    if eols == "" {
      assert eols + s == s;
    } else {
      assert (eols + s)[1..] == eols[1..] + s;
      EolsAreSkipped(eols[1..], s);
    }
  }

  /** fread_to_eol leaves what follows the line and its line ends. */
  lemma {:induction false} LineIsSkipped(text: string, eols: string, s: string)
    requires OneLine(text) && Eols(eols)
    ensures ReadToEol(text + (eols + s)) == Got("", SkipEols(s))
  {
    if text == "" {
      assert text + (eols + s) == eols + s && (eols + s)[0] == eols[0];
      EolsAreSkipped(eols, s);
    } else {
      assert (text + (eols + s))[1..] == text[1..] + (eols + s);
      LineIsSkipped(text[1..], eols, s);
    }
  }

  lemma {:induction false} SpaceAfterEols(s: string)
    ensures SkipSpace(SkipEols(s)) == SkipSpace(s)
  {
    if s != "" && IsEol(s[0]) { SpaceAfterEols(s[1..]); }
  }

  lemma WordAfterEols(s: string)
    ensures ReadWord(SkipEols(s)) == ReadWord(s)
  {
    SpaceAfterEols(s);
  }

  /** fread_string's line ends: every newline is followed by a return, no return stands elsewhere, and but for
      the returns the text is as it was. */
  lemma {:induction false} CookedLineEnds(s: string)
    ensures forall i | 0 <= i < |Cooked(s)| && Cooked(s)[i] == '\n' :: i + 1 < |Cooked(s)| && Cooked(s)[i + 1] == '\r'
    ensures forall i | 0 <= i < |Cooked(s)| && Cooked(s)[i] == '\r' :: i > 0 && Cooked(s)[i - 1] == '\n'
    ensures NoReturns(Cooked(s)) == NoReturns(s)
  {
    if s != "" {
      CookedLineEnds(s[1..]);
      var front, rest := if s[0] == '\n' then "\n\r" else if s[0] == '\r' then "" else [s[0]], Cooked(s[1..]);
      var t := front + rest;
      forall i | 0 <= i < |t|
        ensures t[i] == '\n' ==> i + 1 < |t| && t[i + 1] == '\r'
        ensures t[i] == '\r' ==> i > 0 && t[i - 1] == '\n'
      {
        if i >= |front| {
          assert t[i] == rest[i - |front|];
          if t[i] == '\r' { assert t[i - 1] == rest[i - |front| - 1]; }
        }
      }
      NoReturnsSplits(front, rest);
      assert NoReturns("\n\r") == "\n" by { assert "\n\r"[1..] == "\r" && "\r"[1..] == ""; }
      assert [s[0]][1..] == "";
    }
  }

  function NoReturns(s: string): string {
    if s == "" then "" else (if s[0] == '\r' then "" else [s[0]]) + NoReturns(s[1..])
  }

  lemma {:induction false} NoReturnsSplits(s: string, t: string)
    ensures NoReturns(s + t) == NoReturns(s) + NoReturns(t)
  {
    if s == "" {
      assert s + t == t;
    } else {
      assert (s + t)[1..] == s[1..] + t;
      NoReturnsSplits(s[1..], t);
    }
  }
}
