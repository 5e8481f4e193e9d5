/** The line-oriented command protocol: a text is split into lines, the
    first whitespace-separated word of each line selects the command, and
    `r` carries the rest of the line to the dice roller. */
module Commands {
  import opened Wrappers
  import opened Text

  /** The optional fields of a battlemap update (`url`, `rows`, `columns`). */
  datatype BattlemapOpts = BattlemapOpts(url: Option<string>, rows: Option<I32>, columns: Option<I32>)

  /** The fields of a token update: a required id and six optional fields. */
  datatype TokenOpts = TokenOpts(
    tokenId: string,
    image: Option<string>,
    name: Option<string>,
    size: Option<string>,
    maxHealth: Option<I32>,
    pos: Option<string>,
    initiative: Option<I32>)

  /** The closed set of commands the game loop applies. The parser of this
      version produces only the first three. */
  datatype Command =
    | Quit
    | PrintHelp
    | Role(expr: string)
    | UpdateBattlemap(battlemapOpts: BattlemapOpts)
    | UpdateToken(tokenOpts: TokenOpts)

  /** A line without a first word: the source indexes an empty word list
      and panics. */
  datatype LineError = BlankLine

  /** The verbs that quit. */
  const QuitVerbs: set<string> := {"q", "quit", "exit"}

  /** The verb that rolls dice, and the text every occurrence of which is
      removed from a roll line. */
  const RollVerb: string := "r"
  const RollPrefix: string := "r "

  // ---------------------------------------------------------------- lines

  /** The position of the first `c` in `s`, or `|s|` when there is none. */
  function IndexOf(s: string, c: char): (k: nat)
    ensures k <= |s| && c !in s[..k]
    ensures k < |s| ==> s[k] == c
  {
    if |s| == 0 then 0
    else if s[0] == c then 0
    else
      var k := 1 + IndexOf(s[1..], c);
      assert s[..k] == [s[0]] + s[1..][..k - 1];
      k
  }

  /** Drops one carriage return that ends a line. */
  function StripCr(l: string): string {
    if |l| > 0 && l[|l| - 1] == '\r' then l[..|l| - 1] else l
  }

  /** Rust's `str::lines`: split at each `\n`, drop a `\r` just before it,
      and do not produce an empty line after a final `\n`. */
  function Lines(s: string): (ls: seq<string>)
    ensures forall i :: 0 <= i < |ls| ==> '\n' !in ls[i]
    ensures |s| == 0 <==> |ls| == 0
    decreases |s|
  {
    if |s| == 0 then []
    else
      var k := IndexOf(s, '\n');
      if k == |s| then [s]
      else [StripCr(s[..k])] + Lines(s[k + 1..])
  }

  /** A line that `Lines` gives back unchanged: no line break inside and no
      carriage return at its end. */
  predicate PlainLine(l: string) {
    '\n' !in l && (|l| == 0 || l[|l| - 1] != '\r')
  }

  /** Each line followed by `\n`, the way a scenario file is written. */
  function JoinLines(ls: seq<string>): string {
    if |ls| == 0 then "" else ls[0] + "\n" + JoinLines(ls[1..])
  }

  /** A plain line followed by a line break splits off as the first line. */
  lemma LinesCons(a: string, b: string)
    requires PlainLine(a)
    ensures Lines(a + "\n" + b) == [a] + Lines(b)
  {
    var s := a + "\n" + b;
    assert s[..|a|] == a && s[|a|] == '\n';
    assert IndexOf(s, '\n') == |a|;
    assert s[|a| + 1..] == b;
  }

  /** A non-empty plain line is a single line. */
  lemma LinesSingle(a: string)
    requires |a| > 0 && PlainLine(a)
    ensures Lines(a) == [a]
  {
  }

  /** Splitting a joined text gives the lines back. */
  lemma {:induction false} LinesJoin(ls: seq<string>)
    requires forall i :: 0 <= i < |ls| ==> PlainLine(ls[i])
    ensures Lines(JoinLines(ls)) == ls
  {
    if |ls| > 0 {
      LinesCons(ls[0], JoinLines(ls[1..]));
      LinesJoin(ls[1..]);
    }
  }

  // ---------------------------------------------------------------- words

  /** The length of the word at the start of `s`. */
  function WordEnd(s: string): (k: nat)
    ensures k <= |s| && NoWhitespace(s[..k])
    ensures k < |s| ==> IsWhitespace(s[k])
  {
    if |s| == 0 || IsWhitespace(s[0]) then 0
    else
      var k := 1 + WordEnd(s[1..]);
      assert s[..k] == [s[0]] + s[1..][..k - 1];
      k
  }

  /** Rust's `str::split_whitespace`: the maximal runs of non-whitespace. */
  function Words(s: string): (ws: seq<string>)
    ensures forall i :: 0 <= i < |ws| ==> |ws[i]| > 0 && NoWhitespace(ws[i])
    decreases |s|
  {
    if |s| == 0 then []
    else if IsWhitespace(s[0]) then Words(s[1..])
    else
      var k := WordEnd(s);
      [s[..k]] + Words(s[k..])
  }

  /** A text has no words exactly when it is all whitespace. */
  lemma {:induction false} WordsEmptyIffBlank(s: string)
    ensures |Words(s)| == 0 <==> Blank(s)
    decreases |s|
  {
    if |s| > 0 && IsWhitespace(s[0]) {
      WordsEmptyIffBlank(s[1..]);
      if Blank(s[1..]) {
        forall i | 1 <= i < |s|
          ensures IsWhitespace(s[i])
        {
          assert s[i] == s[1..][i - 1];
        }
      }
    }
  }

  /** Leading whitespace, a word, then the end of the line or whitespace:
      that word comes first, and the words of the rest follow it. */
  lemma {:induction false} FirstWord(lead: string, w: string, rest: string)
    requires Blank(lead)
    requires |w| > 0 && NoWhitespace(w)
    requires |rest| == 0 || IsWhitespace(rest[0])
    ensures Words(lead + w + rest) == [w] + Words(rest)
    decreases |lead|
  {
    var s := lead + w + rest;
    if |lead| > 0 {
      assert s[1..] == lead[1..] + w + rest;
      FirstWord(lead[1..], w, rest);
    } else {
      assert s == w + rest;
      assert s[..|w|] == w;
      assert s[|w|..] == rest;
      WordEndAt(w, rest);
    }
  }

  /** Whitespace in front of a text adds no words. */
  lemma {:induction false} BlankPrefixWords(lead: string, rest: string)
    requires Blank(lead)
    ensures Words(lead + rest) == Words(rest)
    decreases |lead|
  {
    if |lead| > 0 {
      assert (lead + rest)[1..] == lead[1..] + rest;
      BlankPrefixWords(lead[1..], rest);
    } else {
      assert lead + rest == rest;
    }
  }

  lemma {:induction false} WordEndAt(w: string, rest: string)
    requires NoWhitespace(w)
    requires |rest| == 0 || IsWhitespace(rest[0])
    ensures WordEnd(w + rest) == |w|
    decreases |w|
  {
    if |w| > 0 {
      assert (w + rest)[1..] == w[1..] + rest;
      WordEndAt(w[1..], rest);
    } else {
      assert w + rest == rest;
    }
  }

  // ---------------------------------------------------------------- replace

  predicate OccursAt(s: string, pat: string, i: nat) {
    i + |pat| <= |s| && s[i..i + |pat|] == pat
  }

  predicate Contains(s: string, pat: string) {
    exists i: nat :: i <= |s| && OccursAt(s, pat, i)
  }

  /** Rust's `s.replace(pat, "")`: every non-overlapping occurrence of
      `pat`, scanning left to right, is deleted. */
  function RemoveAll(s: string, pat: string): (r: string)
    requires |pat| > 0
    ensures |r| <= |s|
    decreases |s|
  {
    if |s| < |pat| then s
    else if s[..|pat|] == pat then RemoveAll(s[|pat|..], pat)
    else [s[0]] + RemoveAll(s[1..], pat)
  }

  /** A text without the pattern is left as it is. */
  lemma {:induction false} RemoveAllAbsent(s: string, pat: string)
    requires |pat| > 0 && !Contains(s, pat)
    ensures RemoveAll(s, pat) == s
    decreases |s|
  {
    if |s| >= |pat| {
      assert !OccursAt(s, pat, 0);
      if Contains(s[1..], pat) {
        var i: nat :| i <= |s[1..]| && OccursAt(s[1..], pat, i);
        assert s[1..][i..i + |pat|] == s[i + 1..i + 1 + |pat|];
        assert OccursAt(s, pat, i + 1);
      }
      RemoveAllAbsent(s[1..], pat);
    }
  }

  /** A leading occurrence of the pattern is deleted. */
  lemma RemoveAllPrefix(pat: string, e: string)
    requires |pat| > 0
    ensures RemoveAll(pat + e, pat) == RemoveAll(e, pat)
  {
    assert (pat + e)[..|pat|] == pat;
    assert (pat + e)[|pat|..] == e;
  }

  /** No occurrence starts inside a text that lacks the pattern's first
      character, so such a text is kept and the scan goes on after it. */
  lemma {:induction false} RemoveAllSkip(a: string, b: string, pat: string)
    requires |pat| > 0 && pat[0] !in a
    ensures RemoveAll(a + b, pat) == a + RemoveAll(b, pat)
    decreases |a|
  {
    if |a| > 0 {
      var s := a + b;
      assert s[0] == a[0] != pat[0];
      if |s| >= |pat| {
        assert s[..|pat|] != pat;
      }
      assert s[1..] == a[1..] + b;
      RemoveAllSkip(a[1..], b, pat);
      if |s| < |pat| {
        RemoveAllShort(a[1..] + b, pat);
      }
    } else {
      assert a + b == b;
    }
  }

  /** Wherever no occurrence of the pattern starts inside `a`, the scan
      keeps `a` as it is and goes on with `b`. With `RemoveAllPrefix`
      this decides `RemoveAll` on every text. */
  lemma {:induction false} RemoveAllNoStart(a: string, b: string, pat: string)
    requires |pat| > 0
    requires forall i :: 0 <= i < |a| ==> !OccursAt(a + b, pat, i)
    ensures RemoveAll(a + b, pat) == a + RemoveAll(b, pat)
    decreases |a|
  {
    var s := a + b;
    if |a| == 0 {
      assert s == b;
    } else if |s| < |pat| {
      RemoveAllShort(b, pat);
    } else {
      assert !OccursAt(s, pat, 0);
      assert s[..|pat|] != pat;
      assert s[1..] == a[1..] + b;
      forall i | 0 <= i < |a| - 1
        ensures !OccursAt(a[1..] + b, pat, i)
      {
        assert !OccursAt(s, pat, i + 1);
        if i + |pat| <= |s| - 1 {
          assert s[1..][i..i + |pat|] == s[i + 1..i + 1 + |pat|];
        }
      }
      RemoveAllNoStart(a[1..], b, pat);
    }
  }

  /** An occurrence that overlaps a plain "r" is still found: "rr d6" keeps
      its first "r" and loses the "r " after it. */
  lemma RemoveAllOverlapExample()
    ensures RemoveAll("rr d6", "r ") == "rd6"
  {
    assert "rr d6" == "r" + "r d6";
    assert "rr d6"[0..2][1] == 'r' != "r "[1];
    RemoveAllNoStart("r", "r d6", "r ");
    assert "r d6" == "r " + "d6";
    RemoveAllPrefix("r ", "d6");
    AbsentFirstChar("d6", "r ");
    RemoveAllAbsent("d6", "r ");
  }

  /** A text without the pattern's first character does not contain it. */
  lemma AbsentFirstChar(s: string, pat: string)
    requires |pat| > 0 && pat[0] !in s
    ensures !Contains(s, pat)
  {
    forall i: nat | i <= |s|
      ensures !OccursAt(s, pat, i)
    {
      if i + |pat| <= |s| {
        assert s[i] in s;
        assert s[i..i + |pat|][0] == s[i];
      }
    }
  }

  lemma RemoveAllShort(s: string, pat: string)
    requires 0 < |pat| && |s| < |pat|
    ensures RemoveAll(s, pat) == s
  {
  }

  // ---------------------------------------------------------------- parse

  /** One line of `parse`: the first word picks the command, and a roll
      keeps the whole line minus every occurrence of "r ". */
  function ParseLine(l: string): (r: Result<Command, LineError>)
    ensures r.Failure? <==> Blank(l)
  {
    WordsEmptyIffBlank(l);
    var ws := Words(l);
    if |ws| == 0 then Failure(BlankLine)
    else if ws[0] in QuitVerbs then Success(Quit)
    else if ws[0] == RollVerb then Success(Role(RemoveAll(l, RollPrefix)))
    else Success(PrintHelp)
  }

  /** The command of a line, in terms of the line's shape: leading
      whitespace, a verb, then nothing or whitespace and the rest. The
      comparison is exact, so "Q" or "Quit" asks for help. */
  lemma ParseLineByVerb(lead: string, verb: string, rest: string)
    requires Blank(lead)
    requires |verb| > 0 && NoWhitespace(verb)
    requires |rest| == 0 || IsWhitespace(rest[0])
    ensures verb in QuitVerbs ==> ParseLine(lead + verb + rest) == Success(Quit)
    ensures verb == RollVerb ==>
      ParseLine(lead + verb + rest) == Success(Role(RemoveAll(lead + verb + rest, RollPrefix)))
    ensures verb !in QuitVerbs && verb != RollVerb ==> ParseLine(lead + verb + rest) == Success(PrintHelp)
  {
    FirstWord(lead, verb, rest);
  }

  /** "r " followed by an expression without "r " rolls exactly that
      expression. */
  lemma RollCarriesExpression(e: string)
    requires !Contains(e, RollPrefix)
    ensures ParseLine(RollPrefix + e) == Success(Role(e))
  {
    assert RollPrefix + e == "" + RollVerb + ([' '] + e);
    ParseLineByVerb("", RollVerb, [' '] + e);
    assert (RollPrefix + e)[..2] == RollPrefix;
    assert (RollPrefix + e)[2..] == e;
    RemoveAllAbsent(e, RollPrefix);
  }

  /** "q" quits. */
  lemma QuitExample()
    ensures ParseLine("q") == Success(Quit)
  {
    ParseLineByVerb("", "q", "");
    assert "q" == "" + "q" + "";
  }

  /** Verbs are compared exactly: "Q" asks for help. */
  lemma UpperQExample()
    ensures ParseLine("Q") == Success(PrintHelp)
  {
    ParseLineByVerb("", "Q", "");
    assert "Q" == "" + "Q" + "";
  }

  /** "help" is not a verb of this parser and asks for help like any other word. */
  lemma HelpExample()
    ensures ParseLine("help") == Success(PrintHelp)
  {
    ParseLineByVerb("", "help", "");
    assert "help" == "" + "help" + "";
  }

  /** A bare "r" has no "r " to remove and rolls "r" itself. */
  lemma BareRollExample()
    ensures ParseLine("r") == Success(Role("r"))
  {
    ParseLineByVerb("", "r", "");
    assert "r" == "" + "r" + "";
    RemoveAllShort("r", RollPrefix);
  }

  /** The help text's advantage roll. */
  lemma RollExample()
    ensures ParseLine("r 2d20 K1") == Success(Role("2d20 K1"))
  {
    assert 'r' !in "2d20 K1";
    AbsentFirstChar("2d20 K1", RollPrefix);
    RollCarriesExpression("2d20 K1");
    assert RollPrefix + "2d20 K1" == "r 2d20 K1";
  }

  /** Every "r " is removed, not only the verb's. */
  lemma RollRemovesEveryPrefixExample()
    ensures ParseLine("r d6 r d8") == Success(Role("d6 d8"))
  {
    var line := RollPrefix + ("d6 " + (RollPrefix + "d8"));
    assert line == "r d6 r d8";
    RemoveAllRollExample();
    assert line == "" + RollVerb + (" d6 " + (RollPrefix + "d8"));
    ParseLineByVerb("", RollVerb, " d6 " + (RollPrefix + "d8"));
  }

  /** Both occurrences of "r " go, the first and the one after "d6 ". */
  lemma RemoveAllRollExample()
    ensures RemoveAll("r d6 r d8", RollPrefix) == "d6 d8"
  {
    var line := RollPrefix + ("d6 " + (RollPrefix + "d8"));
    assert line == "r d6 r d8";
    RemoveAllPrefix(RollPrefix, "d6 " + (RollPrefix + "d8"));
    RemoveAllSkip("d6 ", RollPrefix + "d8", RollPrefix);
    RemoveAllPrefix(RollPrefix, "d8");
    RemoveAllSkip("d8", "", RollPrefix);
    assert "d8" + "" == "d8";
  }

  /** Blank lines have no verb. */
  lemma BlankLineExample()
    ensures ParseLine("") == Failure(BlankLine)
    ensures ParseLine(" \t") == Failure(BlankLine)
  {
  }

  predicate NoBlankLine(ls: seq<string>) {
    forall i :: 0 <= i < |ls| ==> !Blank(ls[i])
  }

  /** `parse` over a list of lines: it fails when any line is blank, since
      the source panics on the first one; otherwise there is one command
      per line, in order. */
  function ParseLines(ls: seq<string>): (r: Result<seq<Command>, LineError>)
    ensures r.Success? <==> NoBlankLine(ls)
    ensures r.Success? ==> |r.value| == |ls|
    ensures r.Success? ==> forall i :: 0 <= i < |ls| ==> ParseLine(ls[i]) == Success(r.value[i])
  {
    if |ls| == 0 then Success([])
    else
      match ParseLine(ls[0])
      case Failure(e) => Failure(e)
      case Success(c) =>
        match ParseLines(ls[1..])
        case Failure(e) => Failure(e)
        case Success(cs) => Success([c] + cs)
  }

  /** `parse`: one command per line of the text. */
  function Parse(content: string): (r: Result<seq<Command>, LineError>)
    ensures r.Success? <==> NoBlankLine(Lines(content))
    ensures r.Success? ==> |r.value| == |Lines(content)|
    ensures r.Success? ==> forall i :: 0 <= i < |r.value| ==> ParseLine(Lines(content)[i]) == Success(r.value[i])
  {
    ParseLines(Lines(content))
  }

  /** Lines are parsed independently: a text made of a first line and the
      rest parses to the first line's command followed by the rest's. */
  lemma ParseSplit(a: string, b: string)
    requires |a| > 0 && PlainLine(a)
    ensures Parse(a + "\n" + b).Success? <==> Parse(a).Success? && Parse(b).Success?
    ensures Parse(a + "\n" + b).Success? ==> Parse(a + "\n" + b).value == Parse(a).value + Parse(b).value
  {
    LinesCons(a, b);
    LinesSingle(a);
    assert ([a] + Lines(b))[1..] == Lines(b);
  }

  /** Each line's own result, which is what the game loop consumes: a blank
      line becomes an error entry instead of stopping the rest. Where
      `Parse` succeeds, the entries are exactly its commands. */
  function ParseEach(content: string): (rs: seq<Result<Command, LineError>>)
    ensures |rs| == |Lines(content)|
    ensures forall i :: 0 <= i < |rs| ==> rs[i] == ParseLine(Lines(content)[i])
    ensures Parse(content).Success? <==> forall i :: 0 <= i < |rs| ==> rs[i].Success?
    ensures Parse(content).Success? ==> forall i :: 0 <= i < |rs| ==> rs[i] == Success(Parse(content).value[i])
  {
    var ls := Lines(content);
    seq(|ls|, i requires 0 <= i < |ls| => ParseLine(ls[i]))
  }

  /** This parser never produces a battlemap or token update. */
  lemma ParseLineNoUpdates(l: string)
    ensures ParseLine(l).Success? ==> !ParseLine(l).value.UpdateBattlemap? && !ParseLine(l).value.UpdateToken?
  {
  }
}
