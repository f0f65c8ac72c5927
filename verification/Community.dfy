/** The `com2sec readonly default <community>` line of snmpd.conf: scanner, grammar and printer. */
module Community {
  import opened Wrappers

  predicate Blank(c: char) {
    c == ' ' || c == '\t'
  }

  predicate AllBlank(s: string) {
    forall i :: 0 <= i < |s| ==> Blank(s[i])
  }

  // The searches of std::string; None is npos.

  function FindFirstNotBlank(s: string, pos: nat): (r: Option<nat>)
    ensures r.Some? ==> pos <= r.value < |s| && !Blank(s[r.value]) && forall i :: pos <= i < r.value ==> Blank(s[i])
    ensures r.None? ==> forall i :: pos <= i < |s| ==> Blank(s[i])
    decreases |s| - pos
  {
    if pos >= |s| then None else if !Blank(s[pos]) then Some(pos) else FindFirstNotBlank(s, pos + 1)
  }

  function FindFirstBlank(s: string, pos: nat): (r: Option<nat>)
    ensures r.Some? ==> pos <= r.value < |s| && Blank(s[r.value]) && forall i :: pos <= i < r.value ==> !Blank(s[i])
    ensures r.None? ==> forall i :: pos <= i < |s| ==> !Blank(s[i])
    decreases |s| - pos
  {
    if pos >= |s| then None else if Blank(s[pos]) then Some(pos) else FindFirstBlank(s, pos + 1)
  }

  function FindLastNotBlank(s: string): (r: Option<nat>)
    ensures r.Some? ==> r.value < |s| && !Blank(s[r.value]) && forall i :: r.value < i < |s| ==> Blank(s[i])
    ensures r.None? ==> AllBlank(s)
  {
    if s == "" then None
    else if !Blank(s[|s| - 1]) then Some(|s| - 1)
    else FindLastNotBlank(s[..|s| - 1])
  }

  // What the scanner computes, on the text that is still ahead of it

  function SkipBlanks(s: string): string {
    if s != "" && Blank(s[0]) then SkipBlanks(s[1..]) else s
  }

  function TrimEnd(s: string): string {
    if s != "" && Blank(s[|s| - 1]) then TrimEnd(s[..|s| - 1]) else s
  }

  /** The characters up to the first blank. */
  function Word(s: string): (w: string)
    ensures w <= s
    ensures |w| < |s| ==> Blank(s[|w|])
    ensures forall i :: 0 <= i < |w| ==> !Blank(w[i])
  {
    if s == "" || Blank(s[0]) then "" else [s[0]] + Word(s[1..])
  }

  /** What follows the next word if that word is the token and a blank ends it. */
  function AfterToken(s: string, token: string): Option<string> {
    var t := SkipBlanks(s);
    if Word(t) == token && |token| < |t| then Some(t[|token|..]) else None
  }

  function AfterTokens(s: string, tokens: seq<string>): Option<string>
    decreases |tokens|
  {
    if tokens == [] then Some(s)
    else match AfterToken(s, tokens[0])
      case None => None
      case Some(rest) => AfterTokens(rest, tokens[1..])
  }

  const TOKENS: seq<string> := ["com2sec", "readonly", "default"]

  predicate Quoted(s: string) {
    |s| >= 2 && s[0] == '"' && s[|s| - 1] == '"'
  }

  function Unquote(s: string): string {
    if Quoted(s) then s[1..|s| - 1] else s
  }

  function CommunityName(line: string): Option<string> {
    match AfterTokens(line, TOKENS)
    case None => None
    case Some(rest) =>
      var body := TrimEnd(SkipBlanks(rest));
      if body == "" then None else Some(Unquote(body))
  }

  // The scanner itself

  function Ahead(s: string, pos: nat): string {
    if pos <= |s| then s[pos..] else ""
  }

  lemma {:induction false} SkipBlanksSkips(w: string, t: string)
    requires AllBlank(w) && (t == "" || !Blank(t[0]))
    ensures SkipBlanks(w + t) == t
    decreases |w|
  {
    if w == "" {
      assert w + t == t;
    } else {
      assert (w + t)[1..] == w[1..] + t;
      SkipBlanksSkips(w[1..], t);
    }
  }

  lemma {:induction false} TrimEndTrims(t: string, w: string)
    requires AllBlank(w) && (t == "" || !Blank(t[|t| - 1]))
    ensures TrimEnd(t + w) == t
    decreases |w|
  {
    if w == "" {
      assert t + w == t;
    } else {
      assert (t + w)[..|t + w| - 1] == t + w[..|w| - 1];
      TrimEndTrims(t, w[..|w| - 1]);
    }
  }

  lemma FindFirstNotBlankSkips(s: string, pos: nat)
    ensures match FindFirstNotBlank(s, pos)
            case Some(k) => SkipBlanks(Ahead(s, pos)) == s[k..]
            case None => SkipBlanks(Ahead(s, pos)) == ""
  {
    match FindFirstNotBlank(s, pos)
    case Some(k) =>
      assert s[pos..] == s[pos..k] + s[k..];
      SkipBlanksSkips(s[pos..k], s[k..]);
    case None =>
      assert Ahead(s, pos) == Ahead(s, pos) + "";
      SkipBlanksSkips(Ahead(s, pos), "");
  }

  lemma {:induction false} WordIs(w: string, s: string)
    requires w <= s && (forall i :: 0 <= i < |w| ==> !Blank(w[i]))
    requires |w| < |s| ==> Blank(s[|w|])
    ensures Word(s) == w
    decreases |w|
  {
    if w != "" {
      assert s[0] == w[0];
      WordIs(w[1..], s[1..]);
    }
  }

  /**
   * Moves past blanks and the token. A last word that only starts with the token is
   * accepted too, but then `next` is npos.
   */
  method GetToken(str: string, token: string, pos: nat) returns (found: bool, next: Option<nat>)
    ensures (found && next.Some?) <==> AfterToken(Ahead(str, pos), token).Some?
    ensures found && next.Some? ==> next.value <= |str| && Some(str[next.value..]) == AfterToken(Ahead(str, pos), token)
    ensures (found && next.None?) <==>
              var t := SkipBlanks(Ahead(str, pos)); t != "" && token <= t && Word(t) == t
    ensures !found ==> next == FindFirstNotBlank(str, pos)
  {
    hide SkipBlanks, Word, FindFirstNotBlank, FindFirstBlank;
    FindFirstNotBlankSkips(str, pos);
    next := FindFirstNotBlank(str, pos);
    if next.Some? {
      var start := next.value;
      WordEndsAtBlank(str, start);
      var stop := if start + |token| <= |str| then start + |token| else |str|;
      if str[start..stop] == token {
        assert token <= str[start..];
        var endPos := FindFirstBlank(str, start);
        if endPos.None? || start + |token| == endPos.value {
          return true, endPos;
        }
      }
    }
    return false, next;
  }

  /** The word that starts at a position ends where the search finds the next blank. */
  lemma WordEndsAtBlank(str: string, start: nat)
    requires start < |str|
    ensures match FindFirstBlank(str, start)
            case Some(end) => Word(str[start..]) == str[start..end]
            case None => Word(str[start..]) == str[start..]
  {
    match FindFirstBlank(str, start)
    case Some(end) => WordIs(str[start..end], str[start..]);
    case None => WordIs(str[start..], str[start..]);
  }

  method GetCommunityName(line: string) returns (name: Option<string>)
    ensures name == CommunityName(line)
  {
    hide AfterToken, SkipBlanks, FindLastNotBlank, FindFirstNotBlank, TOKENS, Unquote;
    var pos: nat := 0;
    var k := 0;
    assert Ahead(line, 0) == line;
    while k < |TOKENS|
      invariant k <= |TOKENS| && pos <= |line|
      invariant AfterTokens(line, TOKENS) == AfterTokens(line[pos..], TOKENS[k..])
    {
      assert TOKENS[k..][1..] == TOKENS[k + 1..];
      var found, next := GetToken(line, TOKENS[k], pos);
      if !found || next.None? {
        return None;
      }
      pos := next.value;
      k := k + 1;
    }
    FindFirstNotBlankSkips(line, pos);
    var first := FindFirstNotBlank(line, pos);
    if first.None? {
      return None;
    }
    var start := first.value;
    BodyEndsAtLast(line, start);
    var endPos := FindLastNotBlank(line).value;
    UnquoteOfSlice(line, start, endPos);
    if start < endPos && line[start] == '"' && line[endPos] == '"' {
      start := start + 1;
      endPos := endPos - 1;
    }
    var value := if start <= endPos then line[start..start + (endPos - start + 1)] else "";
    return Some(value);
  }

  /** Stripping the quotes is moving both ends of the slice. */
  lemma UnquoteOfSlice(line: string, start: nat, last: nat)
    requires start <= last < |line|
    ensures Unquote(line[start..last + 1]) ==
            if start < last && line[start] == '"' && line[last] == '"' then line[start + 1..last]
            else line[start..last + 1]
  {
    var body := line[start..last + 1];
    assert body[0] == line[start] && body[|body| - 1] == line[last];
    if start < last {
      assert body == [line[start]] + line[start + 1..last] + [line[last]];
    }
  }

  /** The trimmed rest of the line ends at its last character that is not blank. */
  lemma BodyEndsAtLast(line: string, start: nat)
    requires start < |line| && !Blank(line[start])
    ensures var last := FindLastNotBlank(line);
            last.Some? && start <= last.value && TrimEnd(line[start..]) == line[start..last.value + 1]
  {
    hide FindLastNotBlank, TrimEnd;
    var last := FindLastNotBlank(line);
    assert last.Some?;
    var body, tail := line[start..last.value + 1], line[last.value + 1..];
    assert line[start..] == body + tail;
    TrimEndTrims(body, tail);
  }

  // The grammar

  /** A community line taken apart. */
  datatype Parts = Parts(indent: string, gap1: string, gap2: string, gap3: string, body: string, tail: string)

  function Assemble(p: Parts): string {
    p.indent + "com2sec" + p.gap1 + "readonly" + p.gap2 + "default" + p.gap3 + p.body + p.tail
  }

  /** Spaces and tabs only. */
  predicate Gap(s: string) {
    forall i :: 0 <= i < |s| ==> s[i] == ' ' || s[i] == '\t'
  }

  predicate WellFormed(p: Parts) {
    && Gap(p.indent) && Gap(p.tail)
    && p.gap1 != "" && Gap(p.gap1)
    && p.gap2 != "" && Gap(p.gap2)
    && p.gap3 != "" && Gap(p.gap3)
    && p.body != "" && !Gap([p.body[0]]) && !Gap([p.body[|p.body| - 1]])
  }

  /** A body in quotes stands for what is between them, the empty text included; any other stands for itself. */
  ghost predicate StandsFor(body: string, name: string) {
    || body == "\"" + name + "\""
    || (body == name && forall inner: string :: body != "\"" + inner + "\"")
  }

  ghost predicate Denotes(line: string, name: string) {
    exists p :: WellFormed(p) && line == Assemble(p) && StandsFor(p.body, name)
  }

  lemma GapIsAllBlank(s: string)
    ensures Gap(s) <==> AllBlank(s)
    ensures |s| > 0 ==> (Gap([s[0]]) <==> Blank(s[0])) && (Gap([s[|s| - 1]]) <==> Blank(s[|s| - 1]))
  {
    if |s| > 0 {
      assert [s[0]][0] == s[0] && [s[|s| - 1]][0] == s[|s| - 1];
    }
  }

  /** The same in the scanner's terms. */
  predicate Scannable(p: Parts) {
    && AllBlank(p.indent) && AllBlank(p.tail)
    && p.gap1 != "" && AllBlank(p.gap1)
    && p.gap2 != "" && AllBlank(p.gap2)
    && p.gap3 != "" && AllBlank(p.gap3)
    && p.body != "" && !Blank(p.body[0]) && !Blank(p.body[|p.body| - 1])
  }

  lemma WellFormedIsScannable(p: Parts)
    ensures WellFormed(p) <==> Scannable(p)
  {
    hide Gap, AllBlank, Blank;
    GapIsAllBlank(p.indent);
    GapIsAllBlank(p.gap1);
    GapIsAllBlank(p.gap2);
    GapIsAllBlank(p.gap3);
    GapIsAllBlank(p.body);
    GapIsAllBlank(p.tail);
  }

  lemma QuotedIsInQuotes(s: string)
    ensures Quoted(s) <==> exists inner: string :: s == "\"" + inner + "\""
  {
    if Quoted(s) {
      assert s == "\"" + s[1..|s| - 1] + "\"";
    }
    if inner: string :| s == "\"" + inner + "\"" {
      assert |s| >= 2 && s[0] == '"' && s[|s| - 1] == '"';
    }
  }

  lemma UnquoteGivesWhatItStandsFor(body: string, name: string)
    ensures StandsFor(body, name) <==> name == Unquote(body)
  {
    QuotedIsInQuotes(body);
    if body == "\"" + name + "\"" {
      assert body[1..|body| - 1] == name;
    }
    if Quoted(body) {
      assert body == "\"" + body[1..|body| - 1] + "\"";
    }
  }

  predicate IsWord(w: string) {
    w != "" && forall i :: 0 <= i < |w| ==> !Blank(w[i])
  }

  lemma TokenRecognised(w: string, token: string, rest: string)
    requires AllBlank(w) && IsWord(token) && rest != "" && Blank(rest[0])
    ensures AfterToken(w + (token + rest), token) == Some(rest)
  {
    var t := token + rest;
    SkipBlanksSkips(w, t);
    WordIs(token, t);
  }

  lemma {:induction false} SkipBlanksSplits(s: string) returns (w: string)
    ensures AllBlank(w) && s == w + SkipBlanks(s) && (SkipBlanks(s) == "" || !Blank(SkipBlanks(s)[0]))
    decreases |s|
  {
    if s != "" && Blank(s[0]) {
      var v := SkipBlanksSplits(s[1..]);
      w := [s[0]] + v;
      assert SkipBlanks(s) == SkipBlanks(s[1..]);
      assert s == [s[0]] + s[1..] == w + SkipBlanks(s);
    } else {
      w := "";
    }
  }

  lemma {:induction false} TrimEndSplits(s: string) returns (w: string)
    ensures AllBlank(w) && s == TrimEnd(s) + w && (TrimEnd(s) == "" || !Blank(TrimEnd(s)[|TrimEnd(s)| - 1]))
    decreases |s|
  {
    if s != "" && Blank(s[|s| - 1]) {
      var v := TrimEndSplits(s[..|s| - 1]);
      w := v + [s[|s| - 1]];
      assert s == s[..|s| - 1] + [s[|s| - 1]];
    } else {
      w := "";
    }
  }

  lemma TokenSplits(s: string, token: string) returns (w: string)
    requires AfterToken(s, token).Some?
    ensures AllBlank(w)
    ensures var rest := AfterToken(s, token).value;
            s == w + (token + rest) && rest != "" && Blank(rest[0])
  {
    w := SkipBlanksSplits(s);
    var t := SkipBlanks(s);
    assert t == token + t[|token|..];
  }

  /** Every line of the grammar is recognised, with its value. */
  lemma GrammarIsAccepted(p: Parts, name: string)
    requires WellFormed(p) && StandsFor(p.body, name)
    ensures CommunityName(Assemble(p)) == Some(name)
  {
    hide AfterToken, AfterTokens, SkipBlanks, TrimEnd, WellFormed, Scannable, StandsFor, Unquote, TOKENS, Assemble;
    WellFormedIsScannable(p);
    AssembledIsRead(p);
    UnquoteGivesWhatItStandsFor(p.body, name);
  }

  lemma AssembledIsRead(p: Parts)
    requires Scannable(p)
    ensures p.body != "" && AfterTokens(Assemble(p), TOKENS).Some?
    ensures TrimEnd(SkipBlanks(AfterTokens(Assemble(p), TOKENS).value)) == p.body
  {
    hide AfterToken, SkipBlanks, TrimEnd, TOKENS;
    var end := p.gap3 + (p.body + p.tail);
    var c := p.gap2 + ("default" + end);
    var b := p.gap1 + ("readonly" + c);
    assert Assemble(p) == p.indent + ("com2sec" + b);
    TokenRecognised(p.indent, "com2sec", b);
    TokenRecognised(p.gap1, "readonly", c);
    TokenRecognised(p.gap2, "default", end);
    ThreeTokens(Assemble(p), b, c, end);
    SkipBlanksSkips(p.gap3, p.body + p.tail);
    TrimEndTrims(p.body, p.tail);
  }

  lemma ThreeTokens(line: string, b: string, c: string, end: string)
    requires AfterToken(line, "com2sec") == Some(b)
    requires AfterToken(b, "readonly") == Some(c)
    requires AfterToken(c, "default") == Some(end)
    ensures AfterTokens(line, TOKENS) == Some(end)
  {
    hide AfterToken;
    assert TOKENS[1..] == ["readonly", "default"] && TOKENS[1..][1..] == ["default"] && TOKENS[1..][1..][1..] == [];
    assert AfterTokens(c, ["default"]) == Some(end);
    assert AfterTokens(b, ["readonly", "default"]) == Some(end);
  }

  lemma ThreeTokensBack(line: string) returns (b: string, c: string)
    requires AfterTokens(line, TOKENS).Some?
    ensures AfterToken(line, "com2sec") == Some(b)
    ensures AfterToken(b, "readonly") == Some(c)
    ensures AfterToken(c, "default") == AfterTokens(line, TOKENS)
  {
    hide AfterToken;
    assert TOKENS[1..] == ["readonly", "default"] && TOKENS[1..][1..] == ["default"] && TOKENS[1..][1..][1..] == [];
    b := AfterToken(line, "com2sec").value;
    assert AfterTokens(line, TOKENS) == AfterTokens(b, ["readonly", "default"]);
    c := AfterToken(b, "readonly").value;
    assert AfterTokens(b, ["readonly", "default"]) == AfterTokens(c, ["default"]);
    assert AfterToken(c, "default").Some?;
  }

  /** Only lines of the grammar are recognised. */
  lemma AcceptedIsGrammar(line: string)
    requires CommunityName(line).Some?
    ensures Denotes(line, CommunityName(line).value)
  {
    hide AfterToken, AfterTokens, SkipBlanks, TrimEnd, Assemble, WellFormed, StandsFor, Unquote, TOKENS;
    var b, c := ThreeTokensBack(line);
    var end := AfterTokens(line, TOKENS).value;
    var indent := TokenSplits(line, "com2sec");
    var gap1 := TokenSplits(b, "readonly");
    var gap2 := TokenSplits(c, "default");
    var gap3 := SkipBlanksSplits(end);
    var body := TrimEnd(SkipBlanks(end));
    var tail := TrimEndSplits(SkipBlanks(end));
    GapsAreNotEmpty(b, gap1, "readonly", c);
    GapsAreNotEmpty(c, gap2, "default", end);
    var p := Parts(indent, gap1, gap2, gap3, body, tail);
    PartsFit(p, line, b, c, end);
    UnquoteGivesWhatItStandsFor(body, Unquote(body));
  }

  lemma PartsFit(p: Parts, line: string, b: string, c: string, end: string)
    requires AllBlank(p.indent) && AllBlank(p.gap1) && AllBlank(p.gap2) && AllBlank(p.gap3) && AllBlank(p.tail)
    requires p.gap1 != "" && p.gap2 != "" && end != "" && Blank(end[0]) && p.body != ""
    requires !Blank((p.body + p.tail)[0]) && !Blank(p.body[|p.body| - 1])
    requires line == p.indent + ("com2sec" + b) && b == p.gap1 + ("readonly" + c)
    requires c == p.gap2 + ("default" + end) && end == p.gap3 + (p.body + p.tail)
    ensures WellFormed(p) && line == Assemble(p)
  {
    WellFormedIsScannable(p);
    assert end[0] == (p.gap3 + (p.body + p.tail))[0];
    assert (p.body + p.tail)[0] == p.body[0];
    assert line == Assemble(p);
  }

  lemma GapsAreNotEmpty(s: string, gap: string, token: string, rest: string)
    requires s != "" && Blank(s[0]) && IsWord(token) && s == gap + (token + rest)
    ensures gap != ""
  {
    assert s[0] == (gap + (token + rest))[0];
  }

  /** The scanner returns a value exactly for the lines of the grammar, and it is that line's value. */
  lemma ScannerIsSoundAndComplete(line: string, name: string)
    ensures CommunityName(line) == Some(name) <==> Denotes(line, name)
  {
    if CommunityName(line) == Some(name) {
      AcceptedIsGrammar(line);
    }
    if Denotes(line, name) {
      var p :| WellFormed(p) && line == Assemble(p) && StandsFor(p.body, name);
      GrammarIsAccepted(p, name);
    }
  }

  // The printer

  predicate HasBlank(s: string) {
    exists i :: 0 <= i < |s| && Blank(s[i])
  }

  /** The line that `writeConfig` puts in place of a community line. */
  function Print(value: string): string {
    var quote := if HasBlank(value) then "\"" else "";
    "com2sec readonly  default\t  " + quote + value + quote
  }

  /** The value is not empty, and it has a space or a tab or is not in quotes. */
  ghost predicate RoundTrips(value: string) {
    && value != ""
    && ((exists i :: 0 <= i < |value| && (value[i] == ' ' || value[i] == '\t'))
        || forall inner: string :: value != "\"" + inner + "\"")
  }

  /** The body of the printed line. */
  function PrintedBody(value: string): string {
    if HasBlank(value) then "\"" + value + "\"" else value
  }

  function PrintedParts(value: string): Parts {
    Parts("", " ", "  ", "\t  ", PrintedBody(value), "")
  }

  lemma PrintIsAssembled(value: string)
    ensures Print(value) == Assemble(PrintedParts(value))
  {
    hide HasBlank;
    var head := "com2sec readonly  default\t  ";
    assert head == "" + "com2sec" + " " + "readonly" + "  " + "default" + "\t  ";
  }

  lemma PrintedBodyIsTrimmed(value: string)
    requires value != ""
    ensures WellFormed(PrintedParts(value))
  {
    WellFormedIsScannable(PrintedParts(value));
  }

  /** How the printed line of a non-empty value is read. */
  lemma PrintedIsRead(value: string, name: string)
    requires value != "" && if HasBlank(value) then name == value else StandsFor(value, name)
    ensures CommunityName(Print(value)) == Some(name)
  {
    hide CommunityName, Print, Assemble, HasBlank, WellFormed, StandsFor;
    PrintIsAssembled(value);
    PrintedBodyIsTrimmed(value);
    if HasBlank(value) {
      QuotesStandForValue(value);
    }
    GrammarIsAccepted(PrintedParts(value), name);
  }

  lemma QuotesStandForValue(value: string)
    ensures StandsFor("\"" + value + "\"", value)
  {
  }

  lemma PrintedEmptyIsNotRead(value: string)
    requires value == ""
    ensures CommunityName(Print(value)).None?
  {
    hide AfterToken, AfterTokens, TOKENS;
    var end := "\t  " + value;
    var c := "  " + ("default" + end);
    var b := " " + ("readonly" + c);
    assert Print(value) == value + ("com2sec" + b);
    TokenRecognised(value, "com2sec", b);
    TokenRecognised(" ", "readonly", c);
    TokenRecognised("  ", "default", end);
    ThreeTokens(Print(value), b, c, end);
    assert end == end + value;
    SkipBlanksSkips(end, value);
  }

  lemma PlainValuesRoundTrip(value: string)
    requires value != "" && value[0] != '"'
    ensures RoundTrips(value)
  {
    QuotedIsInQuotes(value);
  }

  /** Printing and reading gives the value back exactly when it has a blank or no enclosing quotes. */
  lemma PrintThenRead(value: string)
    ensures CommunityName(Print(value)) == Some(value) <==> RoundTrips(value)
  {
    hide CommunityName, Print, StandsFor;
    if value == "" {
      PrintedEmptyIsNotRead(value);
    } else {
      var name := if HasBlank(value) then value else Unquote(value);
      UnquoteGivesWhatItStandsFor(value, name);
      PrintedIsRead(value, name);
      QuotedIsInQuotes(value);
    }
  }
}
