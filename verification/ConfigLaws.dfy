/** What a write does to snmpd.conf, what a second write adds, and what is read back. */
module ConfigLaws {
  import opened Wrappers
  import opened Community
  import opened ConfigFile

  lemma PrintIsNewlineFree(value: string)
    requires NewlineFree(value)
    ensures NewlineFree(Print(value))
  {
  }

  lemma RewriteAllIsNewlineFree(lines: seq<string>, value: string)
    requires AllNewlineFree(lines) && NewlineFree(value)
    ensures AllNewlineFree(RewriteAll(lines, value))
  {
    PrintIsNewlineFree(value);
  }

  /** The lines that written texts fall into; a text with newlines falls into several. */
  function SplitAll(texts: seq<string>): seq<string> {
    if texts == [] then [] else Lines(texts[0] + "\n") + SplitAll(texts[1..])
  }

  lemma {:induction false} LinesOfJoinAll(texts: seq<string>)
    ensures Lines(Join(texts)) == SplitAll(texts)
    decreases |texts|
  {
    hide Lines;
    if texts == [] {
      NoLines("");
    } else {
      LinesAppend(texts[0], Join(texts[1..]));
      LinesOfJoinAll(texts[1..]);
    }
  }

  lemma {:induction false} SplitAllAppend(a: seq<string>, b: seq<string>)
    ensures SplitAll(a + b) == SplitAll(a) + SplitAll(b)
    decreases |a|
  {
    hide Lines;
    if a == [] {
      assert a + b == b;
    } else {
      assert (a + b)[1..] == a[1..] + b;
      SplitAllAppend(a[1..], b);
    }
  }

  lemma {:induction false} SplitAllOfLines(lines: seq<string>)
    requires AllNewlineFree(lines)
    ensures SplitAll(lines) == lines
    decreases |lines|
  {
    hide Lines, NewlineFree;
    if lines != [] {
      assert NewlineFree(lines[0]);
      LineAlone(lines[0]);
      SplitAllOfLines(lines[1..]);
    }
  }

  /**
   * The lines of the written file are the rewritten lines of the old one, place by place;
   * a printed value with newlines takes several places.
   */
  lemma WrittenLines(file: string, value: string)
    ensures Lines(Written(file, value)) == SplitAll(RewriteAll(Lines(file), value))
    ensures NewlineFree(value) ==> Lines(Written(file, value)) == RewriteAll(Lines(file), value)
  {
    hide Lines, NewlineFree, Join;
    LinesAreNewlineFree(file);
    if AnyStale(Lines(file), value) {
      LinesOfJoinAll(RewriteAll(Lines(file), value));
    } else {
      NothingStale(Lines(file), value);
      SplitAllOfLines(Lines(file));
    }
    if NewlineFree(value) {
      RewriteAllIsNewlineFree(Lines(file), value);
      SplitAllOfLines(RewriteAll(Lines(file), value));
    }
  }

  /**
   * Every text is terminated lines and a rest without a newline, and this is how it is
   * read: the lines, and the rest as a last line unless it is empty.
   */
  lemma {:induction false} LinesOfText(lines: seq<string>, last: string)
    requires AllNewlineFree(lines) && NewlineFree(last)
    ensures Lines(Join(lines) + last) == lines + (if last == "" then [] else [last])
    decreases |lines|
  {
    hide Lines, NewlineFree;
    if lines == [] {
      assert Join(lines) + last == last;
      LastLine(last);
    } else {
      assert NewlineFree(lines[0]);
      assert Join(lines) + last == lines[0] + "\n" + (Join(lines[1..]) + last);
      LinesAppend(lines[0], Join(lines[1..]) + last);
      LineAlone(lines[0]);
      LinesOfText(lines[1..], last);
    }
  }

  lemma LastLine(last: string)
    requires NewlineFree(last)
    ensures Lines(last) == if last == "" then [] else [last]
  {
    LineEndIs(last, |last|);
    assert last[..|last|] == last;
    NoLines("");
  }

  lemma {:induction false} TextIsLinesAndRest(s: string) returns (lines: seq<string>, last: string)
    ensures AllNewlineFree(lines) && NewlineFree(last) && s == Join(lines) + last
    decreases |s|
  {
    hide Lines;
    var n := LineEnd(s);
    if n == |s| {
      lines, last := [], s;
      assert s == "" + s;
    } else {
      var rest;
      rest, last := TextIsLinesAndRest(s[n + 1..]);
      lines := [s[..n]] + rest;
      assert s == s[..n] + "\n" + s[n + 1..];
      assert lines[1..] == rest;
    }
  }

  /** A stale line is a community line for another value. */
  lemma StaleLinesDenoteAnother(line: string, value: string)
    ensures Stale(line, value) <==> exists name :: name != value && Denotes(line, name)
  {
    hide CommunityName, Denotes;
    if Stale(line, value) {
      ScannerIsSoundAndComplete(line, CommunityName(line).value);
    }
    forall name | name != value && Denotes(line, name)
      ensures Stale(line, value)
    {
      ScannerIsSoundAndComplete(line, name);
    }
  }

  /**
   * A value without newlines takes the place of every other community value, line by line:
   * in quotes if it has a space or a tab. All other lines stay as they are.
   */
  lemma WrittenLineIs(file: string, value: string, k: nat)
    requires NewlineFree(value) && k < |Lines(file)|
    ensures |Lines(Written(file, value))| == |Lines(file)|
    ensures
      Lines(Written(file, value))[k] ==
      if exists name :: name != value && Denotes(Lines(file)[k], name) then
        "com2sec readonly  default\t  "
        + (if exists i :: 0 <= i < |value| && (value[i] == ' ' || value[i] == '\t') then "\"" + value + "\"" else value)
      else Lines(file)[k]
  {
    hide CommunityName, Denotes, Lines, Written, NewlineFree;
    WrittenLines(file, value);
    StaleLinesDenoteAnother(Lines(file)[k], value);
    PrintIs(value);
  }

  lemma PrintIs(value: string)
    ensures Print(value) == "com2sec readonly  default\t  " + PrintedBody(value)
  {
    hide HasBlank;
    var head := "com2sec readonly  default\t  ";
    if HasBlank(value) {
      assert head + "\"" + value + "\"" == head + ("\"" + value + "\"");
    } else {
      assert head + "" + value + "" == head + value;
    }
  }

  /** A printed value is a community line; it is stale for its own value unless it round-trips. */
  lemma PrintedLine(value: string)
    requires value != ""
    ensures CommunityName(Print(value)).Some?
    ensures Stale(Print(value), value) <==> !RoundTrips(value)
  {
    PrintedIsReadSomehow(value);
    PrintThenRead(value);
  }

  lemma PrintedIsReadSomehow(value: string)
    requires value != ""
    ensures CommunityName(Print(value)).Some?
  {
    hide CommunityName, Print, StandsFor;
    var name := if HasBlank(value) then value else Unquote(value);
    UnquoteGivesWhatItStandsFor(value, name);
    PrintedIsRead(value, name);
  }

  /** What a line of the file becomes. */
  function Block(line: string, value: string): seq<string> {
    Lines(Rewrite(line, value) + "\n")
  }

  /**
   * Every line of the file becomes a block, in its place. The block is the line itself
   * unless it is a community line with another value; then it is what the printed value
   * falls into. For a value without newlines all blocks are single lines, community lines
   * stay community lines, and they have the value afterwards if it is one that round-trips.
   */
  lemma WriteChangesOnlyStaleLines(file: string, value: string, k: nat)
    requires value != "" && k < |Lines(file)|
    ensures
      var before, after := Lines(file), Lines(Written(file, value));
      && after == SplitAll(RewriteAll(before[..k], value)) + Block(before[k], value)
                  + SplitAll(RewriteAll(before[k + 1..], value))
      && Block(before[k], value) == (if Stale(before[k], value) then Lines(Print(value) + "\n") else [before[k]])
      && (NewlineFree(value) ==>
           && |after| == |before| && Block(before[k], value) == [after[k]]
           && (CommunityName(after[k]).Some? <==> CommunityName(before[k]).Some?)
           && (RoundTrips(value) && CommunityName(before[k]).Some? ==> CommunityName(after[k]) == Some(value)))
  {
    hide CommunityName, Print, Written, Lines, SplitAll, NewlineFree, RoundTrips;
    var before := Lines(file);
    WrittenLines(file, value);
    BlocksInPlace(before, value, k);
    LinesAreNewlineFree(file);
    assert NewlineFree(before[k]);
    LineAlone(before[k]);
    PrintedLine(value);
    PrintThenRead(value);
    if NewlineFree(value) {
      PrintIsNewlineFree(value);
      LineAlone(Rewrite(before[k], value));
    }
  }

  lemma BlocksInPlace(lines: seq<string>, value: string, k: nat)
    requires k < |lines|
    ensures SplitAll(RewriteAll(lines, value)) ==
            SplitAll(RewriteAll(lines[..k], value)) + Block(lines[k], value)
            + SplitAll(RewriteAll(lines[k + 1..], value))
  {
    hide Lines, Rewrite;
    var a, x, b := RewriteAll(lines[..k], value), Rewrite(lines[k], value), RewriteAll(lines[k + 1..], value);
    assert RewriteAll(lines, value) == a + ([x] + b);
    SplitAllAppend(a, [x] + b);
    assert ([x] + b)[1..] == b;
    assert SplitAll(a) + (Lines(x + "\n") + SplitAll(b)) == SplitAll(a) + Lines(x + "\n") + SplitAll(b);
  }

  // A second write

  /** What is stale after a write is what a value that does not round-trip has just been put into. */
  lemma StaleAfterWrite(lines: seq<string>, value: string)
    requires value != ""
    ensures AnyStale(RewriteAll(lines, value), value) <==> AnyStale(lines, value) && !RoundTrips(value)
  {
    hide CommunityName, Print, RoundTrips;
    PrintedLine(value);
    var after := RewriteAll(lines, value);
    if AnyStale(after, value) {
      var k :| 0 <= k < |after| && Stale(after[k], value);
      assert Stale(lines[k], value);
    }
    if AnyStale(lines, value) && !RoundTrips(value) {
      var k :| 0 <= k < |lines| && Stale(lines[k], value);
      assert Stale(after[k], value);
    }
  }

  lemma RewriteAllTwice(lines: seq<string>, value: string)
    ensures RewriteAll(RewriteAll(lines, value), value) == RewriteAll(lines, value)
  {
  }

  /**
   * Writing a value without newlines a second time changes no byte. It replaces the file
   * by an equal one, and asks for a reload, exactly when the first write changed a line
   * and the value does not round-trip.
   */
  lemma SecondWriteOfOneLine(file: string, value: string)
    requires NewlineFree(value) && value != ""
    ensures var once := Written(file, value);
            && Written(once, value) == once
            && (AnyStale(Lines(once), value) <==> AnyStale(Lines(file), value) && !RoundTrips(value))
  {
    hide CommunityName, Print, RoundTrips, Lines, Join, RewriteAll;
    WrittenLines(file, value);
    StaleAfterWrite(Lines(file), value);
    RewriteAllTwice(Lines(file), value);
  }

  // Reading back

  lemma {:induction false} FirstCommunityExists(lines: seq<string>)
    ensures FirstCommunity(lines).Some? <==> AnyCommunity(lines)
    decreases |lines|
  {
    hide CommunityName;
    if lines != [] {
      FirstCommunityExists(lines[1..]);
      if AnyCommunity(lines[1..]) {
        var k :| 0 <= k < |lines[1..]| && CommunityName(lines[1..][k]).Some?;
        assert CommunityName(lines[k + 1]).Some?;
      }
      if AnyCommunity(lines) && CommunityName(lines[0]).None? {
        var k :| 0 <= k < |lines| && CommunityName(lines[k]).Some?;
        assert CommunityName(lines[1..][k - 1]).Some?;
      }
    }
  }

  /** What a start reads is the value of the first line that has one. */
  lemma {:induction false} FirstCommunityIsFirst(lines: seq<string>, name: string)
    ensures FirstCommunity(lines) == Some(name) <==>
            exists k :: 0 <= k < |lines| && Denotes(lines[k], name) && NoneDenotes(lines[..k])
    decreases |lines|
  {
    hide CommunityName, Denotes;
    if lines != [] {
      var rest := lines[1..];
      FirstCommunityIsFirst(rest, name);
      ScannerIsSoundAndComplete(lines[0], name);
      DenotingExists(lines[0]);
      if CommunityName(lines[0]).Some? {
        forall k | 0 < k <= |lines|
          ensures !NoneDenotes(lines[..k])
        {
          assert lines[..k][0] == lines[0];
        }
        assert lines[..0] == [];
      } else {
        forall k | 0 <= k < |rest|
          ensures NoneDenotes(lines[..k + 1]) <==> NoneDenotes(rest[..k])
        {
          assert lines[..k + 1] == [lines[0]] + rest[..k];
        }
        if k :| 0 <= k < |lines| && Denotes(lines[k], name) && NoneDenotes(lines[..k]) {
          assert rest[k - 1] == lines[k];
        }
        if k :| 0 <= k < |rest| && Denotes(rest[k], name) && NoneDenotes(rest[..k]) {
          assert lines[k + 1] == rest[k];
        }
      }
    }
  }

  ghost predicate NoneDenotes(lines: seq<string>) {
    forall k, name :: 0 <= k < |lines| ==> !Denotes(lines[k], name)
  }

  lemma DenotingExists(line: string)
    ensures CommunityName(line).Some? <==> exists name :: Denotes(line, name)
  {
    hide CommunityName, Denotes;
    if CommunityName(line).Some? {
      ScannerIsSoundAndComplete(line, CommunityName(line).value);
    }
    forall name | Denotes(line, name)
      ensures CommunityName(line).Some?
    {
      ScannerIsSoundAndComplete(line, name);
    }
  }

  lemma {:induction false} FirstCommunityAfterWrite(lines: seq<string>, value: string)
    requires value != ""
    ensures FirstCommunity(RewriteAll(lines, value)) ==
            if FirstCommunity(lines).None? || FirstCommunity(lines) == Some(value) then FirstCommunity(lines)
            else CommunityName(Print(value))
    decreases |lines|
  {
    hide CommunityName, Print;
    PrintedLine(value);
    if lines != [] {
      assert RewriteAll(lines, value)[1..] == RewriteAll(lines[1..], value);
      FirstCommunityAfterWrite(lines[1..], value);
    }
  }

  // Values with a newline

  function Newlines(s: string): nat {
    if s == "" then 0 else (if s[0] == '\n' then 1 else 0) + Newlines(s[1..])
  }

  lemma {:induction false} NewlinesAppend(a: string, b: string)
    ensures Newlines(a + b) == Newlines(a) + Newlines(b)
    decreases |a|
  {
    if a == "" {
      assert a + b == b;
    } else {
      assert (a + b)[1..] == a[1..] + b;
      NewlinesAppend(a[1..], b);
    }
  }

  lemma {:induction false} NewlinesAreSeen(s: string)
    ensures Newlines(s) == 0 <==> NewlineFree(s)
    decreases |s|
  {
    if s != "" {
      assert s == [s[0]] + s[1..];
      NewlinesAreSeen(s[1..]);
    }
  }

  /** Joined lines have one newline each, and those inside them. */
  lemma {:induction false} NewlinesOfRewrite(lines: seq<string>, value: string)
    requires AllNewlineFree(lines)
    ensures Newlines(Join(RewriteAll(lines, value))) >= |lines|
    ensures AnyStale(lines, value) && !NewlineFree(value) ==> Newlines(Join(RewriteAll(lines, value))) > |lines|
    decreases |lines|
  {
    hide Stale, Print, Newlines;
    if lines != [] {
      var first, rest := Rewrite(lines[0], value), RewriteAll(lines[1..], value);
      assert RewriteAll(lines, value) == [first] + rest;
      assert Join(RewriteAll(lines, value)) == first + "\n" + Join(rest);
      NewlinesAppend(first + "\n", Join(rest));
      NewlinesAppend(first, "\n");
      OneNewline("\n");
      NewlinesOfRewrite(lines[1..], value);
      if AnyStale(lines, value) && !NewlineFree(value) {
        if Stale(lines[0], value) {
          PrintHasTheValuesNewlines(value);
        } else {
          var k :| 0 <= k < |lines| && Stale(lines[k], value);
          assert Stale(lines[1..][k - 1], value);
        }
      }
    }
  }

  lemma OneNewline(s: string)
    requires s == "\n"
    ensures Newlines(s) == 1
  {
    assert s[1..] == "";
  }

  lemma PrintHasTheValuesNewlines(value: string)
    requires !NewlineFree(value)
    ensures Newlines(Print(value)) > 0
  {
    var i :| 0 <= i < |value| && value[i] == '\n';
    var quote := if HasBlank(value) then "\"" else "";
    var head := "com2sec readonly  default\t  " + quote;
    assert Print(value) == head + value + quote;
    assert Print(value)[|head| + i] == '\n';
    NewlinesAreSeen(Print(value));
  }

  /** A line without newlines has a value without newlines, so no community line has a value with one. */
  lemma NamesAreNewlineFree(line: string)
    requires NewlineFree(line) && CommunityName(line).Some?
    ensures NewlineFree(CommunityName(line).value)
  {
    hide CommunityName, StandsFor, Gap;
    var name := CommunityName(line).value;
    AcceptedIsGrammar(line);
    var p :| Community.WellFormed(p) && line == Assemble(p) && StandsFor(p.body, name);
    UnquoteGivesWhatItStandsFor(p.body, name);
    var at := |p.indent + "com2sec" + p.gap1 + "readonly" + p.gap2 + "default" + p.gap3|;
    assert forall i :: 0 <= i < |p.body| ==> line[at + i] == p.body[i];
  }

  /** Some line that the printed value falls into is a community line. */
  ghost predicate PrintsCommunity(value: string) {
    AnyCommunity(Lines(Print(value) + "\n"))
  }

  lemma AnyCommunityAppend(a: seq<string>, b: seq<string>)
    ensures AnyCommunity(a + b) <==> AnyCommunity(a) || AnyCommunity(b)
  {
    hide CommunityName;
    if AnyCommunity(a) {
      var k :| 0 <= k < |a| && CommunityName(a[k]).Some?;
      assert CommunityName((a + b)[k]).Some?;
    }
    if AnyCommunity(b) {
      var k :| 0 <= k < |b| && CommunityName(b[k]).Some?;
      assert CommunityName((a + b)[|a| + k]).Some?;
    }
  }

  /** The lines of the rewritten text: the printed value may fall into several. */
  lemma {:induction false} CommunityAfterRewrite(lines: seq<string>, value: string)
    requires AllNewlineFree(lines) && !NewlineFree(value)
    ensures AnyCommunity(Lines(Join(RewriteAll(lines, value)))) <==> AnyStale(lines, value) && PrintsCommunity(value)
    decreases |lines|
  {
    hide CommunityName, Print, NewlineFree, Lines, AnyCommunity, PrintsCommunity;
    if lines == [] {
      assert Join(RewriteAll(lines, value)) == "";
      NoLines("");
      NoCommunity([]);
    } else {
      var first, rest := Rewrite(lines[0], value), RewriteAll(lines[1..], value);
      assert RewriteAll(lines, value) == [first] + rest;
      assert Join(RewriteAll(lines, value)) == first + "\n" + Join(rest);
      LinesAppend(first, Join(rest));
      AnyCommunityAppend(Lines(first + "\n"), Lines(Join(rest)));
      CommunityAfterRewrite(lines[1..], value);
      assert NewlineFree(lines[0]);
      CommunityOfFirst(lines[0], value);
      StaleSplit(lines, value);
    }
  }

  lemma NoCommunity(lines: seq<string>)
    requires lines == []
    ensures !AnyCommunity(lines)
  {
  }

  lemma StaleSplit(lines: seq<string>, value: string)
    requires lines != []
    ensures AnyStale(lines, value) <==> Stale(lines[0], value) || AnyStale(lines[1..], value)
  {
    hide Stale;
    if AnyStale(lines[1..], value) {
      var k :| 0 <= k < |lines[1..]| && Stale(lines[1..][k], value);
      assert Stale(lines[k + 1], value);
    }
    if AnyStale(lines, value) && !Stale(lines[0], value) {
      var k :| 0 <= k < |lines| && Stale(lines[k], value);
      assert Stale(lines[1..][k - 1], value);
    }
  }

  lemma CommunityOfFirst(line: string, value: string)
    requires NewlineFree(line) && !NewlineFree(value)
    ensures AnyCommunity(Lines(Rewrite(line, value) + "\n")) <==> Stale(line, value) && PrintsCommunity(value)
  {
    hide CommunityName, Print, Lines;
    if !Stale(line, value) {
      LineAlone(line);
      if CommunityName(line).Some? {
        NamesAreNewlineFree(line);
      }
    }
  }

  /** Without a newline in sight every community line is stale for a value with one. */
  lemma CommunityIsStale(lines: seq<string>, value: string)
    requires AllNewlineFree(lines) && !NewlineFree(value)
    ensures AnyCommunity(lines) <==> AnyStale(lines, value)
  {
    hide CommunityName;
    if AnyCommunity(lines) {
      var k :| 0 <= k < |lines| && CommunityName(lines[k]).Some?;
      NamesAreNewlineFree(lines[k]);
      assert Stale(lines[k], value);
    }
  }

  /** Once a value with newlines is written, something is stale again exactly if its print has a community line. */
  lemma StaleAfterNewlineValue(file: string, value: string)
    requires !NewlineFree(value)
    ensures AnyStale(Lines(Written(file, value)), value) <==> AnyStale(Lines(file), value) && PrintsCommunity(value)
  {
    hide CommunityName, Print, Lines, AnyCommunity, PrintsCommunity, AnyStale, NewlineFree;
    var once := Written(file, value);
    LinesAreNewlineFree(file);
    LinesAreNewlineFree(once);
    if AnyStale(Lines(file), value) {
      CommunityAfterRewrite(Lines(file), value);
      CommunityIsStale(Lines(once), value);
    }
  }

  /** Such a write adds lines to the file. */
  lemma NewlineValueAddsLines(file: string, value: string)
    requires !NewlineFree(value) && AnyStale(Lines(file), value)
    ensures |Lines(Written(file, value))| > |Lines(file)|
  {
    hide CommunityName, Print, Lines, AnyStale, Newlines, NewlineFree;
    LinesAreNewlineFree(file);
    NewlinesOfRewrite(Lines(file), value);
    NewlinesAreLines(RewriteAll(Lines(file), value));
  }

  /** A second write of a value with newlines either changes nothing or makes the file longer still. */
  lemma NewlineValueGrows(file: string, value: string)
    requires !NewlineFree(value) && AnyStale(Lines(file), value)
    ensures var once := Written(file, value);
            && (Written(once, value) == once <==> !PrintsCommunity(value))
            && (PrintsCommunity(value) ==> |Lines(Written(once, value))| > |Lines(once)| > |Lines(file)|)
  {
    hide CommunityName, Print, Lines, AnyCommunity, PrintsCommunity, AnyStale, Written, NewlineFree;
    var once := Written(file, value);
    StaleAfterNewlineValue(file, value);
    NewlineValueAddsLines(file, value);
    if PrintsCommunity(value) {
      NewlineValueAddsLines(once, value);
    } else {
      NothingWritten(once, value);
    }
  }

  ghost function WrittenTimes(file: string, value: string, n: nat): string
    decreases n
  {
    if n == 0 then file else WrittenTimes(Written(file, value), value, n - 1)
  }

  /** Written again and again, the file grows by a line at least every time. */
  lemma {:induction false} NewlineValueGrowsForEver(file: string, value: string, n: nat)
    requires !NewlineFree(value) && PrintsCommunity(value) && AnyStale(Lines(file), value)
    ensures |Lines(WrittenTimes(file, value, n))| >= |Lines(file)| + n
    decreases n
  {
    hide Lines, PrintsCommunity, AnyStale, Written, NewlineFree;
    if n > 0 {
      StaleAfterNewlineValue(file, value);
      NewlineValueAddsLines(file, value);
      NewlineValueGrowsForEver(Written(file, value), value, n - 1);
    }
  }

  /** A file that ends in a newline has as many newlines as lines. */
  lemma {:induction false} NewlinesAreLines(lines: seq<string>)
    ensures Newlines(Join(lines)) == |Lines(Join(lines))|
    decreases |lines|
  {
    hide Lines, Newlines;
    if lines == [] {
      NoLines("");
      NewlinesAreSeen("");
    } else {
      LinesAppend(lines[0], Join(lines[1..]));
      NewlinesAppend(lines[0] + "\n", Join(lines[1..]));
      NewlinesOfLine(lines[0]);
      NewlinesAreLines(lines[1..]);
    }
  }

  lemma {:induction false} NewlinesOfLine(line: string)
    ensures Newlines(line + "\n") == |Lines(line + "\n")|
    decreases |line|
  {
    hide Lines, Newlines, LineEnd;
    var s := line + "\n";
    NewlinesAppend(line, "\n");
    OneNewline("\n");
    var n := LineEnd(line);
    if n == |line| {
      NewlinesAreSeen(line);
      LineAlone(line);
    } else {
      var head, tail := line[..n], line[n + 1..];
      assert s == head + "\n" + (tail + "\n");
      LinesAppend(head, tail + "\n");
      LineAlone(head);
      NewlinesAppend(head + "\n", tail + "\n");
      NewlinesAppend(head, "\n");
      NewlinesAreSeen(head);
      NewlinesOfLine(tail);
    }
  }

  /** A fresh start reads the written value exactly when the file has a community line that can carry it. */
  lemma ReadBack(file: string, value: string)
    requires value != ""
    ensures FirstCommunity(Lines(Written(file, value))) == Some(value) <==>
            && NewlineFree(value) && AnyCommunity(Lines(file))
            && (RoundTrips(value) || FirstCommunity(Lines(file)) == Some(value))
  {
    hide CommunityName, Print, RoundTrips, Lines, Written, NewlineFree;
    if NewlineFree(value) {
      WrittenLines(file, value);
      FirstCommunityAfterWrite(Lines(file), value);
      FirstCommunityExists(Lines(file));
      PrintThenRead(value);
    } else {
      LinesAreNewlineFree(Written(file, value));
      FirstCommunityIsNewlineFree(Lines(Written(file, value)));
    }
  }

  lemma {:induction false} FirstCommunityIsNewlineFree(lines: seq<string>)
    requires AllNewlineFree(lines)
    ensures FirstCommunity(lines).Some? ==> NewlineFree(FirstCommunity(lines).value)
    decreases |lines|
  {
    hide CommunityName, NewlineFree;
    if lines != [] {
      assert NewlineFree(lines[0]);
      if CommunityName(lines[0]).Some? {
        NamesAreNewlineFree(lines[0]);
      }
      FirstCommunityIsNewlineFree(lines[1..]);
    }
  }

  /** The number of lines is kept exactly when no printed value falls into several. */
  lemma LineCountIsKeptExactlyWhen(file: string, value: string)
    requires value != ""
    ensures |Lines(Written(file, value))| == |Lines(file)| <==> NewlineFree(value) || !AnyStale(Lines(file), value)
  {
    hide CommunityName, Print, Lines, AnyStale, Newlines, NewlineFree;
    if NewlineFree(value) {
      WrittenLines(file, value);
    } else if AnyStale(Lines(file), value) {
      NewlineValueAddsLines(file, value);
    } else {
      NothingWritten(file, value);
    }
  }

  /**
   * For every value that `community` lets through: a second write changes no byte exactly
   * when the value has no newline, or the first write changed nothing, or none of the
   * lines that the printed value falls into is a community line.
   */
  lemma SecondWriteChangesNothingExactlyWhen(file: string, value: string)
    requires value != ""
    ensures var once := Written(file, value);
            Written(once, value) == once <==>
            NewlineFree(value) || !AnyStale(Lines(file), value) || !PrintsCommunity(value)
  {
    hide Written, PrintsCommunity, Lines;
    if NewlineFree(value) {
      SecondWriteOfOneLine(file, value);
    } else if AnyStale(Lines(file), value) {
      NewlineValueGrows(file, value);
    } else {
      NothingWritten(file, value);
    }
  }

  /**
   * For every value that `community` lets through: a second write asks for another reload
   * exactly when the first one changed something and the value is not read back from its
   * own print; with a newline in the value, when its print has a community line at all.
   */
  lemma SecondWrite(file: string, value: string)
    requires value != ""
    ensures
      var once := Written(file, value);
      && (Written(once, value) == once <==>
           NewlineFree(value) || !AnyStale(Lines(file), value) || !PrintsCommunity(value))
      && (AnyStale(Lines(once), value) <==>
           && AnyStale(Lines(file), value)
           && (if NewlineFree(value) then !RoundTrips(value) else PrintsCommunity(value)))
  {
    hide Written, PrintsCommunity, Lines, AnyStale, NewlineFree, RoundTrips;
    SecondWriteChangesNothingExactlyWhen(file, value);
    if NewlineFree(value) {
      SecondWriteOfOneLine(file, value);
    } else {
      StaleAfterNewlineValue(file, value);
    }
  }

  lemma NothingWritten(file: string, value: string)
    requires !AnyStale(Lines(file), value)
    ensures Written(file, value) == file
  {
  }

  lemma NewlineValuePrintsCommunity(value: string)
    requires value == "a\nb"
    ensures PrintsCommunity(value) && !NewlineFree(value)
  {
    hide CommunityName, Lines;
    var head := "com2sec readonly  default\t  " + "a";
    assert value[1] == '\n';
    assert Print(value) + "\n" == head + "\n" + "b\n";
    LinesAppend(head, "b\n");
    LineAlone(head);
    assert head == Print("a");
    PrintedIsReadSomehow("a");
    assert CommunityName((Lines(head + "\n") + Lines("b\n"))[0]).Some?;
  }

  /** A value and a file that grows with every write of it. */
  lemma NewlineValueThatGrows(value: string, file: string, n: nat)
    requires value == "a\nb" && file == Print("public") + "\n"
    ensures PrintsCommunity(value) && !NewlineFree(value) && AnyStale(Lines(file), value)
    ensures |Lines(WrittenTimes(file, value, n))| >= 1 + n
  {
    hide CommunityName, Lines, PrintsCommunity, Print, WrittenTimes, RoundTrips;
    NewlineValuePrintsCommunity(value);
    PlainValuesRoundTrip("public");
    OneStaleLine(file, "public", value);
    NewlineValueGrowsForEver(file, value, n);
  }

  /** A file of one community line, stale for every other value. */
  lemma OneStaleLine(file: string, known: string, value: string)
    requires known != "" && known != value && RoundTrips(known) && NewlineFree(known) && file == Print(known) + "\n"
    ensures Lines(file) == [Print(known)] && AnyStale(Lines(file), value)
  {
    hide CommunityName, Lines, Print, NewlineFree, RoundTrips;
    PrintIsNewlineFree(known);
    LineAlone(Print(known));
    PrintThenRead(known);
    assert Stale(Lines(file)[0], value);
  }

  // A full disk

  /** The live file after a write. */
  ghost function LiveAfter(file: string, value: string, world: World): string {
    if Commits(Some(file), value, world) then Cut(Written(file, value), world.room) else file
  }

  /**
   * The live file stays unless both files can be opened and renamed and a line is stale;
   * then it becomes the longest beginning of the new one that finds room.
   */
  lemma LiveFileIsOldOrPrefixOfNew(file: string, value: string, world: World)
    ensures
      var live, target := LiveAfter(file, value, world), Written(file, value);
      if world.canCreate && world.canRename && AnyStale(Lines(file), value) then
        live <= target && |live| == if world.room < |target| then world.room else |target|
      else live == file
  {
    hide Written, Lines, AnyStale;
  }

  /**
   * It is wholly old or wholly new exactly when the write does not commit, or everything
   * found room, or what did find room happens to be the old file.
   */
  lemma LiveFileIsWholeExactlyWhen(file: string, value: string, world: World)
    ensures
      var live, target := LiveAfter(file, value, world), Written(file, value);
      (live == file || live == target) <==>
      || !(world.canCreate && world.canRename && AnyStale(Lines(file), value))
      || |target| <= world.room
      || (world.room == |file| && file <= target)
  {
    hide Written, Lines, AnyStale;
  }

  /** With no room at all the write replaces a file with a stale line by an empty one. */
  lemma FullDiskEmptiesFile(file: string, value: string, world: World)
    requires file == Print("public") + "\n" && value == "private"
    requires world.canCreate && world.canRename && world.room == 0
    ensures LiveAfter(file, value, world) == ""
    ensures LiveAfter(file, value, world) != file && LiveAfter(file, value, world) != Written(file, value)
  {
    hide CommunityName, Lines, Print, RoundTrips;
    PlainValuesRoundTrip("public");
    OneStaleLine(file, "public", value);
    WrittenLines(file, value);
    NoLines("");
  }
}
