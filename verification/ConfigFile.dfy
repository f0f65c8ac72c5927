/** snmpd.conf as a byte string: reading its lines, rewriting them, and committing the result. */
module ConfigFile {
  import opened Wrappers
  import opened Community

  // Lines

  /** Where the first line ends: at a newline or at the end of the text. */
  function LineEnd(s: string): (n: nat)
    ensures n <= |s| && (n < |s| ==> s[n] == '\n') && forall i :: 0 <= i < n ==> s[i] != '\n'
  {
    if s == "" || s[0] == '\n' then 0 else 1 + LineEnd(s[1..])
  }

  function Remainder(s: string): string {
    if LineEnd(s) < |s| then s[LineEnd(s) + 1..] else ""
  }

  /** What repeated `std::getline` yields; a last line needs no newline. */
  function Lines(s: string): seq<string>
    decreases |s|
  {
    if s == "" then [] else [s[..LineEnd(s)]] + Lines(Remainder(s))
  }

  /** What repeated `<< line << std::endl` writes. */
  function Join(lines: seq<string>): string {
    if lines == [] then "" else lines[0] + "\n" + Join(lines[1..])
  }

  predicate NewlineFree(s: string) {
    '\n' !in s
  }

  ghost predicate AllNewlineFree(lines: seq<string>) {
    forall k :: 0 <= k < |lines| ==> NewlineFree(lines[k])
  }

  lemma {:induction false} LineEndIs(s: string, n: nat)
    requires n <= |s| && (n < |s| ==> s[n] == '\n') && forall i :: 0 <= i < n ==> s[i] != '\n'
    ensures LineEnd(s) == n
    decreases n
  {
    if n > 0 {
      LineEndIs(s[1..], n - 1);
    }
  }

  lemma {:induction false} LinesAreNewlineFree(s: string)
    ensures AllNewlineFree(Lines(s))
    decreases |s|
  {
    if s != "" {
      LinesAreNewlineFree(Remainder(s));
    }
  }

  lemma {:induction false} JoinAppend(a: seq<string>, b: seq<string>)
    ensures Join(a + b) == Join(a) + Join(b)
    decreases |a|
  {
    if a == [] {
      assert a + b == b;
    } else {
      assert (a + b)[1..] == a[1..] + b;
      JoinAppend(a[1..], b);
    }
  }

  /** A written line is read back as its own lines, and then the rest follows. */
  lemma {:induction false} LinesAppend(line: string, rest: string)
    ensures Lines(line + "\n" + rest) == Lines(line + "\n") + Lines(rest)
    decreases |line|
  {
    hide Lines, LineEnd;
    var s, t := line + "\n" + rest, line + "\n";
    var n := LineEnd(line);
    LineEndIs(t, n);
    LineEndIs(s, n);
    FirstLine(s);
    FirstLine(t);
    assert s[..n] == t[..n];
    if n == |line| {
      assert Remainder(t) == "" && Remainder(s) == rest;
      NoLines("");
      assert [t[..n]] + [] == [t[..n]];
    } else {
      var tail := line[n + 1..];
      assert Remainder(t) == tail + "\n";
      assert Remainder(s) == tail + "\n" + rest;
      LinesAppend(tail, rest);
      assert [t[..n]] + (Lines(tail + "\n") + Lines(rest)) == ([t[..n]] + Lines(tail + "\n")) + Lines(rest);
    }
  }

  lemma FirstLine(s: string)
    requires s != ""
    ensures Lines(s) == [s[..LineEnd(s)]] + Lines(Remainder(s))
  {
  }

  lemma NoLines(s: string)
    requires s == ""
    ensures Lines(s) == []
  {
  }

  lemma LineAlone(line: string)
    requires NewlineFree(line)
    ensures Lines(line + "\n") == [line]
  {
    LineEndIs(line + "\n", |line|);
    assert (line + "\n")[..|line|] == line;
    assert Remainder(line + "\n") == "";
  }

  /** Splitting what was written gives the lines back. */
  lemma {:induction false} LinesOfJoin(lines: seq<string>)
    requires AllNewlineFree(lines)
    ensures Lines(Join(lines)) == lines
    decreases |lines|
  {
    if lines != [] {
      assert NewlineFree(lines[0]);
      LineAlone(lines[0]);
      LinesAppend(lines[0], Join(lines[1..]));
      LinesOfJoin(lines[1..]);
    }
  }

  // The rewrite

  /** A community line with another value. */
  predicate Stale(line: string, value: string) {
    CommunityName(line).Some? && CommunityName(line) != Some(value)
  }

  function Rewrite(line: string, value: string): string {
    if Stale(line, value) then Print(value) else line
  }

  function RewriteAll(lines: seq<string>, value: string): (r: seq<string>)
    ensures |r| == |lines|
  {
    seq(|lines|, k requires 0 <= k < |lines| => Rewrite(lines[k], value))
  }

  ghost predicate AnyStale(lines: seq<string>, value: string) {
    exists k :: 0 <= k < |lines| && Stale(lines[k], value)
  }

  ghost predicate AnyCommunity(lines: seq<string>) {
    exists k :: 0 <= k < |lines| && CommunityName(lines[k]).Some?
  }

  /** The file after a `writeConfig` that meets no I/O error. */
  ghost function Written(file: string, value: string): string {
    if AnyStale(Lines(file), value) then Join(RewriteAll(Lines(file), value)) else file
  }

  /** The first community value in the file. */
  function FirstCommunity(lines: seq<string>): Option<string> {
    if lines == [] then None
    else if CommunityName(lines[0]).Some? then CommunityName(lines[0])
    else FirstCommunity(lines[1..])
  }

  // The program

  class InputFile {
    var rest: string

    constructor (contents: string)
      ensures rest == contents
    {
      rest := contents;
    }

    /** `std::getline`: fails only when nothing is left. */
    method GetLine() returns (ok: bool, line: string)
      modifies this
      ensures ok <==> old(rest) != ""
      ensures !ok ==> rest == old(rest)
      ensures ok ==> Lines(old(rest)) == [line] + Lines(rest) && |rest| < |old(rest)|
    {
      if rest == "" {
        return false, "";
      }
      var n := 0;
      while n < |rest| && rest[n] != '\n'
        invariant n <= |rest| && forall i :: 0 <= i < n ==> rest[i] != '\n'
      {
        n := n + 1;
      }
      LineEndIs(rest, n);
      line := rest[..n];
      rest := if n < |rest| then rest[n + 1..] else "";
      return true, line;
    }
  }

  /**
   * Which operations on the outside world succeed, and for how many bytes the temporary
   * file has room: a failed write leaves the stream silent for good.
   */
  datatype World = World(canCreate: bool, canRename: bool, canRemove: bool, canReload: bool, room: nat)

  /** The part of a text that finds room. */
  function Cut(s: string, room: nat): string {
    if |s| <= room then s else s[..room]
  }

  lemma CutTwice(a: string, b: string, room: nat)
    ensures Cut(Cut(a, room) + b, room) == Cut(a + b, room)
  {
  }

  datatype Outcome = Done | InvalidArgument | InternalFailure

  class Configurator {
    /** The live file, if it can be opened, and the temporary one, if it exists. */
    var conf: Option<string>
    var tmp: Option<string>
    var community: string
    /** How often the daemon was asked to reload. */
    var reloads: nat

    constructor (conf: Option<string>, tmp: Option<string>)
      ensures this.conf == conf && this.tmp == tmp && reloads == 0
      ensures community == (if conf.Some? then FirstCommunity(Lines(conf.value)).GetOr("") else "")
    {
      this.conf, this.tmp := conf, tmp;
      community, reloads := "", 0;
      new;
      ReadConfig();
    }

    method ReadConfig()
      modifies this`community
      ensures community ==
              if conf.Some? then FirstCommunity(Lines(conf.value)).GetOr(old(community)) else old(community)
    {
      if conf.None? {
        return;
      }
      var fileToRead := new InputFile(conf.value);
      var ok, line := fileToRead.GetLine();
      while ok
        invariant fresh(fileToRead) && community == old(community)
        invariant FirstCommunity(Lines(conf.value))
               == FirstCommunity(if ok then [line] + Lines(fileToRead.rest) else [])
        decreases ok, |fileToRead.rest|
      {
        var name := GetCommunityName(line);
        if name.Some? {
          community := name.value;
          return;
        }
        assert ([line] + Lines(fileToRead.rest))[1..] == Lines(fileToRead.rest);
        ok, line := fileToRead.GetLine();
      }
    }

    /**
     * The loop of `writeConfig`: everything goes to the temporary file, and the live
     * one is not touched.
     */
    method CopyLines(room: nat) returns (updated: bool)
      requires conf.Some?
      modifies this`tmp
      ensures tmp == Some(Cut(Join(RewriteAll(Lines(conf.value), community)), room))
      ensures updated <==> AnyStale(Lines(conf.value), community)
    {
      var value := community;
      var fileToRead := new InputFile(conf.value);
      tmp := Some("");
      updated := false;
      ghost var lines := Lines(conf.value);
      ghost var k := 0;
      var ok, line := fileToRead.GetLine();
      while ok
        invariant fresh(fileToRead) && tmp.Some?
        invariant 0 <= k <= |lines|
        invariant if ok then k < |lines| && lines[k..] == [line] + Lines(fileToRead.rest) else k == |lines|
        invariant tmp.value == Cut(Join(RewriteAll(lines[..k], value)), room)
        invariant updated <==> AnyStale(lines[..k], value)
        decreases ok, |fileToRead.rest|
      {
        var name := GetCommunityName(line);
        RewriteNext(lines, k, value);
        CutTwice(Join(RewriteAll(lines[..k], value)), Rewrite(lines[k], value) + "\n", room);
        assert line == lines[k..][0] == lines[k];
        assert lines[k + 1..] == lines[k..][1..] == Lines(fileToRead.rest);
        if name.Some? && name.value != value {
          Put(Print(value) + "\n", room);
          updated := true;
        } else {
          Put(line + "\n", room);
        }
        k := k + 1;
        ok, line := fileToRead.GetLine();
      }
      assert lines[..k] == lines;
    }

    /** `fileToWrite << text`: what finds no room is lost, and nobody looks. */
    method Put(text: string, room: nat)
      requires tmp.Some?
      modifies this`tmp
      ensures tmp == Some(Cut(old(tmp).value + text, room))
    {
      tmp := Some(Cut(tmp.value + text, room));
    }

    method WriteConfig(world: World) returns (outcome: Outcome)
      modifies this`conf, this`tmp, this`reloads
      ensures conf == (if Commits(old(conf), community, world)
                       then Some(Cut(Written(old(conf).value, community), world.room)) else old(conf))
      ensures reloads == old(reloads) + (if Commits(old(conf), community, world) then 1 else 0)
      ensures outcome == (if old(conf).None? || !world.canCreate then Done
                          else if !AnyStale(Lines(old(conf).value), community) then Done
                          else if world.canRename && world.canReload then Done else InternalFailure)
      ensures tmp == if !world.canCreate then old(tmp)
                     else if old(conf).None? then Some("")
                     else if AnyStale(Lines(old(conf).value), community) then
                       (if world.canRename then None
                        else Some(Cut(Written(old(conf).value, community), world.room)))
                     else if world.canRemove then None
                     else Some(Cut(Join(Lines(old(conf).value)), world.room))
    {
      // The output stream is opened, and its file truncated, before either stream is checked.
      if world.canCreate {
        tmp := Some("");
      }
      if conf.None? || !world.canCreate {
        return Done;
      }
      var updated := CopyLines(world.room);
      NothingStale(Lines(conf.value), community);
      if updated {
        if !world.canRename {
          return InternalFailure;
        }
        conf, tmp := tmp, None;
        reloads := reloads + 1;
        if !world.canReload {
          return InternalFailure;
        }
      } else if world.canRemove {
        tmp := None;
      }
      return Done;
    }

    /** The setter of the D-Bus property. */
    method Community(value: string, world: World) returns (outcome: Outcome)
      modifies this
      ensures (outcome == InvalidArgument) <==> !(1 <= |value| <= 256)
      ensures outcome == InvalidArgument ==>
                conf == old(conf) && tmp == old(tmp) && community == old(community) && reloads == old(reloads)
      ensures outcome != InvalidArgument ==>
                && community == value
                && conf == (if Commits(old(conf), value, world)
                            then Some(Cut(Written(old(conf).value, value), world.room)) else old(conf))
                && reloads == old(reloads) + (if Commits(old(conf), value, world) then 1 else 0)
                && tmp == (if !world.canCreate then old(tmp)
                           else if old(conf).None? then Some("")
                           else if AnyStale(Lines(old(conf).value), value) then
                             (if world.canRename then None else Some(Cut(Written(old(conf).value, value), world.room)))
                           else if world.canRemove then None
                           else Some(Cut(Join(Lines(old(conf).value)), world.room)))
                && (outcome == InternalFailure <==>
                     && old(conf).Some? && world.canCreate && AnyStale(Lines(old(conf).value), value)
                     && !(world.canRename && world.canReload))
    {
      if |value| < 1 || |value| > 256 {
        return InvalidArgument;
      }
      community := value;
      outcome := WriteConfig(world);
    }
  }

  /** The write gets as far as replacing the live file. */
  ghost predicate Commits(conf: Option<string>, value: string, world: World) {
    conf.Some? && world.canCreate && world.canRename && AnyStale(Lines(conf.value), value)
  }

  lemma NothingStale(lines: seq<string>, value: string)
    ensures !AnyStale(lines, value) ==> RewriteAll(lines, value) == lines
  {
  }

  lemma RewriteNext(lines: seq<string>, k: nat, value: string)
    requires k < |lines|
    ensures Join(RewriteAll(lines[..k + 1], value))
         == Join(RewriteAll(lines[..k], value)) + (Rewrite(lines[k], value) + "\n")
    ensures AnyStale(lines[..k + 1], value) <==> AnyStale(lines[..k], value) || Stale(lines[k], value)
  {
    assert lines[..k + 1] == lines[..k] + [lines[k]];
    var last := Rewrite(lines[k], value);
    assert RewriteAll(lines[..k + 1], value) == RewriteAll(lines[..k], value) + [last];
    JoinAppend(RewriteAll(lines[..k], value), [last]);
    assert Join([last]) == last + "\n" + "";
    if Stale(lines[k], value) {
      assert Stale(lines[..k + 1][k], value);
    }
    if AnyStale(lines[..k], value) {
      var j :| 0 <= j < k && Stale(lines[..k][j], value);
      assert Stale(lines[..k + 1][j], value);
    }
  }
}
