/** The dispatch decisions of `main`: the version short-cut, then the option
    parse, then the missing-command check, the empty-query check (which `doc`
    is spared) and the unknown-command check, in that order. */
module Dispatch {
  import opened Wrappers
  import opened ArgParser

  /** The names of the command registry. */
  const Commands: set<string> := {"web", "repo", "install", "doc", "github", "browser"}

  predicate IsVersionCommand(command: string) {
    command == "version" || command == "-v" || command == "--version"
  }

  // ---------------------------------------------------------------------
  // Joining the query

  /** `tokens.join(' ')`. */
  function Join(tokens: seq<string>): string
    decreases |tokens|
  {
    if tokens == [] then ""
    else if |tokens| == 1 then tokens[0]
    else tokens[0] + " " + Join(tokens[1..])
  }

  /** `s.split(' ')`: the pieces between single spaces; the empty string is
      one empty piece. */
  function Split(s: string): (r: seq<string>)
    ensures |r| >= 1
    decreases |s|
  {
    if s == [] then [""]
    else if s[0] == ' ' then [""] + Split(s[1..])
    else
      var rest := Split(s[1..]);
      [[s[0]] + rest[0]] + rest[1..]
  }

  lemma JoinCons(x: string, rest: seq<string>)
    requires rest != []
    ensures Join([x] + rest) == x + " " + Join(rest)
  {
    assert ([x] + rest)[1..] == rest;
  }

  /** Joining the pieces of a split gives the string back. */
  lemma {:induction false} JoinSplit(s: string)
    ensures Join(Split(s)) == s
    decreases |s|
  {
    if s != [] {
      var rest := Split(s[1..]);
      JoinSplit(s[1..]);
      if s[0] == ' ' {
        JoinCons("", rest);
        assert s == " " + s[1..];
      } else {
        var head := [s[0]] + rest[0];
        if |rest| == 1 {
          assert Split(s) == [head];
          assert s == [s[0]] + s[1..];
        } else {
          JoinCons(head, rest[1..]);
          JoinCons(rest[0], rest[1..]);
          assert [rest[0]] + rest[1..] == rest;
          assert s == [s[0]] + s[1..];
        }
      }
    }
  }

  lemma {:induction false} SplitWord(w: string)
    requires ' ' !in w
    ensures Split(w) == [w]
    decreases |w|
  {
    if w != [] {
      SplitWord(w[1..]);
      assert w == [w[0]] + w[1..];
    }
  }

  lemma {:induction false} SplitAfterWord(w: string, s: string)
    requires ' ' !in w
    ensures Split(w + " " + s) == [w] + Split(s)
    decreases |w|
  {
    if w == [] {
      assert w + " " + s == [' '] + s;
      assert ([' '] + s)[1..] == s;
    } else {
      var t := w + " " + s;
      assert t[1..] == w[1..] + " " + s;
      SplitAfterWord(w[1..], s);
      assert w == [w[0]] + w[1..];
    }
  }

  /** Splitting a join gives the tokens back when no token holds a space. */
  lemma {:induction false} SplitJoin(tokens: seq<string>)
    requires tokens != []
    requires forall i | 0 <= i < |tokens| :: ' ' !in tokens[i]
    ensures Split(Join(tokens)) == tokens
    decreases |tokens|
  {
    if |tokens| == 1 {
      SplitWord(tokens[0]);
    } else {
      SplitJoin(tokens[1..]);
      SplitAfterWord(tokens[0], Join(tokens[1..]));
      assert [tokens[0]] + tokens[1..] == tokens;
    }
  }

  /** The join is empty exactly when there is no token, or a single empty
      one: any two tokens are separated by a space. */
  lemma JoinEmpty(tokens: seq<string>)
    ensures Join(tokens) == "" <==> tokens == [] || tokens == [""]
  {
    if |tokens| >= 2 {
      assert Join(tokens)[|tokens[0]|] == ' ';
    } else if |tokens| == 1 {
      assert tokens == [tokens[0]];
    }
  }

  /** The query handed to the command: the query tokens joined by spaces, or
      `.` for `install` when there are none. */
  function BuildQuery(command: string, queryArgs: seq<string>): string {
    if command == "install" && |queryArgs| == 0 then "." else Join(queryArgs)
  }

  // ---------------------------------------------------------------------
  // The decision

  datatype Decision =
    | ShowVersion
    | VersionUnreadable
    | BadFlag(error: FlagError)
    | MissingCommand
    | MissingQuery(command: string)
    | UnknownCommand(command: string)
    | Run(command: string, query: string, options: Options)

  /** `process.argv` is the runtime, the script, the command and then the
      arguments; an absent command is `undefined`. */
  function CommandOf(argv: seq<string>): Option<string> {
    if |argv| > 2 then Some(argv[2]) else None
  }

  function ArgsOf(argv: seq<string>): seq<string> {
    if |argv| > 3 then argv[3..] else []
  }

  /** What `main` decides before any command runs. `versionReadable` is
      whether `package.json` could be read and parsed. A missing command and
      an empty one are both falsy. */
  function Decide(argv: seq<string>, versionReadable: bool): Decision {
    var command := CommandOf(argv);
    if command.Some? && IsVersionCommand(command.value) then
      if versionReadable then ShowVersion else VersionUnreadable
    else match Parse(ArgsOf(argv))
      case Failure(e) => BadFlag(e)
      case Success(p) =>
        var name := if command.Some? then command.value else "";
        var query := BuildQuery(name, p.queryArgs);
        if name == "" then MissingCommand
        else if query == "" && name != "doc" then MissingQuery(name)
        else if name !in Commands then UnknownCommand(name)
        else Run(name, query, p.options)
  }

  /** The exit status of every decision but Run, which the output engine
      settles. */
  function ExitStatus(d: Decision): int
    requires !d.Run?
  {
    if d.ShowVersion? then 0 else 1
  }

  // ---------------------------------------------------------------------
  // Properties of the decision

  /** A command runs exactly when it is a registered name other than a
      version spelling, the arguments parse, and the query is non-empty or the
      command is `doc`; it then gets the parsed options and the built query. */
  lemma RunExactly(argv: seq<string>, versionReadable: bool)
    ensures Decide(argv, versionReadable).Run? <==>
      |argv| > 2 && argv[2] in Commands && Parse(ArgsOf(argv)).Success?
      && (BuildQuery(argv[2], Parse(ArgsOf(argv)).value.queryArgs) != "" || argv[2] == "doc")
    ensures Decide(argv, versionReadable).Run? ==>
      var d := Decide(argv, versionReadable);
      d.command == argv[2]
      && d.query == BuildQuery(argv[2], Parse(ArgsOf(argv)).value.queryArgs)
      && d.options == Parse(ArgsOf(argv)).value.options
  {
    if |argv| > 2 && argv[2] in Commands {
      assert !IsVersionCommand(argv[2]);
    }
  }

  /** The version spellings are answered before the arguments are looked at,
      so even bad flags after them are ignored. */
  lemma VersionBeforeParse(argv: seq<string>, versionReadable: bool)
    requires |argv| > 2 && IsVersionCommand(argv[2])
    ensures Decide(argv, versionReadable) == if versionReadable then ShowVersion else VersionUnreadable
  {
  }

  /** A bad flag is reported even when the command is empty or unknown. */
  lemma ParseErrorBeforeCommandChecks(argv: seq<string>, versionReadable: bool)
    requires |argv| > 2 && !IsVersionCommand(argv[2])
    requires Parse(ArgsOf(argv)).Failure?
    ensures Decide(argv, versionReadable) == BadFlag(Parse(ArgsOf(argv)).error)
  {
  }

  /** With nothing after the script name, or an empty command, there is no
      command (`!command` holds of both); for an empty command this is
      reported once the flags after it have parsed. */
  lemma NoCommand(argv: seq<string>, versionReadable: bool)
    requires |argv| <= 2 || (argv[2] == "" && Parse(ArgsOf(argv)).Success?)
    ensures Decide(argv, versionReadable) == MissingCommand
  {
    if |argv| <= 2 {
      assert ArgsOf(argv) == [];
      PlainTokensAreQuery([]);
    }
  }

  /** An unknown command with no query is reported as missing its query, not
      as unknown: the query check comes first. */
  lemma EmptyQueryBeforeUnknownCommand(argv: seq<string>, versionReadable: bool)
    requires |argv| == 3 && argv[2] !in Commands && argv[2] != ""
    requires !IsVersionCommand(argv[2])
    ensures Decide(argv, versionReadable) == MissingQuery(argv[2])
  {
    assert ArgsOf(argv) == [];
    PlainTokensAreQuery([]);
  }

  /** `doc` runs with an empty query; `install` with none gets `.`. */
  lemma DocAndInstallWithoutQuery(argv: seq<string>, versionReadable: bool)
    requires |argv| == 3 && (argv[2] == "doc" || argv[2] == "install")
    ensures Decide(argv, versionReadable) ==
      Run(argv[2], if argv[2] == "install" then "." else "", map[])
  {
    assert ArgsOf(argv) == [];
    PlainTokensAreQuery([]);
  }

  /** Any other command needs a non-empty query. */
  lemma EmptyQueryFails(argv: seq<string>, versionReadable: bool)
    requires |argv| > 2 && argv[2] != "" && argv[2] != "doc" && !IsVersionCommand(argv[2])
    requires Parse(ArgsOf(argv)).Success?
    requires BuildQuery(argv[2], Parse(ArgsOf(argv)).value.queryArgs) == ""
    ensures Decide(argv, versionReadable) == MissingQuery(argv[2])
  {
  }

  /** `install` fails for want of a query only when its one query token is
      the empty string. */
  lemma InstallQueryEmpty(queryArgs: seq<string>)
    ensures BuildQuery("install", queryArgs) == "" <==> queryArgs == [""]
  {
    JoinEmpty(queryArgs);
  }
}
