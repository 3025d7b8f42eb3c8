/** `main` end to end: the version short-cut, the parse loop, the dispatch
    checks, the save-to set-up and the streaming loop, with the exit status
    of the process as the result. Reading `package.json`, the file system
    and the command's generator are oracles passed in. */
module Cli {
  import opened Wrappers
  import opened OptionTable
  import opened ArgParser
  import opened Dispatch
  import opened Engine
  import opened RepoCommand

  /** `options.saveTo` as the engine reads it. */
  function SaveToOption(options: Options): Option<string> {
    if SaveTo in options && options[SaveTo].Str? then Some(options[SaveTo].s) else None
  }

  /** The options object the command sees: the set-up's clearing of `saveTo`
      is visible to it. */
  function PassedOptions(options: Options, prepared: Option<string>): Options {
    if prepared.None? then options - {SaveTo} else options
  }

  /** The exit status of a whole run. */
  function CliExit(argv: seq<string>, versionReadable: bool, dirname: string -> string,
                   mkdirOk: bool, truncateOk: bool,
                   produce: (string, string, Options) -> Production): (r: int)
    ensures r == 0 || r == 1
  {
    var d := Decide(argv, versionReadable);
    if d.Run? then
      var prepared := AfterPrepare(SaveToOption(d.options), dirname, mkdirOk, truncateOk);
      if produce(d.command, d.query, PassedOptions(d.options, prepared)).throws then 1 else 0
    else ExitStatus(d)
  }

  /** The `try` block of `main` for a command that passed the checks: set up
      the save-to file, then stream the command's output. Returns the exit
      status, and what reached stdout and the save-to file. */
  method Execute(command: string, query: string, options: Options,
                 dirname: string -> string, mkdirOk: bool, truncateOk: bool,
                 produce: (string, string, Options) -> Production,
                 appendOk: nat -> bool, ghost existing: seq<string>)
    returns (exitCode: int, ghost out: seq<Out>, ghost saved: seq<string>)
    ensures var prepared := AfterPrepare(SaveToOption(options), dirname, mkdirOk, truncateOk);
      var p := produce(command, query, PassedOptions(options, prepared));
      exitCode == (if p.throws then 1 else 0)
      && out == Chunks(p.chunks) + Tail(p, SaveToAfter(prepared, appendOk, |p.chunks|))
      && saved == FileAfter(if Enabled(prepared) then [] else existing, prepared, p.chunks, appendOk)
  {
    var sinks := new OutputSinks(SaveToOption(options), existing);
    sinks.PrepareSaveTo(dirname, mkdirOk, truncateOk);
    var passed := if sinks.saveTo.None? then options - {SaveTo} else options;
    exitCode := sinks.Stream(produce(command, query, passed), appendOk);
    out, saved := sinks.stdout, sinks.file;
  }

  /** `main`, step by step: the exit status, what reached stdout (error
      messages go to stderr and are not modelled) and the save-to file, whose
      contents before the run are `existing`. A run that stops before the
      command leaves the file alone. */
  method RunCli(argv: seq<string>, versionReadable: bool, dirname: string -> string,
                mkdirOk: bool, truncateOk: bool,
                produce: (string, string, Options) -> Production,
                appendOk: nat -> bool, ghost existing: seq<string>)
    returns (exitCode: int, ghost out: seq<Out>, ghost saved: seq<string>)
    ensures exitCode == CliExit(argv, versionReadable, dirname, mkdirOk, truncateOk, produce)
    ensures var d := Decide(argv, versionReadable);
      if d.Run? then
        var prepared := AfterPrepare(SaveToOption(d.options), dirname, mkdirOk, truncateOk);
        var p := produce(d.command, d.query, PassedOptions(d.options, prepared));
        out == Chunks(p.chunks) + Tail(p, SaveToAfter(prepared, appendOk, |p.chunks|))
        && saved == FileAfter(if Enabled(prepared) then [] else existing, prepared, p.chunks, appendOk)
      else
        out == (if d.ShowVersion? then [VersionLine] else []) && saved == existing
  {
    out, saved := [], existing;
    if |argv| > 2 && IsVersionCommand(argv[2]) {
      if versionReadable {
        return 0, [VersionLine], existing;
      }
      return 1, [], existing;
    }
    var parsed := ParseArgs(ArgsOf(argv));
    if parsed.Failure? {
      return 1, [], existing;
    }
    var options := parsed.value.options;
    var queryArgs := parsed.value.queryArgs;
    var command := if |argv| > 2 then argv[2] else "";
    var query := if command == "install" && |queryArgs| == 0 then "." else Join(queryArgs);
    if command == "" {
      return 1, [], existing;
    }
    if query == "" && command != "doc" {
      return 1, [], existing;
    }
    if command !in Commands {
      return 1, [], existing;
    }
    exitCode, out, saved := Execute(command, query, options, dirname, mkdirOk, truncateOk,
                                    produce, appendOk, existing);
  }

  /** The process succeeds exactly when it shows the version, or runs a
      command whose generator does not throw. */
  lemma ExitZeroExactly(argv: seq<string>, versionReadable: bool, dirname: string -> string,
                        mkdirOk: bool, truncateOk: bool,
                        produce: (string, string, Options) -> Production)
    ensures var d := Decide(argv, versionReadable);
      CliExit(argv, versionReadable, dirname, mkdirOk, truncateOk, produce) == 0 <==>
        d.ShowVersion?
        || (d.Run? && !produce(d.command, d.query,
              PassedOptions(d.options, AfterPrepare(SaveToOption(d.options), dirname, mkdirOk, truncateOk))).throws)
    ensures CliExit(argv, versionReadable, dirname, mkdirOk, truncateOk, produce) in {0, 1}
  {
  }

  /** A `repo` run that gets past the checks exits with status 0, whatever
      fails inside the command. */
  lemma RepoRunExitsZero(argv: seq<string>, versionReadable: bool, dirname: string -> string,
                         mkdirOk: bool, truncateOk: bool, configModel: string, run: RepoRun)
    requires |argv| > 2 && argv[2] == "repo" && Parse(ArgsOf(argv)).Success?
    requires Parse(ArgsOf(argv)).value.queryArgs != [] && Parse(ArgsOf(argv)).value.queryArgs != [""]
    ensures CliExit(argv, versionReadable, dirname, mkdirOk, truncateOk,
                    (c, q, o) => RepoExecute(o, configModel, run)) == 0
  {
    RunExactly(argv, versionReadable);
    JoinEmpty(Parse(ArgsOf(argv)).value.queryArgs);
  }
}
