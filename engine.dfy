/** The output engine of `main`: prepare the save-to file (make its directory,
    truncate it), then pass every chunk the command produces to stdout and,
    while the file sink is still enabled, append it to the file. Any failed
    file operation disables the sink for good. The file system is an oracle:
    each operation's outcome is a parameter. */
module Engine {
  import opened Wrappers

  /** What a command's generator yields: its chunks in order, and whether it
      then throws. */
  datatype Production = Production(chunks: seq<string>, throws: bool)

  /** A write to stdout: a chunk of the command's output, the newline after
      it, the saved-path notice, or the version line of the version command
      (its text comes from `package.json`, which is not modelled). */
  datatype Out = Chunk(text: string) | Newline | SavedNotice(path: string) | VersionLine

  /** `if (options.saveTo)`: set and non-empty. */
  predicate Enabled(saveTo: Option<string>) {
    saveTo.Some? && saveTo.value != ""
  }

  /** `saveTo` after the set-up: cleared when making a directory other than
      `.` fails, or when truncating the file fails. */
  function AfterPrepare(saveTo: Option<string>, dirname: string -> string, mkdirOk: bool, truncateOk: bool): (r: Option<string>)
    ensures r == saveTo || r == None
    ensures Enabled(saveTo) ==> (r == saveTo <==> (dirname(saveTo.value) == "." || mkdirOk) && truncateOk)
  {
    if !Enabled(saveTo) then saveTo
    else if dirname(saveTo.value) != "." && !mkdirOk then None
    else if !truncateOk then None
    else saveTo
  }

  /** How many of the first `n` appends succeed before the first failure. */
  function OkRun(appendOk: nat -> bool, n: nat): (r: nat)
    ensures r <= n
  {
    if n == 0 then 0
    else if OkRun(appendOk, n - 1) == n - 1 && appendOk(n - 1) then n
    else OkRun(appendOk, n - 1)
  }

  /** `saveTo` after `n` chunks: cleared once an append has failed. */
  function SaveToAfter(saveTo: Option<string>, appendOk: nat -> bool, n: nat): Option<string> {
    if Enabled(saveTo) && OkRun(appendOk, n) < n then None else saveTo
  }

  /** The file after the chunks `chunks`: the chunks before the first failed
      append are added to it, when the sink was enabled at the start. */
  function FileAfter(file: seq<string>, saveTo: Option<string>, chunks: seq<string>, appendOk: nat -> bool): seq<string> {
    if Enabled(saveTo) then file + chunks[..OkRun(appendOk, |chunks|)] else file
  }

  function Chunks(chunks: seq<string>): seq<Out> {
    seq(|chunks|, i requires 0 <= i < |chunks| => Chunk(chunks[i]))
  }

  /** What follows the chunks on stdout: nothing when the producer threw,
      otherwise a newline and, when the sink survived, the saved-path notice. */
  function Tail(p: Production, saveTo: Option<string>): seq<Out> {
    if p.throws then []
    else [Newline] + if Enabled(saveTo) then [SavedNotice(saveTo.value)] else []
  }

  /** One more chunk: the sink state after it follows from the state
      before it and the outcome of its append. */
  lemma SinkStep(file: seq<string>, saveTo: Option<string>, chunks: seq<string>,
                 appendOk: nat -> bool, i: nat)
    requires i < |chunks|
    ensures var s := SaveToAfter(saveTo, appendOk, i);
      SaveToAfter(saveTo, appendOk, i + 1) == if Enabled(s) && !appendOk(i) then None else s
    ensures var s := SaveToAfter(saveTo, appendOk, i);
      FileAfter(file, saveTo, chunks[..i + 1], appendOk) ==
        if Enabled(s) && appendOk(i) then FileAfter(file, saveTo, chunks[..i], appendOk) + [chunks[i]]
        else FileAfter(file, saveTo, chunks[..i], appendOk)
  {
    assert chunks[..i + 1] == chunks[..i] + [chunks[i]];
    assert chunks[..i + 1][..OkRun(appendOk, i)] == chunks[..i][..OkRun(appendOk, i)];
  }

  lemma ChunksStep(chunks: seq<string>, i: nat)
    requires i < |chunks|
    ensures Chunks(chunks[..i + 1]) == Chunks(chunks[..i]) + [Chunk(chunks[i])]
  {
  }

  class OutputSinks {
    var saveTo: Option<string>
    /** Everything written to stdout. */
    ghost var stdout: seq<Out>
    /** The save-to file, as the chunks appended to it. */
    ghost var file: seq<string>

    constructor (saveTo: Option<string>, ghost existing: seq<string>)
      ensures this.saveTo == saveTo && stdout == [] && file == existing
    {
      this.saveTo := saveTo;
      stdout := [];
      file := existing;
    }

    /** Make the directory (unless it is `.`) and truncate the file; a failure
        clears `saveTo`. */
    method PrepareSaveTo(dirname: string -> string, mkdirOk: bool, truncateOk: bool)
      modifies this
      ensures saveTo == AfterPrepare(old(saveTo), dirname, mkdirOk, truncateOk)
      ensures file == if Enabled(saveTo) then [] else old(file)
      ensures stdout == old(stdout)
    {
      if Enabled(saveTo) {
        var dir := dirname(saveTo.value);
        if dir != "." {
          if !mkdirOk {
            saveTo := None;
          }
        }
        if Enabled(saveTo) {
          if truncateOk {
            file := [];
          } else {
            saveTo := None;
          }
        }
      }
    }

    /** One chunk: to stdout, then appended to the file while the sink is
        enabled; a failed append clears `saveTo`. */
    method Write(chunk: string, appendOk: bool)
      modifies this
      ensures stdout == old(stdout) + [Chunk(chunk)]
      ensures saveTo == if Enabled(old(saveTo)) && !appendOk then None else old(saveTo)
      ensures file == if Enabled(old(saveTo)) && appendOk then old(file) + [chunk] else old(file)
    {
      stdout := stdout + [Chunk(chunk)];
      if Enabled(saveTo) {
        if appendOk {
          file := file + [chunk];
        } else {
          saveTo := None;
        }
      }
    }

    /** The streaming loop and what follows it; a throwing producer ends the
        run with status 1. `appendOk(i)` is the outcome of appending chunk
        `i`, consulted only while the sink is enabled. */
    method Stream(p: Production, appendOk: nat -> bool) returns (exitCode: int)
      modifies this
      ensures saveTo == SaveToAfter(old(saveTo), appendOk, |p.chunks|)
      ensures file == FileAfter(old(file), old(saveTo), p.chunks, appendOk)
      ensures stdout == old(stdout) + Chunks(p.chunks) + Tail(p, saveTo)
      ensures exitCode == if p.throws then 1 else 0
    {
      var i := 0;
      while i < |p.chunks|
        invariant 0 <= i <= |p.chunks|
        invariant saveTo == SaveToAfter(old(saveTo), appendOk, i)
        invariant file == FileAfter(old(file), old(saveTo), p.chunks[..i], appendOk)
        invariant stdout == old(stdout) + Chunks(p.chunks[..i])
      {
        Write(p.chunks[i], appendOk(i));
        SinkStep(old(file), old(saveTo), p.chunks, appendOk, i);
        ChunksStep(p.chunks, i);
        i := i + 1;
      }
      assert p.chunks[..i] == p.chunks;
      if p.throws {
        return 1;
      }
      stdout := stdout + [Newline];
      if Enabled(saveTo) {
        stdout := stdout + [SavedNotice(saveTo.value)];
      }
      return 0;
    }
  }

  // ---------------------------------------------------------------------
  // Properties of the sink

  /** OkRun counts the appends before the first failure: all of those
      succeeded, and the next one (if any) failed. */
  lemma {:induction false} OkRunIsFirstFailure(appendOk: nat -> bool, n: nat)
    ensures forall j | 0 <= j < OkRun(appendOk, n) :: appendOk(j)
    ensures OkRun(appendOk, n) < n ==> !appendOk(OkRun(appendOk, n))
  {
    if n > 0 {
      OkRunIsFirstFailure(appendOk, n - 1);
    }
  }

  /** Every append succeeds exactly when OkRun reaches n. */
  lemma {:induction false} OkRunAll(appendOk: nat -> bool, n: nat)
    ensures OkRun(appendOk, n) == n <==> forall j | 0 <= j < n :: appendOk(j)
  {
    OkRunIsFirstFailure(appendOk, n);
    if n > 0 && OkRun(appendOk, n) < n {
      assert !appendOk(OkRun(appendOk, n));
    }
  }

  /** A cleared sink stays cleared: neither the set-up nor the loop ever
      enables it, and an enabled result is the original path. */
  lemma NeverReenabled(saveTo: Option<string>, dirname: string -> string, mkdirOk: bool,
                       truncateOk: bool, appendOk: nat -> bool, n: nat)
    ensures var s := SaveToAfter(AfterPrepare(saveTo, dirname, mkdirOk, truncateOk), appendOk, n);
      Enabled(s) ==> Enabled(saveTo) && s == saveTo
  {
  }

  /** The saved file holds the chunks up to the first failed append, after
      the truncation; it holds them all exactly when every append succeeded. */
  lemma SavedFile(chunks: seq<string>, saveTo: Option<string>, appendOk: nat -> bool)
    requires Enabled(saveTo)
    ensures var f := FileAfter([], saveTo, chunks, appendOk);
      |f| <= |chunks| && f == chunks[..|f|]
      && (forall j | 0 <= j < |f| :: appendOk(j))
      && (|f| < |chunks| ==> !appendOk(|f|))
    ensures FileAfter([], saveTo, chunks, appendOk) == chunks <==>
      forall j | 0 <= j < |chunks| :: appendOk(j)
  {
    OkRunIsFirstFailure(appendOk, |chunks|);
    OkRunAll(appendOk, |chunks|);
    assert [] + chunks[..OkRun(appendOk, |chunks|)] == chunks[..OkRun(appendOk, |chunks|)];
  }

  /** The saved path is reported exactly when the producer did not throw, the
      set-up succeeded and every append succeeded. */
  lemma ReportedExactly(p: Production, saveTo: Option<string>, dirname: string -> string,
                        mkdirOk: bool, truncateOk: bool, appendOk: nat -> bool)
    ensures var s := SaveToAfter(AfterPrepare(saveTo, dirname, mkdirOk, truncateOk), appendOk, |p.chunks|);
      (exists path :: SavedNotice(path) in Tail(p, s)) <==>
        !p.throws && Enabled(saveTo)
        && (dirname(saveTo.value) == "." || mkdirOk) && truncateOk
        && forall j | 0 <= j < |p.chunks| :: appendOk(j)
  {
    var prepared := AfterPrepare(saveTo, dirname, mkdirOk, truncateOk);
    var s := SaveToAfter(prepared, appendOk, |p.chunks|);
    OkRunAll(appendOk, |p.chunks|);
    if !p.throws && Enabled(s) {
      assert SavedNotice(s.value) in Tail(p, s);
    }
  }
}
