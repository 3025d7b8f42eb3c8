# cursor-tools front end, modelled in Dafny

This project models the command-line front end of `cursor-tools`
(`src/index.ts`). It covers three parts of `main`:

- **Flags and options.** `normalizeArgKey` and `toKebabCase`, the
  `OPTION_KEYS` table with its boolean and numeric kinds, JavaScript's
  `parseInt(value, 10)`, and the left-to-right loop over the arguments. The
  loop fills the options record and collects the query tokens.
- **Dispatch.** The checks run in this order: the version short-cut, then the
  option parse, then the missing command, then the empty query (`doc` is
  exempt), then the unknown command.
- **Output engine.** The save-to set-up and the streaming loop. Every chunk
  the command yields goes to stdout. Each chunk is also appended to the
  save-to file while that sink is still enabled. Any failed file operation
  disables the sink for good.

Modules, one per file:

| file | module | what it holds |
|---|---|---|
| `wrappers.dfy` | `Wrappers` | `Option`, `Result` |
| `arg_keys.dfy` | `ArgKeys` | `normalizeArgKey`, `toKebabCase` (ASCII case mapping) |
| `option_table.dfy` | `OptionTable` | the 21 keys, `OPTION_KEYS`, `BOOLEAN_OPTIONS`, `NUMERIC_OPTIONS`, key resolution |
| `number_parsing.dfy` | `NumberParsing` | `parseInt(s, 10)`, with NaN as `None` |
| `arg_parser.dfy` | `ArgParser` | the parse loop |
| `dispatch.dfy` | `Dispatch` | the command registry names, the query join and the dispatch decision |
| `engine.dfy` | `Engine` | the class `OutputSinks` (`saveTo` plus ghost stdout and file) and the streaming loop |
| `repo_command.dfy` | `RepoCommand` | the `repo` command's generator, with its stages as oracles |
| `cli.dfy` | `Cli` | `main` end to end: the exit status, what reaches stdout, and the save-to file |

The parse loop has two layers:

- `ArgParser.StepAt` states what one iteration does with the token at `i`.
  The result is an item (a query token, or an assignment of a key) together
  with the next index, or a `FlagError`.
- `ArgParser.Scan` chains the iterations, and `ArgParser.Parse` folds the
  items into the options map and the query list.

The imperative loop `ArgParser.ParseArgs`, with the flag body
`ArgParser.ReadFlag`, is proved equal to `Parse`.

The engine is modelled the same way. `Engine.OutputSinks.Stream` is proved
against the functions `OkRun`, `SaveToAfter` and `FileAfter`, and the
properties are lemmas about those functions. `Cli.RunCli` is proved against
`Cli.CliExit`, which combines the decision (`Dispatch.Decide`) with the
engine's outcome. Its contract also gives what reaches stdout and the
save-to file.

Oracles stand in for the parts of `main` that touch the outside world:

- whether `package.json` could be read;
- `dirname`;
- the outcomes of `mkdirSync`, `writeFileSync` and each `appendFileSync`;
- the command's generator, modelled as its chunks plus whether it throws.

Some behaviours of the code are easy to misread:

- The command is `process.argv[2]`, taken literally. The usage message at
  `src/index.ts:221` shows flags before `<command>`, but the code does not
  look for the first token that is not a flag. So
  `cursor-tools --model x repo q` has the command `--model`.
- The empty-query check runs before the unknown-command check. So
  `cursor-tools foo` is reported as missing its query, not as an unknown
  command (`Dispatch.EmptyQueryBeforeUnknownCommand`).
- The query omits the tokens consumed as option values
  (`ArgParser.ParsedQueryInOrder`).
- The comment at `src/index.ts:136-142` describes `--console false` as
  disabling the option. The loop does something else: it sets `console` to
  true and leaves `false` in the query (`ArgParser.ConsoleFalse`).

The constants of the front end are Dafny constants, each used by the
members below:

- `OptionTable.OptionKeys` is `OPTION_KEYS` (`src/index.ts:45-68`), the
  21 normalized spellings with their keys.
- `OptionTable.AllKeys` lists the keys in the insertion order of
  `OPTION_KEYS`, which is the order of the unknown-flag message
  (`src/index.ts:188`).
- `OptionTable.BooleanOptions` is `BOOLEAN_OPTIONS` (`src/index.ts:71-78`)
  and `OptionTable.NumericOptions` is `NUMERIC_OPTIONS` (`src/index.ts:81`).
- `Dispatch.Commands` holds the six names registered in
  `src/commands/index.ts:9-22`.

## Model

| member | source | states |
|---|---|---|
| ArgKeys.Lower | src/index.ts:13 | `toLowerCase` on ASCII: the result has no upper-case letter, and a string without one is left alone |
| ArgKeys.NormalizeArgKey | src/index.ts:11-14 | lower-cases the key and drops every `-`; the result has no `-`, no upper-case letter, and is never longer than the key |
| ArgKeys.NormalizeIdempotent | src/index.ts:11-14 | normalizing a normalized key changes nothing |
| ArgKeys.NormalizeFixed | src/index.ts:11-14 | a key without `-` and upper-case letters is its own normalization |
| ArgKeys.NormalizeNoHyphen | src/index.ts:11-14 | without hyphens, normalizing is lower-casing |
| ArgKeys.NormalizeAppend | src/index.ts:11-14 | normalization distributes over concatenation |
| ArgKeys.NormalizeLower | src/index.ts:169 | the extra `toLowerCase()` before `normalizeArgKey` makes no difference |
| ArgKeys.ToKebabCase | src/index.ts:17-19 | the kebab-case rendering has no upper-case letter (where its hyphens go is stated by the lemmas below) |
| ArgKeys.InsertHyphens | src/index.ts:18 | the global replace keeps the first character and only adds characters; removing the hyphens from a hyphen-free input gives the input back |
| ArgKeys.InsertHyphensSplitsPairs | src/index.ts:18 | after the replace no lower-case letter stands directly before an upper-case one |
| ArgKeys.InsertHyphensHyphenSites | src/index.ts:18 | on a hyphen-free input every `-` of the result stands between a lower-case and an upper-case letter; with the round trip this fixes the result |
| ArgKeys.InsertHyphensNoUpper | src/index.ts:18 | a string without upper-case letters has no pair to split and is left alone |
| ArgKeys.InsertHyphensOneHump | src/index.ts:18 | a lower-case run, one upper-case letter, then no upper-case letter: the replace puts one `-` before that letter |
| ArgKeys.KebabOneHump | src/index.ts:17-19 | such a one-hump word becomes the run, `-`, the lower-cased letter and the rest (`maxTokens` gives `max-tokens`) |
| ArgKeys.KebabOfLowerCase | src/index.ts:17-19 | a string without upper-case letters is its own kebab-case |
| ArgKeys.NormalizeInsertHyphens | src/index.ts:18 | inserting hyphens between lower/upper pairs is undone by normalization |
| ArgKeys.NormalizeKebab | src/index.ts:17-19 | a name's kebab-case normalizes to the name's own normalization |
| OptionTable.Resolve | src/index.ts:155-156 | `OPTION_KEYS[normalizeArgKey(key.toLowerCase())]`: the key of the table entry the normalized spelling names, or none |
| OptionTable.ResolveByTable | src/index.ts:169-170 | a key resolves exactly when its normalization is an `OPTION_KEYS` entry, and to that entry's key |
| OptionTable.NameIsTableEntry | src/index.ts:45-68 | each canonical camelCase name normalizes to the entry mapping to its key |
| OptionTable.AllKeysComplete | src/index.ts:45-68 | every one of the 21 keys is a value of `OPTION_KEYS` and is listed |
| OptionTable.KindsDisjoint | src/index.ts:71-81 | no key is both boolean and numeric |
| OptionTable.NoEntryStartsWithNo | src/index.ts:45-68 | no normalized entry begins with `no`, so `no-…` never names a key |
| OptionTable.ResolveBySpelling | src/index.ts:169-170 | any spelling that normalizes like a key's name resolves to that key |
| OptionTable.ResolveOnlyBySpelling | src/index.ts:169-170 | a spelling resolves to a key exactly when it normalizes like the key's canonical name |
| OptionTable.EntryOfTableKey | src/index.ts:45-68 | each table entry is the normalized name of the key it maps to, so no two entries share a key |
| OptionTable.SpellingsOfMaxTokens | src/index.ts:47 | `max-tokens` and `MAX-TOKENS` normalize like `maxTokens`, the name behind the `maxtokens` entry |
| OptionTable.KebabFlagSpelling | src/index.ts:186-191 | the flag spelling printed for each key: `max-tokens`, `from-github`, `save-to`, `connect-to`, and every other key's name unchanged |
| OptionTable.KebabFlagResolves | src/index.ts:186-191 | the kebab-case flag printed for every key resolves back to that key |
| OptionTable.ValidFlagList | src/index.ts:188-190 | the unknown-flag message lists one flag for each value of the table, in the table's order |
| OptionTable.AllKeysDistinct | src/index.ts:188 | the table's values, as listed, are pairwise distinct (the `Set` removes nothing) |
| OptionTable.ValidFlagsDistinct | src/index.ts:188-190 | no flag is listed twice: two positions of the list hold different flags |
| OptionTable.ValidFlagsAccepted | src/index.ts:186-191 | every listed flag starts with `--` and is accepted as its key |
| NumberParsing.IsJsSpace | src/index.ts:201 | the white space and line terminators `parseInt` trims (ECMAScript StrWhiteSpaceChar) |
| NumberParsing.ParseDecimal | src/index.ts:201 | `parseInt(value, 10)`: skips leading white space, reads an optional sign and the longest run of digits, and ignores the rest; no digits is NaN (None) |
| NumberParsing.ParseDecimalOfDigits | src/index.ts:201 | white space, then an optional `+` or `-`, then any non-empty run of digits (leading zeros included), then anything not starting with a digit, reads as the signed value of the digits |
| NumberParsing.ParseDecimalNaN | src/index.ts:201-205 | white space and a sign with no digit after them, including the empty string and white space alone, give NaN |
| NumberParsing.DigitsRead | src/index.ts:201 | a run of digits followed by a non-digit reads as the run's value |
| NumberParsing.ParseDecimalRoundTrip | src/index.ts:201 | parseInt reads back the decimal form of every integer, whatever non-digit text follows (`12abc` gives 12) |
| NumberParsing.DigitsRoundTrip | src/index.ts:201 | the digits of a natural number followed by a non-digit read back as that number |
| NumberParsing.ParseDecimalSkipsSpace | src/index.ts:201 | leading white space does not change the result |
| NumberParsing.NotANumberWithoutDigits | src/index.ts:201-205 | text starting with neither space, sign nor digit is NaN |
| NumberParsing.TrailingTextIgnored | src/index.ts:201 | `parseInt("12abc")` is 12 |
| NumberParsing.SpaceAndSign | src/index.ts:201 | `parseInt(" -7")` is -7 |
| ArgParser.Scan | src/index.ts:129-214 | the items of the loop from token `i` to the end, one step after another, or the first step's error |
| ArgParser.Parse | src/index.ts:126-215 | the options after every assignment, in order, and the query tokens, or the first error |
| ArgParser.StepAt | src/index.ts:130-214 | a successful iteration records the token at `i` and moves on by one token, or two when a value is consumed, never past the end |
| ArgParser.ReadFlag | src/index.ts:131-211 | the flag branch of the loop, with its mutable `key`, `value`, `isNoPrefix` and index, computes exactly one step of the loop |
| ArgParser.ParseArgs | src/index.ts:126-215 | the loop, mutating `options` and `queryArgs`, returns the options record and query of the whole parse, or its first error |
| ArgParser.NoDashNeverResolves | src/index.ts:160-162 | `no-` followed by anything never resolves to a key |
| ArgParser.SpellingIsNotNegation | src/index.ts:152-166 | a token `--s` where `s` names a key is read with key `s`, never as `--no-` |
| ArgParser.BooleanFlagSetsTrue | src/index.ts:171-175 | `--k` for a boolean key sets it to true and consumes no further token |
| ArgParser.NegatedFlagSetsFalse | src/index.ts:152-159 | `--no-k` for a boolean key sets it to false and consumes no further token |
| ArgParser.NegatedNonBooleanIsUnknown | src/index.ts:160-162 | `--no-X` where X is not boolean is the flag `no-X`, which fails as unknown |
| ArgParser.UnknownNameFails | src/index.ts:184-193 | a flag that names no key fails as unknown, naming the flag |
| ArgParser.ValueFlagTakesNext | src/index.ts:177-181 | a non-boolean key followed by a non-flag token takes it: numeric keys store its parseInt or fail naming the key, others store the text |
| ArgParser.ValueFlagMissingValue | src/index.ts:195-198 | a non-boolean key at the end or followed by a flag fails with "requires a value" |
| ArgParser.SameSpellingSameStep | src/index.ts:169-170 | two spellings with the same normalization, where the first names a key, give the same step |
| ArgParser.NegationIsNotASpelling | src/index.ts:152-193 | the condition above is needed: `no-console` and `noconsole` normalize alike, yet `--no-console` sets console to false and `--noconsole` is an unknown flag |
| ArgParser.NoRunNeverResolves | src/index.ts:169-170 | `no` followed by anything never resolves to a key |
| ArgParser.UnknownNoRun | src/index.ts:152-193 | `--no` run straight into a name, with no hyphen, is not a negation and fails as an unknown flag |
| ArgParser.StepMatches | src/index.ts:130-214 | a query item is the non-flag token at its position; an assignment stands at a flag naming its key |
| ArgParser.ScanTiles | src/index.ts:129-215 | a successful parse covers every token exactly once, left to right, each item taking one or two tokens |
| ArgParser.TilesIncreasing | src/index.ts:129 | the items of a parse stand at strictly increasing positions |
| ArgParser.AssignedKeys | src/index.ts:206-210 | a key is set exactly when some item assigns it |
| ArgParser.LastWriteWins | src/index.ts:206-210 | a repeated option holds the value of its last occurrence |
| ArgParser.QueryArgsAtPositions | src/index.ts:213 | each query token is the non-flag token at its recorded position |
| ArgParser.QueryPositionsIncreasing | src/index.ts:213 | query positions are strictly increasing |
| ArgParser.ParsedQueryInOrder | src/index.ts:129-214 | the query is, left to right, exactly the tokens that do not start with `--` and are not the value taken by the option before them |
| ArgParser.ScanQuerySites | src/index.ts:129-214 | from any step of a successful loop on, a token is pushed onto the query exactly when it is not a flag and not taken as the preceding option's value |
| ArgParser.StepNext | src/index.ts:177-181 | an option moves the loop on by two tokens exactly when it takes the next token as its value |
| ArgParser.UnnamedKeyUndefined | src/index.ts:100-125 | a key that no flag names stays undefined |
| ArgParser.StepWellTyped | src/index.ts:200-210 | every assignment has the kind of its key |
| ArgParser.ParsedOptionsWellTyped | src/index.ts:37-40 | booleans hold booleans, numeric keys numbers and the rest strings |
| ArgParser.PlainTokensAreQuery | src/index.ts:212-214 | without `--` tokens there are no options and the query is every token in order |
| ArgParser.BooleanFlagLeavesNextToken | src/index.ts:171-175 | `--k next` for a boolean key gives k = true and the query `[next]` |
| ArgParser.NumericFlagTakesValue | src/index.ts:200-206 | `--k v` for a numeric key gives k = parseInt(v) and an empty query |
| ArgParser.ConsoleThen | src/index.ts:171-175 | `--console next`, for any non-flag `next`, gives console = true and the query `[next]` |
| ArgParser.ConsoleFalse | src/index.ts:171-175 | `--console false` gives console = true and the query `false` |
| ArgParser.MaxTokensFive | src/index.ts:200-206 | `--S 5`, for any spelling S of maxTokens (`max-tokens`, `maxTokens`, …), sets maxTokens to 5 and leaves no query |
| Dispatch.CommandOf | src/index.ts:83 | the command is `process.argv[2]`, undefined when the command line has no third entry |
| Dispatch.ArgsOf | src/index.ts:83 | the arguments are the entries after the command, none when there are fewer than four |
| Dispatch.Join | src/index.ts:217 | `queryArgs.join(' ')`: the tokens in order with one space between neighbours |
| Dispatch.BuildQuery | src/index.ts:217 | `.` for `install` with no query tokens, otherwise the joined tokens |
| Dispatch.Decide | src/index.ts:84-241 | the decision of `main` before any command runs: version, flag error, missing command, missing query, unknown command, or a run with its command, query and options |
| Dispatch.JoinSplit | src/index.ts:217 | splitting the query at spaces and joining again gives it back |
| Dispatch.SplitJoin | src/index.ts:217 | joining tokens without spaces and splitting again gives them back |
| Dispatch.JoinEmpty | src/index.ts:217 | the joined query is empty exactly when there are no tokens or one empty token |
| Dispatch.InstallQueryEmpty | src/index.ts:217 | `install`'s query is empty only when its single query token is empty |
| Dispatch.RunExactly | src/index.ts:217-241 | a command runs exactly when it is registered, the flags parse, and its query is non-empty or it is `doc`; it gets the parsed options and the built query |
| Dispatch.VersionBeforeParse | src/index.ts:87-97 | `version`, `-v` and `--version` are answered before any parsing, even with bad flags after them |
| Dispatch.ParseErrorBeforeCommandChecks | src/index.ts:184-225 | a flag error is reported before the command is checked |
| Dispatch.NoCommand | src/index.ts:219-225 | with no command, or an empty one whose flags parse, the run fails as missing its command |
| Dispatch.EmptyQueryBeforeUnknownCommand | src/index.ts:227-241 | an unregistered command with no query fails for the query, not as unknown |
| Dispatch.DocAndInstallWithoutQuery | src/index.ts:217-230 | `doc` runs with an empty query and `install` with the query `.` |
| Dispatch.EmptyQueryFails | src/index.ts:227-234 | every other command fails on an empty query |
| Engine.Enabled | src/index.ts:255 | `if (options.saveTo)`: JavaScript truthiness of the path, so undefined and the empty string both disable the sink |
| Engine.AfterPrepare | src/index.ts:255-277 | the set-up either keeps `saveTo` or clears it, and keeps an enabled one exactly when the directory step (skipped for `.`) and the truncation both succeed |
| Engine.OutputSinks.PrepareSaveTo | src/index.ts:255-277 | the set-up clears `saveTo` on a failed mkdir (when the directory is not `.`) or a failed truncation, and otherwise empties the file |
| Engine.OutputSinks.Write | src/index.ts:280-290 | a chunk goes to stdout; it is appended while the sink is enabled, and a failed append clears `saveTo` |
| Engine.OutputSinks.Stream | src/index.ts:280-302 | stdout gets every chunk in order, then a newline and the saved-path notice when the sink survived; the file gets the chunks before the first failed append; a throw gives status 1 |
| Engine.OkRunIsFirstFailure | src/index.ts:282-289 | the appends counted all succeeded and the next one failed |
| Engine.OkRunAll | src/index.ts:282-289 | all appends succeed exactly when none is cut off |
| Engine.NeverReenabled | src/index.ts:263-288 | once `saveTo` is cleared it stays cleared, and a surviving `saveTo` is the original path |
| Engine.SavedFile | src/index.ts:270-289 | the saved file is the prefix of the chunks before the first failed append, and all of them exactly when every append succeeded |
| Engine.ReportedExactly | src/index.ts:296-298 | the saved path is reported exactly when nothing threw, the set-up succeeded and every append succeeded |
| RepoCommand.ModelName | src/commands/repo.ts:106 | `options?.model`, or `config.gemini.model` when that is falsy: a missing or empty model option falls back to the configured model |
| RepoCommand.RepoExecute | src/commands/repo.ts:78-116 | the `repo` generator never throws: failures become its last chunk |
| RepoCommand.RepoChunks | src/commands/repo.ts:78-116 | a run starts with the packing notice, names the model only after packing and reading succeeded, and ends with the answer or the failing stage's error |
| Cli.PassedOptions | src/index.ts:253-280 | the options object the generator receives after the set-up: without `saveTo` when the set-up cleared it, otherwise unchanged |
| Cli.CliExit | src/index.ts:83-310 | the exit status of a run, 0 or 1: the decision's status, or for a run whether the command threw |
| Cli.Execute | src/index.ts:253-302 | the `try` block: status 1 exactly when the command throws; stdout gets its chunks, then the newline and the saved-path notice when nothing threw; the file is truncated when the set-up succeeded and then gets the chunks before the first failed append |
| Cli.RunCli | src/index.ts:83-310 | `main` step by step: the exit status the decision and the engine call for; stdout holds only the version line when the version is shown, nothing when the run stops before the command, and otherwise the command's chunks in order with the tail; the save-to file is untouched unless the command runs |
| Cli.ExitZeroExactly | src/index.ts:305-309 | the process exits 0 exactly when it shows the version or runs a command that does not throw; otherwise 1 |
| Cli.RepoRunExitsZero | src/commands/repo.ts:110-116 | a `repo` run that passes the checks exits 0 whichever of packing, reading or the request fails (a reply without text, which makes `process.stdout.write` throw, is left out with `Engine.OutputSinks.Stream`) |

## Left out

- ArgKeys.Lower: `toLowerCase` is modelled on ASCII letters only. Unicode case mapping, where some characters change length, is not modelled.
- OptionTable.Resolve: `OPTION_KEYS` is a finite 21-entry map. JavaScript object lookup also finds inherited names such as `constructor`, which the model does not reproduce.
- Dispatch.Decide: the registry is the set of six names in `src/commands/index.ts`. Lookups of inherited names on the `commands` object are not modelled.
- NumberParsing.ParseDecimal: integers are unbounded. `parseInt`'s loss of precision on very long digit runs is not modelled.
- The version command's read of `package.json` and `JSON.parse` are an oracle (`versionReadable`). The printed version text is not modelled.
- `checkCursorRules` is not part of this model. It only writes messages to stderr.
- Console output on stderr, ANSI colours and the wording of the messages are left out. Only the error kind and the exit status are kept. The repo command's yielded texts are kept.
- `mkdirSync`, `writeFileSync`, `appendFileSync` and `dirname` are oracles. A failed append is assumed to write nothing.
- `async`/`for await` is left out. The command's generator is a finite list of chunks plus whether it throws afterwards.
- Cli.RunCli: the generator receives the options after the set-up. The model does not capture a generator observing `saveTo` being cleared during the loop.
- Engine.OutputSinks.Stream: errors thrown by `process.stdout.write` itself are not modelled. These include a command yielding `undefined`.
- `src/commands/repo.ts`: repository packing, the HTTP request and the file read are not modelled. Each stage's outcome is an oracle (`RepoRun`).
- The other five commands (`web`, `install`, `doc`, `github`, `browser`) are not part of this model: their implementations are not modelled. `Cli.RunCli` takes any command's generator as the `produce` parameter.
- `src/config.ts` and `src/repomix/repomixConfig.ts` are not part of this model. They only load files and hold constant settings. The configured model name is a parameter.
