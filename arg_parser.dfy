/** The option parser of the front end: the left-to-right loop over the
    arguments after the command name. Each `--` token names an option
    (negated with `--no-` for a boolean one); a non-boolean option takes the
    following token as its value; every other token is query text. Any bad
    flag ends the run. */
module ArgParser {
  import opened Wrappers
  import opened ArgKeys
  import opened OptionTable
  import opened NumberParsing

  datatype OptionValue = Str(s: string) | Num(n: int) | Bool(b: bool)

  /** The options record: a key absent from the map is `undefined`. */
  type Options = map<OptionKey, OptionValue>

  datatype FlagError =
    | UnknownFlag(flag: string)
    | MissingValue(flag: string)
    | NotANumber(key: OptionKey)

  /** What one step of the loop does with the token at `at`: push it onto the
      query, or assign an option. */
  datatype Item =
    | QueryArg(at: nat, text: string)
    | Assign(at: nat, key: OptionKey, value: OptionValue)

  datatype Step = Step(item: Item, next: nat)

  datatype Parsed = Parsed(options: Options, queryArgs: seq<string>)

  /** `s.startsWith('--')`. */
  predicate IsFlag(s: string) {
    |s| >= 2 && s[0] == '-' && s[1] == '-'
  }

  /** `s.startsWith('--no-')`. */
  predicate HasNoPrefix(s: string) {
    IsFlag(s) && |s| >= 5 && s[2] == 'n' && s[3] == 'o' && s[4] == '-'
  }

  /** How many tokens an item occupies: a non-boolean option also takes the
      token after its flag. */
  function Width(item: Item): nat {
    if item.Assign? && item.key !in BooleanOptions then 2 else 1
  }

  /** True when `--no-` is followed by a spelling of a boolean key. */
  predicate NegatesBoolean(arg: string) {
    HasNoPrefix(arg) && Resolve(arg[5..]).Some? && Resolve(arg[5..]).value in BooleanOptions
  }

  /** The key an option token names: what follows `--no-` when that names a
      boolean key, otherwise everything after `--`. */
  function FlagKey(arg: string): string
    requires IsFlag(arg)
  {
    if NegatesBoolean(arg) then arg[5..] else arg[2..]
  }

  /** Whether the option token at `i` takes the next token as its value: a
      non-boolean key followed by a token that is not itself a flag. */
  predicate TakesNext(args: seq<string>, i: nat)
    requires i < |args| && IsFlag(args[i])
  {
    var optionKey := Resolve(FlagKey(args[i]));
    !NegatesBoolean(args[i]) && !(optionKey.Some? && optionKey.value in BooleanOptions)
    && i + 1 < |args| && !IsFlag(args[i + 1])
  }

  /** The value string an option token ends up with (`undefined` as None). */
  function FlagValue(args: seq<string>, i: nat): Option<string>
    requires i < |args| && IsFlag(args[i])
  {
    var optionKey := Resolve(FlagKey(args[i]));
    if NegatesBoolean(args[i]) then Some("false")
    else if optionKey.Some? && optionKey.value in BooleanOptions then Some("true")
    else if TakesNext(args, i) then Some(args[i + 1])
    else None
  }

  /** One iteration of the loop, starting at token `i`, in the order the
      checks are made: unknown key, then missing value, then a numeric value
      that is NaN. */
  function StepAt(args: seq<string>, i: nat): (r: Result<Step, FlagError>)
    requires i < |args|
    ensures r.Success? ==> r.value.item.at == i && r.value.next == i + Width(r.value.item)
    ensures r.Success? ==> r.value.next <= |args|
    ensures !IsFlag(args[i]) ==> r == Success(Step(QueryArg(i, args[i]), i + 1))
    ensures r.Success? && IsFlag(args[i]) ==> r.value.item.Assign?
  {
    var arg := args[i];
    if !IsFlag(arg) then Success(Step(QueryArg(i, arg), i + 1))
    else
      var optionKey := Resolve(FlagKey(arg));
      var value := FlagValue(args, i);
      var next := if TakesNext(args, i) then i + 2 else i + 1;
      if optionKey.None? then Failure(UnknownFlag(arg))
      else
        var k := optionKey.value;
        if value.None? && k !in BooleanOptions then Failure(MissingValue(arg))
        else if k in NumericOptions then
          match ParseDecimal(value.value)
          case None => Failure(NotANumber(k))
          case Some(n) => Success(Step(Assign(i, k, Num(n)), next))
        else if k in BooleanOptions then Success(Step(Assign(i, k, Bool(value.value == "true")), next))
        else Success(Step(Assign(i, k, Str(value.value)), next))
  }

  function Prepend(done: seq<Item>, r: Result<seq<Item>, FlagError>): Result<seq<Item>, FlagError> {
    match r
    case Success(t) => Success(done + t)
    case Failure(e) => Failure(e)
  }

  lemma PrependAssoc(a: seq<Item>, b: seq<Item>, r: Result<seq<Item>, FlagError>)
    ensures Prepend(a, Prepend(b, r)) == Prepend(a + b, r)
  {
    if r.Success? {
      assert a + (b + r.value) == (a + b) + r.value;
    }
  }

  lemma PrependNothing(r: Result<seq<Item>, FlagError>)
    ensures Prepend([], r) == r
  {
    if r.Success? {
      assert [] + r.value == r.value;
    }
  }

  /** The items of the loop from token `i` to the end, or the first error. */
  function Scan(args: seq<string>, i: nat): Result<seq<Item>, FlagError>
    requires i <= |args|
    decreases |args| - i
  {
    if i == |args| then Success([])
    else match StepAt(args, i)
      case Failure(e) => Failure(e)
      case Success(st) => Prepend([st.item], Scan(args, st.next))
  }

  /** The options record after the assignments of `t`, in order. */
  function Assigned(t: seq<Item>): Options {
    if t == [] then map[]
    else
      var m := Assigned(t[..|t| - 1]);
      var last := t[|t| - 1];
      if last.Assign? then m[last.key := last.value] else m
  }

  /** The query tokens of `t`, in order. */
  function QueryArgs(t: seq<Item>): seq<string> {
    if t == [] then []
    else QueryArgs(t[..|t| - 1]) + (if t[|t| - 1].QueryArg? then [t[|t| - 1].text] else [])
  }

  /** The whole parse: an options record and the query tokens, or the first
      flag error. */
  function Parse(args: seq<string>): Result<Parsed, FlagError> {
    match Scan(args, 0)
    case Failure(e) => Failure(e)
    case Success(t) => Success(Parsed(Assigned(t), QueryArgs(t)))
  }

  /** The body of the loop for a token that starts with `--`: work out the
      key, whether it is negated, and its value (taking the next token when
      the option is not boolean), then check it. */
  method ReadFlag(args: seq<string>, i: nat) returns (r: Result<Step, FlagError>)
    requires i < |args| && IsFlag(args[i])
    ensures r == StepAt(args, i)
  {
    var arg := args[i];
    var next := i + 1;
    var key: string;
    var value: Option<string> := None;
    var isNoPrefix := false;
    if HasNoPrefix(arg) {
      key := arg[5..];
      var negatedKey := Resolve(key);
      if negatedKey.Some? && negatedKey.value in BooleanOptions {
        value := Some("false");
        isNoPrefix := true;
      } else {
        key := arg[2..];
      }
    } else {
      key := arg[2..];
    }
    var optionKey := Resolve(key);
    if !isNoPrefix {
      if optionKey.Some? && optionKey.value in BooleanOptions {
        value := Some("true");
      } else if i + 1 < |args| && !IsFlag(args[i + 1]) {
        value := Some(args[i + 1]);
        next := next + 1;
      }
    }
    if optionKey.None? {
      return Failure(UnknownFlag(arg));
    }
    var k := optionKey.value;
    if value.None? && k !in BooleanOptions {
      return Failure(MissingValue(arg));
    }
    if k in NumericOptions {
      var num := ParseDecimal(value.value);
      if num.None? {
        return Failure(NotANumber(k));
      }
      r := Success(Step(Assign(i, k, Num(num.value)), next));
    } else if k in BooleanOptions {
      r := Success(Step(Assign(i, k, Bool(value.value == "true")), next));
    } else {
      r := Success(Step(Assign(i, k, Str(value.value)), next));
    }
  }

  /** One successful step moves the split point of the scan past its item. */
  lemma ScanAdvance(args: seq<string>, i: nat, done: seq<Item>, st: Step)
    requires i < |args| && StepAt(args, i) == Success(st)
    requires Scan(args, 0) == Prepend(done, Scan(args, i))
    ensures Scan(args, 0) == Prepend(done + [st.item], Scan(args, st.next))
  {
    PrependAssoc(done, [st.item], Scan(args, st.next));
  }

  /** A failing step ends the whole parse with its error. */
  lemma ScanStops(args: seq<string>, i: nat, done: seq<Item>, e: FlagError)
    requires i < |args| && StepAt(args, i) == Failure(e)
    requires Scan(args, 0) == Prepend(done, Scan(args, i))
    ensures Parse(args) == Failure(e)
  {
  }

  /** Once the scan reaches the end, the parse is what the items give. */
  lemma ScanDone(args: seq<string>, done: seq<Item>)
    requires Scan(args, 0) == Prepend(done, Scan(args, |args|))
    ensures Parse(args) == Success(Parsed(Assigned(done), QueryArgs(done)))
  {
    assert done + [] == done;
  }

  /** The parse loop of `main`, updating the options record and the query list
      in place. */
  method ParseArgs(args: seq<string>) returns (r: Result<Parsed, FlagError>)
    ensures r == Parse(args)
  {
    var options: Options := map[];
    var queryArgs: seq<string> := [];
    ghost var done: seq<Item> := [];
    var i := 0;
    PrependNothing(Scan(args, 0));
    while i < |args|
      invariant 0 <= i <= |args|
      invariant options == Assigned(done) && queryArgs == QueryArgs(done)
      invariant Scan(args, 0) == Prepend(done, Scan(args, i))
    {
      var arg := args[i];
      if IsFlag(arg) {
        var step := ReadFlag(args, i);
        if step.Failure? {
          ScanStops(args, i, done, step.error);
          return Failure(step.error);
        }
        var assignment := step.value.item;
        ScanAdvance(args, i, done, step.value);
        ItemsSnoc(done, assignment);
        options := options[assignment.key := assignment.value];
        done := done + [assignment];
        i := step.value.next;
      } else {
        var query := QueryArg(i, arg);
        ScanAdvance(args, i, done, Step(query, i + 1));
        ItemsSnoc(done, query);
        queryArgs := queryArgs + [arg];
        done := done + [query];
        i := i + 1;
      }
    }
    ScanDone(args, done);
    return Success(Parsed(options, queryArgs));
  }

  // ---------------------------------------------------------------------
  // One step of the loop

  /** `no-` followed by anything never names a key: no table entry begins
      with `no`. */
  lemma NoDashNeverResolves(rest: string)
    ensures Resolve("no-" + rest) == None
  {
    NormalizeAppend("no-", rest);
    NoDashNormalizes();
    ResolveByTable("no-" + rest);
    var n := NormalizeArgKey("no-" + rest);
    if n in OptionKeys {
      NoEntryStartsWithNo(n);
      assert false;
    }
  }

  lemma NoDashNormalizes()
    ensures NormalizeArgKey("no-") == "no"
  {
    assert Lower("no-") == "no-";
    assert RemoveHyphens("no-") == "no";
  }

  /** A token `--s` where `s` spells a key is never read as a `--no-` token. */
  lemma SpellingIsNotNegation(s: string)
    requires Resolve(s).Some?
    ensures !HasNoPrefix("--" + s)
    ensures FlagKey("--" + s) == s
  {
    var arg := "--" + s;
    if HasNoPrefix(arg) {
      assert s == "no-" + s[3..];
      NoDashNeverResolves(s[3..]);
      assert false;
    }
    assert arg[2..] == s;
  }

  /** `--k` for a boolean key sets it to true and consumes nothing more, so
      `--console false` leaves `false` to the query. */
  lemma BooleanFlagSetsTrue(args: seq<string>, i: nat, s: string, k: OptionKey)
    requires i < |args| && args[i] == "--" + s
    requires Resolve(s) == Some(k) && k in BooleanOptions
    ensures StepAt(args, i) == Success(Step(Assign(i, k, Bool(true)), i + 1))
  {
    SpellingIsNotNegation(s);
    assert !NegatesBoolean(args[i]);
    assert Resolve(FlagKey(args[i])) == Some(k);
    assert FlagValue(args, i) == Some("true");
  }

  /** `--no-k` for a boolean key sets it to false and consumes nothing more. */
  lemma NegatedFlagSetsFalse(args: seq<string>, i: nat, s: string, k: OptionKey)
    requires i < |args| && args[i] == "--no-" + s
    requires Resolve(s) == Some(k) && k in BooleanOptions
    ensures StepAt(args, i) == Success(Step(Assign(i, k, Bool(false)), i + 1))
  {
    assert args[i][5..] == s;
    assert NegatesBoolean(args[i]);
    assert Resolve(FlagKey(args[i])) == Some(k);
    assert FlagValue(args, i) == Some("false");
  }

  /** `--no-X` where X is not a boolean key is read as the flag `no-X`, which
      is unknown. */
  lemma NegatedNonBooleanIsUnknown(args: seq<string>, i: nat, s: string)
    requires i < |args| && args[i] == "--no-" + s
    requires !(Resolve(s).Some? && Resolve(s).value in BooleanOptions)
    ensures StepAt(args, i) == Failure(UnknownFlag(args[i]))
  {
    assert args[i][5..] == s;
    assert args[i][2..] == "no-" + s;
    NoDashNeverResolves(s);
  }

  /** A flag that names no key (and is not a negated boolean) fails. */
  lemma UnknownNameFails(args: seq<string>, i: nat, s: string)
    requires i < |args| && args[i] == "--" + s
    requires Resolve(s).None? && !NegatesBoolean(args[i])
    ensures StepAt(args, i) == Failure(UnknownFlag(args[i]))
  {
    assert args[i][2..] == s;
  }

  /** A non-boolean key takes the next token as its value exactly when there
      is one and it does not start with `--`; a numeric key stores parseInt of
      it, or fails naming the key when that is NaN. */
  lemma ValueFlagTakesNext(args: seq<string>, i: nat, s: string, k: OptionKey)
    requires i + 1 < |args| && args[i] == "--" + s && !IsFlag(args[i + 1])
    requires Resolve(s) == Some(k) && k !in BooleanOptions
    ensures k in NumericOptions && ParseDecimal(args[i + 1]).None? ==>
      StepAt(args, i) == Failure(NotANumber(k))
    ensures k in NumericOptions && ParseDecimal(args[i + 1]).Some? ==>
      StepAt(args, i) == Success(Step(Assign(i, k, Num(ParseDecimal(args[i + 1]).value)), i + 2))
    ensures k !in NumericOptions ==>
      StepAt(args, i) == Success(Step(Assign(i, k, Str(args[i + 1])), i + 2))
  {
    SpellingIsNotNegation(s);
  }

  /** A non-boolean flag at the end, or followed by another flag, fails with
      "requires a value". */
  lemma ValueFlagMissingValue(args: seq<string>, i: nat, s: string, k: OptionKey)
    requires i < |args| && args[i] == "--" + s
    requires i + 1 == |args| || IsFlag(args[i + 1])
    requires Resolve(s) == Some(k) && k !in BooleanOptions
    ensures StepAt(args, i) == Failure(MissingValue(args[i]))
  {
    SpellingIsNotNegation(s);
  }

  /** Two spellings with the same normalization behave alike. */
  lemma SameSpellingSameStep(args: seq<string>, i: nat, s: string, s': string)
    requires i < |args| && args[i] == "--" + s
    requires Resolve(s).Some? && NormalizeArgKey(s) == NormalizeArgKey(s')
    ensures var args' := args[i := "--" + s'];
      StepAt(args', i).Success? == StepAt(args, i).Success?
      && (StepAt(args, i).Success? ==> StepAt(args', i) == StepAt(args, i))
  {
    ResolveByTable(s);
    ResolveByTable(s');
    SpellingIsNotNegation(s);
    SpellingIsNotNegation(s');
  }

  /** The first spelling in `SameSpellingSameStep` must name a key: with
      `s` the name `console`, `no-console` and `noconsole` normalize alike,
      yet `--no-console` is the negation of `console` and `--noconsole` is an
      unknown flag. */
  lemma NegationIsNotASpelling(s: string)
    requires s == Name(Console)
    ensures NormalizeArgKey("no-" + s) == NormalizeArgKey("no" + s)
    ensures StepAt(["--no-" + s], 0) == Success(Step(Assign(0, Console, Bool(false)), 1))
    ensures StepAt(["--no" + s], 0) == Failure(UnknownFlag("--no" + s))
  {
    NoHyphenIgnored(s);
    NegatedConsole(s);
    assert s[0] == 'c';
    UnknownNoRun(s);
  }

  /** Normalization drops the hyphen of `no-`. */
  lemma NoHyphenIgnored(s: string)
    ensures NormalizeArgKey("no-" + s) == NormalizeArgKey("no" + s)
  {
    HyphenatedSpelling("no", s);
    NormalizeAppend("no", s);
    assert "no" + "-" + s == "no-" + s;
  }

  lemma NegatedConsole(s: string)
    requires s == Name(Console)
    ensures StepAt(["--no-" + s], 0) == Success(Step(Assign(0, Console, Bool(false)), 1))
  {
    ResolveBySpelling(s, Console);
    NegatedFlagSetsFalse(["--no-" + s], 0, s, Console);
  }

  /** `--no` run straight into a name is not a negation, and is unknown. */
  lemma UnknownNoRun(s: string)
    requires s != [] && s[0] != '-'
    ensures StepAt(["--no" + s], 0) == Failure(UnknownFlag("--no" + s))
  {
    NoRunNeverResolves(s);
    var arg := "--no" + s;
    assert arg == "--" + ("no" + s);
    assert arg[4] == s[0];
    UnknownNameFails([arg], 0, "no" + s);
  }

  /** `no` followed by anything never names a key either. */
  lemma NoRunNeverResolves(rest: string)
    ensures Resolve("no" + rest) == None
  {
    NormalizeAppend("no", rest);
    NormalizeFixed("no");
    ResolveByTable("no" + rest);
    var n := NormalizeArgKey("no" + rest);
    if n in OptionKeys {
      NoEntryStartsWithNo(n);
      assert false;
    }
  }

  // ---------------------------------------------------------------------
  // The whole loop

  /** The fold over items, one item at a time. */
  lemma ItemsSnoc(t: seq<Item>, item: Item)
    ensures Assigned(t + [item]) ==
      if item.Assign? then Assigned(t)[item.key := item.value] else Assigned(t)
    ensures QueryArgs(t + [item]) ==
      QueryArgs(t) + if item.QueryArg? then [item.text] else []
  {
    assert (t + [item])[..|t|] == t;
  }

  /** The items cover the tokens from `from` to `to` left to right, each item
      taking Width tokens, with no gap. */
  ghost predicate Tiles(t: seq<Item>, from: nat, to: nat)
    decreases |t|
  {
    if t == [] then from == to
    else t[0].at == from && Tiles(t[1..], from + Width(t[0]), to)
  }

  /** A query item is the non-flag token at its position; an assignment
      stands at a flag token. */
  predicate ItemMatches(args: seq<string>, item: Item) {
    item.at < |args|
    && (item.QueryArg? ==> item.text == args[item.at] && !IsFlag(args[item.at]))
    && (item.Assign? ==> IsFlag(args[item.at]) && Resolve(FlagKey(args[item.at])) == Some(item.key))
  }

  predicate ItemsMatch(args: seq<string>, t: seq<Item>) {
    forall m | 0 <= m < |t| :: ItemMatches(args, t[m])
  }

  lemma StepMatches(args: seq<string>, i: nat)
    requires i < |args| && StepAt(args, i).Success?
    ensures ItemMatches(args, StepAt(args, i).value.item)
  {
  }

  /** A successful scan consumes every token exactly once, in order. */
  lemma {:induction false} ScanTiles(args: seq<string>, i: nat)
    requires i <= |args|
    requires Scan(args, i).Success?
    ensures Tiles(Scan(args, i).value, i, |args|)
    ensures ItemsMatch(args, Scan(args, i).value)
    decreases |args| - i
  {
    if i < |args| {
      var st := StepAt(args, i).value;
      ScanTiles(args, st.next);
      var rest := Scan(args, st.next).value;
      StepMatches(args, i);
      assert Scan(args, i).value == [st.item] + rest;
      assert ([st.item] + rest)[1..] == rest;
    }
  }

  predicate AssignsKey(item: Item, k: OptionKey) {
    item.Assign? && item.key == k
  }

  /** Item `j` is the last assignment to `k`. */
  predicate IsLastAssign(t: seq<Item>, k: OptionKey, j: int) {
    0 <= j < |t| && AssignsKey(t[j], k)
    && forall j' | j < j' < |t| :: !AssignsKey(t[j'], k)
  }

  /** A key is set exactly when some item assigns it. */
  lemma {:induction false} AssignedKeys(t: seq<Item>, k: OptionKey)
    ensures k in Assigned(t) <==> exists j | 0 <= j < |t| :: AssignsKey(t[j], k)
  {
    if t != [] {
      var init := t[..|t| - 1];
      AssignedKeys(init, k);
      if !AssignsKey(t[|t| - 1], k) {
        if k in Assigned(t) {
          var j :| 0 <= j < |init| && AssignsKey(init[j], k);
          assert AssignsKey(t[j], k);
        }
        if exists j | 0 <= j < |t| :: AssignsKey(t[j], k) {
          var j :| 0 <= j < |t| && AssignsKey(t[j], k);
          assert AssignsKey(init[j], k);
        }
      }
    }
  }

  /** Last write wins: a key holds the value of the last item assigning it. */
  lemma {:induction false} LastWriteWins(t: seq<Item>, k: OptionKey, j: int)
    requires IsLastAssign(t, k, j)
    ensures k in Assigned(t) && Assigned(t)[k] == t[j].value
  {
    var last := |t| - 1;
    if j < last {
      assert !AssignsKey(t[last], k);
      var init := t[..last];
      assert IsLastAssign(init, k, j);
      LastWriteWins(init, k, j);
    }
  }

  /** The token positions of the query items, in order. */
  function QueryPositions(t: seq<Item>): seq<nat> {
    if t == [] then []
    else QueryPositions(t[..|t| - 1]) + (if t[|t| - 1].QueryArg? then [t[|t| - 1].at] else [])
  }

  /** The query is the tokens at the query positions. */
  lemma {:induction false} QueryArgsAtPositions(args: seq<string>, t: seq<Item>)
    requires ItemsMatch(args, t)
    ensures |QueryArgs(t)| == |QueryPositions(t)|
    ensures forall m | 0 <= m < |QueryPositions(t)| ::
      QueryPositions(t)[m] < |args| && !IsFlag(args[QueryPositions(t)[m]])
      && QueryArgs(t)[m] == args[QueryPositions(t)[m]]
  {
    if t != [] {
      var init := t[..|t| - 1];
      assert ItemsMatch(args, init) by {
        forall m | 0 <= m < |init| ensures ItemMatches(args, init[m]) {
          assert init[m] == t[m];
        }
      }
      QueryArgsAtPositions(args, init);
      assert ItemMatches(args, t[|t| - 1]);
    }
  }

  /** Tiled items stand at increasing positions inside the tiled range. */
  lemma {:induction false} TilesIncreasing(t: seq<Item>, from: nat, to: nat)
    requires Tiles(t, from, to)
    ensures forall m | 0 <= m < |t| :: from <= t[m].at < to
    ensures forall m, m' | 0 <= m < m' < |t| :: t[m].at < t[m'].at
    decreases |t|
  {
    if t != [] {
      TilesIncreasing(t[1..], from + Width(t[0]), to);
      assert forall m | 1 <= m < |t| :: t[m] == t[1..][m - 1];
    }
  }

  lemma {:induction false} QueryPositionsIncreasing(t: seq<Item>)
    requires forall m, m' | 0 <= m < m' < |t| :: t[m].at < t[m'].at
    ensures forall m, m' | 0 <= m < m' < |QueryPositions(t)| ::
      QueryPositions(t)[m] < QueryPositions(t)[m']
    ensures forall m | 0 <= m < |QueryPositions(t)| ::
      exists j | 0 <= j < |t| :: t[j].at == QueryPositions(t)[m]
  {
    if t != [] {
      var init := t[..|t| - 1];
      QueryPositionsIncreasing(init);
      forall m | 0 <= m < |QueryPositions(init)|
        ensures exists j | 0 <= j < |t| :: t[j].at == QueryPositions(init)[m]
        ensures QueryPositions(init)[m] < t[|t| - 1].at
      {
        var j :| 0 <= j < |init| && init[j].at == QueryPositions(init)[m];
        assert t[j] == init[j];
      }
      var qp := QueryPositions(init);
      if t[|t| - 1].QueryArg? {
        var q := QueryPositions(t);
        assert q == qp + [t[|t| - 1].at];
        forall m, m' | 0 <= m < m' < |q| ensures q[m] < q[m'] {
          if m' < |qp| {
            assert q[m] == qp[m] && q[m'] == qp[m'];
          } else {
            assert q[m] == qp[m];
          }
        }
        forall m | 0 <= m < |q| ensures exists j | 0 <= j < |t| :: t[j].at == q[m] {
          if m == |qp| {
            assert t[|t| - 1].at == q[m];
          } else {
            assert q[m] == qp[m];
          }
        }
      } else {
        assert QueryPositions(t) == qp;
      }
    } else {
      assert QueryPositions(t) == [];
    }
  }

  /** An option token's step moves on by two tokens exactly when it takes
      the next token as its value. */
  lemma StepNext(args: seq<string>, i: nat)
    requires i < |args| && IsFlag(args[i]) && StepAt(args, i).Success?
    ensures StepAt(args, i).value.next == if TakesNext(args, i) then i + 2 else i + 1
  {
  }

  /** The query positions of a list of items, read from the front. */
  lemma {:induction false} QueryPositionsCons(x: Item, rest: seq<Item>)
    ensures QueryPositions([x] + rest) ==
      (if x.QueryArg? then [x.at] else []) + QueryPositions(rest)
    decreases |rest|
  {
    if rest == [] {
      assert [x] + rest == [x];
      assert [x][..0] == [];
    } else {
      var init := rest[..|rest| - 1];
      QueryPositionsCons(x, init);
      assert ([x] + rest)[..|rest|] == [x] + init;
      assert ([x] + rest)[|rest|] == rest[|rest| - 1];
    }
  }

  /** The token after an option that takes a value is that value. */
  predicate IsOptionValue(args: seq<string>, j: nat)
    requires j < |args|
  {
    j > 0 && IsFlag(args[j - 1]) && TakesNext(args, j - 1)
  }

  /** The query positions of a scan from `i`, as a condition on the
      tokens. */
  predicate QuerySitesFrom(args: seq<string>, i: nat, q: seq<nat>)
    requires i <= |args|
  {
    (forall j | j in q :: i <= j < |args|)
    && forall j | i <= j < |args| ::
      (j in q <==> !IsFlag(args[j]) && !(j > i && IsOptionValue(args, j)))
  }

  /** From token `i` on, the query positions are exactly the tokens that do
      not start with `--` and are not the value of the option before them
      (the token at `i` itself starts a step). */
  lemma {:induction false} ScanQuerySites(args: seq<string>, i: nat)
    requires i <= |args| && Scan(args, i).Success?
    ensures QuerySitesFrom(args, i, QueryPositions(Scan(args, i).value))
    decreases |args| - i
  {
    if i < |args| {
      var st, rest := ScanFront(args, i);
      ScanQuerySites(args, st.next);
      QueryPositionsCons(st.item, rest);
      if IsFlag(args[i]) {
        StepNext(args, i);
      }
      QuerySitesStep(args, i, st, QueryPositions(rest));
    }
  }

  /** A successful scan from `i < |args|` is its first step's item followed
      by the scan from where that step ends. */
  lemma ScanFront(args: seq<string>, i: nat) returns (st: Step, rest: seq<Item>)
    requires i < |args| && Scan(args, i).Success?
    ensures StepAt(args, i) == Success(st) && st.next <= |args|
    ensures Scan(args, st.next) == Success(rest)
    ensures Scan(args, i).value == [st.item] + rest
  {
    st := StepAt(args, i).value;
    rest := Scan(args, st.next).value;
  }

  /** One step of `ScanQuerySites`: a query item adds its own position, an
      option adds none and, when it takes a value, hides the next token. */
  lemma QuerySitesStep(args: seq<string>, i: nat, st: Step, q: seq<nat>)
    requires i < |args| && st.item.at == i && st.next <= |args|
    requires !IsFlag(args[i]) ==> st.item.QueryArg? && st.next == i + 1
    requires IsFlag(args[i]) ==>
      st.item.Assign? && st.next == if TakesNext(args, i) then i + 2 else i + 1
    requires QuerySitesFrom(args, st.next, q)
    ensures QuerySitesFrom(args, i, (if st.item.QueryArg? then [st.item.at] else []) + q)
  {
    var q' := (if st.item.QueryArg? then [st.item.at] else []) + q;
    forall j | i <= j < |args|
      ensures j in q' <==> !IsFlag(args[j]) && !(j > i && IsOptionValue(args, j))
    {
      if j >= st.next {
        assert j in q' <==> j in q;
      }
    }
  }

  /** The query of a successful parse is a selection of the tokens that do
      not start with `--`, taken left to right. */
  lemma ParsedQueryInOrder(args: seq<string>) returns (positions: seq<nat>)
    requires Parse(args).Success?
    ensures |positions| == |Parse(args).value.queryArgs|
    ensures forall m | 0 <= m < |positions| ::
      positions[m] < |args| && !IsFlag(args[positions[m]])
      && Parse(args).value.queryArgs[m] == args[positions[m]]
    ensures forall m, m' | 0 <= m < m' < |positions| :: positions[m] < positions[m']
    ensures forall j | 0 <= j < |args| ::
      j in positions <==> !IsFlag(args[j]) && !IsOptionValue(args, j)
  {
    ParseOfScan(args);
    var t := Scan(args, 0).value;
    ScanTiles(args, 0);
    TilesIncreasing(t, 0, |args|);
    QueryPositionsIncreasing(t);
    QueryArgsAtPositions(args, t);
    ScanQuerySites(args, 0);
    positions := QueryPositions(t);
  }

  /** A key that no flag names stays undefined. */
  lemma UnnamedKeyUndefined(args: seq<string>, k: OptionKey)
    requires Parse(args).Success?
    requires forall j | 0 <= j < |args| && IsFlag(args[j]) :: Resolve(FlagKey(args[j])) != Some(k)
    ensures k !in Parse(args).value.options
  {
    ParseOfScan(args);
    var t := Scan(args, 0).value;
    ScanTiles(args, 0);
    AssignedKeys(t, k);
  }

  /** The value kinds the loop produces: booleans for the boolean keys,
      numbers for the numeric keys, strings for the rest. */
  predicate WellTyped(k: OptionKey, v: OptionValue) {
    if k in BooleanOptions then v.Bool?
    else if k in NumericOptions then v.Num?
    else v.Str?
  }

  predicate ItemsWellTyped(t: seq<Item>) {
    forall m | 0 <= m < |t| && t[m].Assign? :: WellTyped(t[m].key, t[m].value)
  }

  lemma StepWellTyped(args: seq<string>, i: nat)
    requires i < |args| && StepAt(args, i).Success?
    ensures StepAt(args, i).value.item.Assign? ==>
      WellTyped(StepAt(args, i).value.item.key, StepAt(args, i).value.item.value)
  {
    KindsDisjoint();
  }

  lemma {:induction false} ScanWellTyped(args: seq<string>, i: nat)
    requires i <= |args| && Scan(args, i).Success?
    ensures ItemsWellTyped(Scan(args, i).value)
    decreases |args| - i
  {
    if i < |args| {
      var st := StepAt(args, i).value;
      StepWellTyped(args, i);
      ScanWellTyped(args, st.next);
      var rest := Scan(args, st.next).value;
      assert Scan(args, i).value == [st.item] + rest;
    }
  }

  lemma {:induction false} AssignedWellTyped(t: seq<Item>)
    requires ItemsWellTyped(t)
    ensures forall k | k in Assigned(t) :: WellTyped(k, Assigned(t)[k])
  {
    if t != [] {
      var init := t[..|t| - 1];
      assert ItemsWellTyped(init) by {
        forall m | 0 <= m < |init| && init[m].Assign?
          ensures WellTyped(init[m].key, init[m].value)
        {
          assert init[m] == t[m];
        }
      }
      AssignedWellTyped(init);
    }
  }

  /** Every option in a parsed record has the kind its key calls for. */
  lemma ParsedOptionsWellTyped(args: seq<string>)
    requires Parse(args).Success?
    ensures forall k | k in Parse(args).value.options ::
      WellTyped(k, Parse(args).value.options[k])
  {
    ScanWellTyped(args, 0);
    AssignedWellTyped(Scan(args, 0).value);
  }

  lemma ParseOfScan(args: seq<string>)
    ensures Scan(args, 0).Success? ==>
      Parse(args) == Success(Parsed(Assigned(Scan(args, 0).value), QueryArgs(Scan(args, 0).value)))
    ensures Scan(args, 0).Failure? ==> Parse(args) == Failure(Scan(args, 0).error)
  {
  }

  /** Without any `--` token, nothing is an option and the query is all the
      tokens, in order. */
  lemma {:induction false} ScanPlainTokens(args: seq<string>, i: nat) returns (t: seq<Item>)
    requires i <= |args|
    requires forall j | i <= j < |args| :: !IsFlag(args[j])
    ensures Scan(args, i) == Success(t) && |t| == |args| - i
    ensures forall m | 0 <= m < |t| :: t[m] == QueryArg(i + m, args[i + m])
    decreases |args| - i
  {
    if i == |args| {
      t := [];
    } else {
      var rest := ScanPlainTokens(args, i + 1);
      t := [QueryArg(i, args[i])] + rest;
      assert Scan(args, i) == Success(t);
    }
  }

  lemma {:induction false} QueryOnlyItems(t: seq<Item>, args: seq<string>)
    requires |t| == |args|
    requires forall m | 0 <= m < |t| :: t[m] == QueryArg(m, args[m])
    ensures Assigned(t) == map[] && QueryArgs(t) == args
  {
    if t != [] {
      QueryOnlyItems(t[..|t| - 1], args[..|args| - 1]);
      assert args[..|args| - 1] + [args[|args| - 1]] == args;
    }
  }

  lemma PlainTokensAreQuery(args: seq<string>)
    requires forall j | 0 <= j < |args| :: !IsFlag(args[j])
    ensures Parse(args) == Success(Parsed(map[], args))
  {
    var t := PlainScan(args);
    ParseOfScan(args);
  }

  lemma PlainScan(args: seq<string>) returns (t: seq<Item>)
    requires forall j | 0 <= j < |args| :: !IsFlag(args[j])
    ensures Scan(args, 0) == Success(t) && Assigned(t) == map[] && QueryArgs(t) == args
  {
    t := ScanPlainTokens(args, 0);
    assert forall m | 0 <= m < |t| :: t[m] == QueryArg(m, args[m]);
    QueryOnlyItems(t, args);
  }

  // ---------------------------------------------------------------------
  // Two-token command lines

  lemma LastQueryToken(args: seq<string>, i: nat)
    requires i + 1 == |args| && !IsFlag(args[i])
    ensures Scan(args, i) == Success([QueryArg(i, args[i])])
  {
    assert Scan(args, i + 1) == Success([]);
    assert [QueryArg(i, args[i])] + [] == [QueryArg(i, args[i])];
  }

  lemma ScanCons(args: seq<string>, i: nat, st: Step, rest: seq<Item>)
    requires i < |args| && StepAt(args, i) == Success(st)
    requires Scan(args, st.next) == Success(rest)
    ensures Scan(args, i) == Success([st.item] + rest)
  {
  }

  /** `--k next` for a boolean key sets k and leaves `next` to the query:
      `--console false` gives console = true and the query `false`. */
  lemma BooleanFlagLeavesNextToken(s: string, k: OptionKey, next: string)
    requires Resolve(s) == Some(k) && k in BooleanOptions && !IsFlag(next)
    ensures Parse(["--" + s, next]) == Success(Parsed(map[k := Bool(true)], [next]))
  {
    var args := ["--" + s, next];
    BooleanFlagSetsTrue(args, 0, s, k);
    var a, q := Assign(0, k, Bool(true)), QueryArg(1, next);
    LastQueryToken(args, 1);
    ScanCons(args, 0, Step(a, 1), [q]);
    ItemsSnoc([], a);
    ItemsSnoc([a], q);
    assert [] + [a] == [a];
    assert Assigned([a]) == map[k := Bool(true)];
    assert QueryArgs([a]) == [];
    assert QueryArgs([a] + [q]) == [next];
    ParseOfScan(args);
  }

  /** `--k v` for a numeric key stores parseInt(v) and leaves no query. */
  lemma NumericFlagTakesValue(s: string, k: OptionKey, v: string, n: int)
    requires Resolve(s) == Some(k) && k in NumericOptions && !IsFlag(v)
    requires ParseDecimal(v) == Some(n)
    ensures Parse(["--" + s, v]) == Success(Parsed(map[k := Num(n)], []))
  {
    var args := ["--" + s, v];
    KindsDisjoint();
    assert k !in BooleanOptions;
    ValueFlagTakesNext(args, 0, s, k);
    var a := Assign(0, k, Num(n));
    assert Scan(args, 2) == Success([]);
    ScanCons(args, 0, Step(a, 2), []);
    assert [a] + [] == [a] && [a][..0] == [];
    assert Assigned([a]) == map[k := Num(n)];
    assert QueryArgs([a]) == [];
    ParseOfScan(args);
  }

  lemma ConsoleFalse()
    ensures Parse(["--console", "false"]) == Success(Parsed(map[Console := Bool(true)], ["false"]))
  {
    ConsoleThen("console", "false");
    assert "--" + "console" == "--console";
  }

  lemma ConsoleThen(s: string, next: string)
    requires s == Name(Console) && !IsFlag(next)
    ensures Parse(["--" + s, next]) == Success(Parsed(map[Console := Bool(true)], [next]))
  {
    ResolveBySpelling(s, Console);
    BooleanFlagLeavesNextToken(s, Console, next);
  }

  /** `--max-tokens 5`, `--maxTokens 5` and every other spelling of
      maxTokens parse alike. */
  lemma MaxTokensFive(s: string)
    requires NormalizeArgKey(s) == NormalizeArgKey(Name(MaxTokens))
    ensures Parse(["--" + s, "5"]) == Success(Parsed(map[MaxTokens := Num(5)], []))
  {
    ResolveBySpelling(s, MaxTokens);
    ParseDecimalRoundTrip(5, "");
    assert IntToDecimal(5) + "" == "5";
    NumericFlagTakesValue(s, MaxTokens, "5", 5);
  }
}
