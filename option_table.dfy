/** The option table of the front end: the 21 canonical option keys, the map
    from normalized flag names to them (`OPTION_KEYS`), and the boolean and
    numeric kinds (`BOOLEAN_OPTIONS`, `NUMERIC_OPTIONS`); every other key takes
    a string. */
module OptionTable {
  import opened Wrappers
  import opened ArgKeys

  datatype OptionKey =
    // string options
    | Model | FromGithub | Output | SaveTo | Hint | Url | Screenshot
    | Viewport | Selector | Wait | Video | Evaluate
    // number options
    | MaxTokens | Timeout | ConnectTo
    // boolean options
    | Console | Html | Network | Headless | Text | Debug

  /** The canonical (camelCase) spelling of each key. */
  function Name(k: OptionKey): string {
    match k
    case Model => "model"
    case FromGithub => "fromGithub"
    case Output => "output"
    case SaveTo => "saveTo"
    case Hint => "hint"
    case Url => "url"
    case Screenshot => "screenshot"
    case Viewport => "viewport"
    case Selector => "selector"
    case Wait => "wait"
    case Video => "video"
    case Evaluate => "evaluate"
    case MaxTokens => "maxTokens"
    case Timeout => "timeout"
    case ConnectTo => "connectTo"
    case Console => "console"
    case Html => "html"
    case Network => "network"
    case Headless => "headless"
    case Text => "text"
    case Debug => "debug"
  }

  /** `OPTION_KEYS`: normalized flag name to option key. */
  const OptionKeys: map<string, OptionKey> := map[
    "model" := Model,
    "maxtokens" := MaxTokens,
    "output" := Output,
    "saveto" := SaveTo,
    "fromgithub" := FromGithub,
    "hint" := Hint,
    "url" := Url,
    "console" := Console,
    "html" := Html,
    "screenshot" := Screenshot,
    "network" := Network,
    "timeout" := Timeout,
    "viewport" := Viewport,
    "headless" := Headless,
    "connectto" := ConnectTo,
    "selector" := Selector,
    "text" := Text,
    "wait" := Wait,
    "debug" := Debug,
    "video" := Video,
    "evaluate" := Evaluate
  ]

  /** The values of `OPTION_KEYS` in insertion order, as the unknown-flag
      message lists them. */
  const AllKeys: seq<OptionKey> := [
    Model, MaxTokens, Output, SaveTo, FromGithub, Hint, Url, Console, Html,
    Screenshot, Network, Timeout, Viewport, Headless, ConnectTo, Selector,
    Text, Wait, Debug, Video, Evaluate
  ]

  const BooleanOptions: set<OptionKey> := {Console, Html, Network, Headless, Text, Debug}

  const NumericOptions: set<OptionKey> := {MaxTokens, Timeout, ConnectTo}

  /** `OPTION_KEYS[normalizeArgKey(key.toLowerCase())]`, with a missing entry
      as None. */
  function Resolve(key: string): Option<OptionKey> {
    var n := NormalizeArgKey(Lower(key));
    if n in OptionKeys then Some(OptionKeys[n]) else None
  }

  /** Resolving ignores the extra lower-casing: a key resolves exactly when
      its normalization is an entry of the table. */
  lemma ResolveByTable(key: string)
    ensures Resolve(key).Some? <==> NormalizeArgKey(key) in OptionKeys
    ensures Resolve(key).Some? ==> Resolve(key).value == OptionKeys[NormalizeArgKey(key)]
  {
    NormalizeLower(key);
  }

  /** The flag spellings listed after an unknown flag:
      `--` followed by the kebab-case of each key. */
  function ValidFlagList(): (r: seq<string>)
    ensures |r| == |AllKeys|
  {
    seq(|AllKeys|, i requires 0 <= i < |AllKeys| => "--" + ToKebabCase(Name(AllKeys[i])))
  }

  /** The normalized name under which `OPTION_KEYS` lists each key: the
      inverse of the table, written per key so that a lemma can name the
      entry of a key it is given. TableEntryMapsToKey ties the two together. */
  function TableEntry(k: OptionKey): string {
    match k
    case Model => "model"
    case FromGithub => "fromgithub"
    case Output => "output"
    case SaveTo => "saveto"
    case Hint => "hint"
    case Url => "url"
    case Screenshot => "screenshot"
    case Viewport => "viewport"
    case Selector => "selector"
    case Wait => "wait"
    case Video => "video"
    case Evaluate => "evaluate"
    case MaxTokens => "maxtokens"
    case Timeout => "timeout"
    case ConnectTo => "connectto"
    case Console => "console"
    case Html => "html"
    case Network => "network"
    case Headless => "headless"
    case Text => "text"
    case Debug => "debug"
  }

  // The facts about all 21 keys are proved a group of keys at a time (boolean,
  // numeric, the rest; names with and without an upper-case letter): one
  // proof over every key at once is costly for the solver, because each case
  // compares string literals against the whole table.

  lemma TableEntryMapsToKey(k: OptionKey)
    ensures TableEntry(k) in OptionKeys && OptionKeys[TableEntry(k)] == k
  {
    if k in BooleanOptions {
      BooleanEntries(k);
    } else if k in NumericOptions {
      NumericEntries(k);
    } else {
      StringEntries(k);
    }
  }

  lemma BooleanEntries(k: OptionKey)
    requires k in BooleanOptions
    ensures TableEntry(k) in OptionKeys && OptionKeys[TableEntry(k)] == k
  {
  }

  lemma NumericEntries(k: OptionKey)
    requires k in NumericOptions
    ensures TableEntry(k) in OptionKeys && OptionKeys[TableEntry(k)] == k
  {
  }

  lemma StringEntries(k: OptionKey)
    requires k !in BooleanOptions && k !in NumericOptions
    ensures TableEntry(k) in OptionKeys && OptionKeys[TableEntry(k)] == k
  {
  }

  lemma LowerName(k: OptionKey)
    ensures Lower(Name(k)) == TableEntry(k)
  {
    if k in {FromGithub, SaveTo, MaxTokens, ConnectTo} {
      LowerCamelName(k);
    } else {
      if k.Console? || k.Html? || k.Network? || k.Headless? || k.Text? || k.Debug? {
        BooleanNamesLower(k);
      } else {
        PlainNamesLower(k);
      }
    }
  }

  lemma BooleanNamesLower(k: OptionKey)
    requires k.Console? || k.Html? || k.Network? || k.Headless? || k.Text? || k.Debug?
    ensures Name(k) == TableEntry(k) && NoUpper(Name(k))
  {
  }

  lemma PlainNamesLower(k: OptionKey)
    requires !(k.Console? || k.Html? || k.Network? || k.Headless? || k.Text? || k.Debug?)
    requires k !in {FromGithub, SaveTo, MaxTokens, ConnectTo}
    ensures Name(k) == TableEntry(k) && NoUpper(Name(k))
  {
  }

  lemma LowerCamelName(k: OptionKey)
    requires k in {FromGithub, SaveTo, MaxTokens, ConnectTo}
    ensures Lower(Name(k)) == TableEntry(k)
  {
  }

  lemma NameHasNoHyphen(k: OptionKey)
    ensures '-' !in Name(k)
  {
  }

  /** Each canonical name normalizes to the table entry that maps to its key. */
  lemma NameIsTableEntry(k: OptionKey)
    ensures NormalizeArgKey(Name(k)) == TableEntry(k)
    ensures OptionKeys[NormalizeArgKey(Name(k))] == k
  {
    NameHasNoHyphen(k);
    NormalizeNoHyphen(Name(k));
    LowerName(k);
    TableEntryMapsToKey(k);
  }

  /** Every key's kebab-case flag resolves back to that key, so each flag the
      unknown-flag message lists is itself accepted. */
  lemma KebabFlagResolves(k: OptionKey)
    ensures Resolve(ToKebabCase(Name(k))) == Some(k)
  {
    NormalizeKebab(Name(k));
    ResolveBySpelling(ToKebabCase(Name(k)), k);
  }

  /** The flag spelling printed for each key: the four camelCase names gain a
      hyphen, the other names are already lower-case and stay as they are. */
  lemma KebabFlagSpelling(k: OptionKey)
    ensures ToKebabCase(Name(k)) ==
      match k
      case MaxTokens => "max-tokens"
      case FromGithub => "from-github"
      case SaveTo => "save-to"
      case ConnectTo => "connect-to"
      case _ => Name(k)
  {
    if k in {FromGithub, SaveTo, MaxTokens, ConnectTo} {
      CamelKebab(k);
    } else if k.Console? || k.Html? || k.Network? || k.Headless? || k.Text? || k.Debug? {
      BooleanNamesLower(k);
      KebabOfLowerCase(Name(k));
    } else {
      PlainNamesLower(k);
      KebabOfLowerCase(Name(k));
    }
  }

  lemma CamelKebab(k: OptionKey)
    requires k in {FromGithub, SaveTo, MaxTokens, ConnectTo}
    ensures ToKebabCase(Name(k)) ==
      match k
      case MaxTokens => "max-tokens"
      case FromGithub => "from-github"
      case SaveTo => "save-to"
      case _ => "connect-to"
  {
    match k
    case MaxTokens => KebabHump("max", 'T', "okens", "maxTokens", "max-tokens");
    case FromGithub => KebabHump("from", 'G', "ithub", "fromGithub", "from-github");
    case SaveTo => KebabHump("save", 'T', "o", "saveTo", "save-to");
    case ConnectTo => KebabHump("connect", 'T', "o", "connectTo", "connect-to");
  }

  lemma KebabHump(a: string, u: char, c: string, name: string, flag: string)
    requires |a| > 0 && NoUpper(a) && IsLower(a[|a| - 1])
    requires IsUpper(u) && NoUpper(c)
    requires name == a + [u] + c && flag == a + ['-', LowerChar(u)] + c
    ensures ToKebabCase(name) == flag
  {
    KebabOneHump(a, u, c);
  }

  lemma ValidFlagsAccepted(i: nat)
    requires i < |ValidFlagList()|
    ensures var f := ValidFlagList()[i];
      |f| >= 2 && f[..2] == "--" && Resolve(f[2..]) == Some(AllKeys[i])
  {
    var f := ValidFlagList()[i];
    assert f[2..] == ToKebabCase(Name(AllKeys[i]));
    KebabFlagResolves(AllKeys[i]);
  }

  /** The listed keys are pairwise distinct. */
  lemma AllKeysDistinct()
    ensures forall i, j | 0 <= i < j < |AllKeys| :: AllKeys[i] != AllKeys[j]
  {
  }

  /** The unknown-flag message lists each flag once: two positions of the
      list hold different flags, since they resolve to different keys. */
  lemma ValidFlagsDistinct(i: nat, j: nat)
    requires i < j < |ValidFlagList()|
    ensures ValidFlagList()[i] != ValidFlagList()[j]
  {
    AllKeysDistinct();
    ValidFlagsAccepted(i);
    ValidFlagsAccepted(j);
  }

  /** The listed keys are exactly the keys of the table. */
  lemma AllKeysComplete(k: OptionKey)
    ensures k in AllKeys
    ensures k in OptionKeys.Values
  {
    NameIsTableEntry(k);
  }

  /** Boolean and numeric kinds are disjoint. */
  lemma KindsDisjoint()
    ensures BooleanOptions * NumericOptions == {}
  {
  }

  /** No normalized flag name begins with `no`, so a `--no-` prefix can never
      be a spelling of a key. */
  lemma {:induction false} NoEntryStartsWithNo(n: string)
    requires n in OptionKeys
    ensures !(|n| >= 2 && n[0] == 'n' && n[1] == 'o')
  {
  }

  /** Any spelling that normalizes like a key's canonical name resolves to
      that key. */
  lemma ResolveBySpelling(s: string, k: OptionKey)
    requires NormalizeArgKey(s) == NormalizeArgKey(Name(k))
    ensures Resolve(s) == Some(k)
  {
    NameIsTableEntry(k);
    ResolveByTable(s);
  }

  /** Each entry of the table is the entry of the key it maps to. */
  lemma EntryOfTableKey(n: string)
    requires n in OptionKeys
    ensures TableEntry(OptionKeys[n]) == n
  {
  }

  /** A spelling resolves to a key only when it normalizes like the key's
      canonical name: with ResolveBySpelling, an if-and-only-if. */
  lemma ResolveOnlyBySpelling(s: string, k: OptionKey)
    ensures Resolve(s) == Some(k) <==> NormalizeArgKey(s) == NormalizeArgKey(Name(k))
  {
    if Resolve(s) == Some(k) {
      ResolveByTable(s);
      EntryOfTableKey(NormalizeArgKey(s));
      NameIsTableEntry(k);
    } else if NormalizeArgKey(s) == NormalizeArgKey(Name(k)) {
      ResolveBySpelling(s, k);
    }
  }

  /** `max-tokens` and `MAX-TOKENS` normalize like `maxTokens`, so by
      ResolveBySpelling all three resolve to MaxTokens. */
  lemma SpellingsOfMaxTokens()
    ensures NormalizeArgKey("max-tokens") == NormalizeArgKey(Name(MaxTokens))
    ensures NormalizeArgKey("MAX-TOKENS") == NormalizeArgKey(Name(MaxTokens))
  {
    CamelSpelling();
    LowerKebabSpelling();
    UpperKebabSpelling();
  }

  lemma LowerKebabSpelling()
    ensures NormalizeArgKey("max-tokens") == NormalizeArgKey("max") + NormalizeArgKey("tokens")
  {
    KebabSpelling("max", "tokens");
    assert "max" + "-" + "tokens" == "max-tokens";
  }

  /** The upper-case spelling lower-cases to the lower-case one. */
  lemma UpperKebabSpelling()
    ensures NormalizeArgKey("MAX-TOKENS") == NormalizeArgKey("max-tokens")
  {
    assert Lower("MAX-TOKENS") == "max-tokens";
    NormalizeLower("MAX-TOKENS");
  }

  lemma CamelSpelling()
    ensures NormalizeArgKey(Name(MaxTokens)) == NormalizeArgKey("max") + NormalizeArgKey("tokens")
  {
    NormalizeAppend("max", "Tokens");
    assert "max" + "Tokens" == Name(MaxTokens);
    assert Lower("Tokens") == Lower("tokens");
  }

  lemma KebabSpelling(a: string, b: string)
    requires Lower(a) == "max" == Lower("max") && Lower(b) == "tokens" == Lower("tokens")
    ensures NormalizeArgKey(a + "-" + b) == NormalizeArgKey("max") + NormalizeArgKey("tokens")
  {
    HyphenatedSpelling(a, b);
  }

  lemma HyphenatedSpelling(a: string, b: string)
    ensures NormalizeArgKey(a + "-" + b) == NormalizeArgKey(a) + NormalizeArgKey(b)
  {
    NormalizeAppend(a + "-", b);
    NormalizeAppend(a, "-");
    HyphenNormalizesAway();
  }

  lemma HyphenNormalizesAway()
    ensures NormalizeArgKey("-") == []
  {
    assert Lower("-") == "-";
    assert RemoveHyphens("-") == RemoveHyphens("-"[1..]);
  }
}
