/** The two pure string helpers of the command-line front end:
    `normalizeArgKey` (lower-case, then drop every `-`) and `toKebabCase`
    (a `-` between a lower-case and an upper-case ASCII letter, then
    lower-case). */
module ArgKeys {

  predicate IsUpper(c: char) { 'A' <= c <= 'Z' }

  predicate IsLower(c: char) { 'a' <= c <= 'z' }

  /** String.prototype.toLowerCase on one character, restricted to ASCII. */
  function LowerChar(c: char): char {
    if IsUpper(c) then (c as int - 'A' as int + 'a' as int) as char else c
  }

  /** No character of `s` is an upper-case ASCII letter. */
  predicate NoUpper(s: string) {
    forall i | 0 <= i < |s| :: !IsUpper(s[i])
  }

  /** `String.prototype.toLowerCase`, restricted to ASCII: the result has no
      upper-case letter, and a string without one is left alone. */
  function Lower(s: string): (r: string)
    ensures NoUpper(r)
    ensures NoUpper(s) ==> r == s
  {
    seq(|s|, i requires 0 <= i < |s| => LowerChar(s[i]))
  }

  /** `s.replace(/-/g, '')`. */
  function RemoveHyphens(s: string): string {
    if s == [] then []
    else (if s[0] == '-' then [] else [s[0]]) + RemoveHyphens(s[1..])
  }

  /** `normalizeArgKey(key)`: `key.toLowerCase().replace(/-/g, '')`. The
      result has no hyphen and no upper-case letter, and is never longer
      than the key. */
  function NormalizeArgKey(key: string): (r: string)
    ensures '-' !in r && NoUpper(r) && |r| <= |key|
  {
    RemoveHyphensShape(Lower(key));
    RemoveHyphens(Lower(key))
  }

  /** `str.replace(/([a-z])([A-Z])/g, '$1-$2')`: the global replace scans left
      to right and resumes after each match. It keeps the first character
      and only adds hyphens. Where the hyphens go is stated by
      `InsertHyphensSplitsPairs` and `InsertHyphensHyphenSites`; with the
      round trip through `RemoveHyphens` these fix the result. */
  function InsertHyphens(s: string): (r: string)
    ensures |s| <= |r|
    ensures |s| > 0 ==> r[0] == s[0]
    ensures '-' !in s ==> RemoveHyphens(r) == s
    decreases |s|
  {
    if |s| < 2 then
      ShortHyphenFree(s);
      s
    else if IsLower(s[0]) && IsUpper(s[1]) then
      var rest := InsertHyphens(s[2..]);
      RemoveHyphensAppend([s[0], '-', s[1]], rest);
      assert s == [s[0], s[1]] + s[2..];
      assert RemoveHyphens([s[0], '-', s[1]]) == [s[0], s[1]] by {
        assert [s[0], '-', s[1]][1..] == ['-', s[1]] && ['-', s[1]][1..] == [s[1]];
        assert [s[1]][1..] == [];
        assert RemoveHyphens([s[1]]) == [s[1]];
        assert RemoveHyphens(['-', s[1]]) == [s[1]];
      }
      [s[0], '-', s[1]] + rest
    else
      var rest := InsertHyphens(s[1..]);
      RemoveHyphensAppend([s[0]], rest);
      assert s == [s[0]] + s[1..];
      [s[0]] + rest
  }

  lemma ShortHyphenFree(s: string)
    requires |s| < 2
    ensures '-' !in s ==> RemoveHyphens(s) == s
  {
    if s != [] {
      assert s[1..] == [];
    }
  }

  /** No lower-case letter stands directly before an upper-case one. */
  predicate NoLowerUpperPair(r: string) {
    forall i | 0 <= i < |r| - 1 :: !(IsLower(r[i]) && IsUpper(r[i + 1]))
  }

  /** Every `-` stands between a lower-case and an upper-case letter. */
  predicate HyphensSplitPairs(r: string) {
    forall i | 0 <= i < |r| && r[i] == '-' ::
      0 < i < |r| - 1 && IsLower(r[i - 1]) && IsUpper(r[i + 1])
  }

  /** The replace leaves no lower-case letter directly before an upper-case
      one. */
  lemma {:induction false} InsertHyphensSplitsPairs(s: string)
    ensures NoLowerUpperPair(InsertHyphens(s))
    decreases |s|
  {
    if |s| < 2 {
    } else if IsLower(s[0]) && IsUpper(s[1]) {
      var rest := InsertHyphens(s[2..]);
      InsertHyphensSplitsPairs(s[2..]);
      assert NoLowerUpperPair(rest);
      var r := [s[0], '-', s[1]] + rest;
      assert InsertHyphens(s) == r;
      forall i | 0 <= i < |r| - 1
        ensures !(IsLower(r[i]) && IsUpper(r[i + 1]))
      {
        if i >= 3 {
          assert r[i] == rest[i - 3] && r[i + 1] == rest[i - 2];
        } else {
          assert r[0] == s[0] && r[1] == '-' && r[2] == s[1];
        }
      }
    } else {
      var rest := InsertHyphens(s[1..]);
      InsertHyphensSplitsPairs(s[1..]);
      assert NoLowerUpperPair(rest);
      var r := [s[0]] + rest;
      assert InsertHyphens(s) == r;
      forall i | 0 <= i < |r| - 1
        ensures !(IsLower(r[i]) && IsUpper(r[i + 1]))
      {
        if i >= 1 {
          assert r[i] == rest[i - 1] && r[i + 1] == rest[i];
        } else {
          assert rest[0] == s[1..][0] == s[1];
          assert r[0] == s[0] && r[1] == s[1];
        }
      }
    }
  }

  /** In a hyphen-free input, every `-` the replace adds stands between a
      lower-case letter and an upper-case one. */
  lemma {:induction false} InsertHyphensHyphenSites(s: string)
    requires '-' !in s
    ensures HyphensSplitPairs(InsertHyphens(s))
    decreases |s|
  {
    if |s| < 2 {
    } else if IsLower(s[0]) && IsUpper(s[1]) {
      assert '-' !in s[2..] by { assert forall c | c in s[2..] :: c in s; }
      var rest := InsertHyphens(s[2..]);
      InsertHyphensHyphenSites(s[2..]);
      assert HyphensSplitPairs(rest);
      var r := [s[0], '-', s[1]] + rest;
      assert InsertHyphens(s) == r;
      forall i | 0 <= i < |r| && r[i] == '-'
        ensures 0 < i < |r| - 1 && IsLower(r[i - 1]) && IsUpper(r[i + 1])
      {
        assert r[0] == s[0] && r[1] == '-' && r[2] == s[1];
        if i >= 3 {
          var j := i - 3;
          assert r[i] == rest[j];
          assert r[i - 1] == rest[j - 1] && r[i + 1] == rest[j + 1];
        }
      }
    } else {
      assert '-' !in s[1..] by { assert forall c | c in s[1..] :: c in s; }
      var rest := InsertHyphens(s[1..]);
      InsertHyphensHyphenSites(s[1..]);
      assert HyphensSplitPairs(rest);
      var r := [s[0]] + rest;
      assert InsertHyphens(s) == r;
      forall i | 0 <= i < |r| && r[i] == '-'
        ensures 0 < i < |r| - 1 && IsLower(r[i - 1]) && IsUpper(r[i + 1])
      {
        var j := i - 1;
        assert r[i] == rest[j];
        assert r[i - 1] == rest[j - 1] && r[i + 1] == rest[j + 1];
      }
    }
  }

  /** A camelCase word with one hump: a lower-case run, one upper-case
      letter, then no upper-case letter. The replace splits it once. */
  lemma {:induction false} InsertHyphensOneHump(a: string, u: char, c: string)
    requires |a| > 0 && NoUpper(a) && IsLower(a[|a| - 1])
    requires IsUpper(u) && NoUpper(c)
    ensures InsertHyphens(a + [u] + c) == a + ['-', u] + c
    decreases |a|
  {
    var s := a + [u] + c;
    if |a| == 1 {
      HumpAtStart(a, u, c);
      UnfoldPair(s);
      InsertHyphensNoUpper(c);
    } else {
      HumpLater(a, u, c);
      UnfoldKeep(s);
      InsertHyphensOneHump(a[1..], u, c);
    }
  }

  /** The replace at a lower/upper pair: the pair is split and the scan
      resumes after it. */
  lemma UnfoldPair(s: string)
    requires |s| >= 2 && IsLower(s[0]) && IsUpper(s[1])
    ensures InsertHyphens(s) == [s[0], '-', s[1]] + InsertHyphens(s[2..])
  {
  }

  /** The replace elsewhere: the first character is kept. */
  lemma UnfoldKeep(s: string)
    requires |s| >= 2 && !(IsLower(s[0]) && IsUpper(s[1]))
    ensures InsertHyphens(s) == [s[0]] + InsertHyphens(s[1..])
  {
  }

  /** How `a + [u] + c` splits when `a` is one letter. */
  lemma HumpAtStart(a: string, u: char, c: string)
    requires |a| == 1 && IsLower(a[0]) && IsUpper(u)
    ensures var s := a + [u] + c;
      |s| >= 2 && IsLower(s[0]) && IsUpper(s[1]) && s[2..] == c
      && a + ['-', u] + c == [s[0], '-', s[1]] + c
  {
  }

  /** How `a + [u] + c` splits when `a` is longer: the rest of the run still
      ends in a lower-case letter. */
  lemma HumpLater(a: string, u: char, c: string)
    requires |a| > 1 && NoUpper(a) && IsLower(a[|a| - 1])
    ensures var b, s := a[1..], a + [u] + c;
      |b| > 0 && NoUpper(b) && IsLower(b[|b| - 1])
      && |s| >= 2 && !IsUpper(s[1]) && s[1..] == b + [u] + c
      && a + ['-', u] + c == [s[0]] + (b + ['-', u] + c)
  {
    var b := a[1..];
    assert forall i | 0 <= i < |b| :: b[i] == a[i + 1];
  }

  /** The kebab-case of a one-hump word: the hump becomes `-` and its
      lower-case letter. */
  lemma KebabOneHump(a: string, u: char, c: string)
    requires |a| > 0 && NoUpper(a) && IsLower(a[|a| - 1])
    requires IsUpper(u) && NoUpper(c)
    ensures ToKebabCase(a + [u] + c) == a + ['-', LowerChar(u)] + c
  {
    InsertHyphensOneHump(a, u, c);
    var r := a + ['-', u] + c;
    assert Lower(r) == Lower(a) + Lower(['-', u]) + Lower(c);
  }

  /** `toKebabCase(str)`. */
  function ToKebabCase(s: string): (r: string)
    ensures NoUpper(r)
  {
    Lower(InsertHyphens(s))
  }

  /** Without upper-case letters there is no pair to split: kebab-case
      leaves the string as it is. */
  lemma {:induction false} KebabOfLowerCase(s: string)
    requires NoUpper(s)
    ensures ToKebabCase(s) == s
  {
    InsertHyphensNoUpper(s);
  }

  lemma {:induction false} InsertHyphensNoUpper(s: string)
    requires NoUpper(s)
    ensures InsertHyphens(s) == s
    decreases |s|
  {
    if |s| >= 2 {
      assert !IsUpper(s[1]);
      InsertHyphensNoUpper(s[1..]);
      assert s == [s[0]] + s[1..];
    }
  }

  lemma {:induction false} RemoveHyphensFixed(s: string)
    requires '-' !in s
    ensures RemoveHyphens(s) == s
  {
    if s != [] {
      RemoveHyphensFixed(s[1..]);
    }
  }

  lemma {:induction false} RemoveHyphensAppend(a: string, b: string)
    ensures RemoveHyphens(a + b) == RemoveHyphens(a) + RemoveHyphens(b)
  {
    if a == [] {
      assert a + b == b;
    } else {
      assert (a + b)[1..] == a[1..] + b;
      RemoveHyphensAppend(a[1..], b);
    }
  }

  lemma {:induction false} NormalizeAppend(a: string, b: string)
    ensures NormalizeArgKey(a + b) == NormalizeArgKey(a) + NormalizeArgKey(b)
  {
    assert Lower(a + b) == Lower(a) + Lower(b);
    RemoveHyphensAppend(Lower(a), Lower(b));
  }

  lemma {:induction false} RemoveHyphensShape(s: string)
    ensures '-' !in RemoveHyphens(s)
    ensures |RemoveHyphens(s)| <= |s|
    ensures NoUpper(s) ==> NoUpper(RemoveHyphens(s))
  {
    if s != [] {
      RemoveHyphensShape(s[1..]);
    }
  }

  /** A key that is already normalized is left alone. */
  lemma {:induction false} NormalizeFixed(s: string)
    requires '-' !in s
    requires NoUpper(s)
    ensures NormalizeArgKey(s) == s
  {
    assert Lower(s) == s;
    RemoveHyphensFixed(s);
  }

  /** Without hyphens, normalizing is lower-casing. */
  lemma NormalizeNoHyphen(s: string)
    requires '-' !in s
    ensures NormalizeArgKey(s) == Lower(s)
  {
    RemoveHyphensFixed(Lower(s));
  }

  /** normalizeArgKey is idempotent. */
  lemma NormalizeIdempotent(s: string)
    ensures NormalizeArgKey(NormalizeArgKey(s)) == NormalizeArgKey(s)
  {
    NormalizeFixed(NormalizeArgKey(s));
  }

  /** The front end lower-cases a key before normalizing it again; the extra
      lower-casing changes nothing. */
  lemma NormalizeLower(s: string)
    ensures NormalizeArgKey(Lower(s)) == NormalizeArgKey(s)
  {
    assert Lower(Lower(s)) == Lower(s);
  }

  /** A hyphen between two characters is dropped by normalization. */
  lemma NormalizeHyphenPair(a: char, b: char)
    ensures NormalizeArgKey([a, '-', b]) == NormalizeArgKey([a, b])
  {
    var x, y := LowerChar(a), LowerChar(b);
    assert Lower([a, '-', b]) == [x, '-', y];
    assert Lower([a, b]) == [x, y];
    assert [x, '-', y][1..] == ['-', y] && ['-', y][1..] == [y];
    assert [x, y][1..] == [y];
    assert RemoveHyphens(['-', y]) == RemoveHyphens([y]);
    assert RemoveHyphens([x, '-', y]) == (if x == '-' then [] else [x]) + RemoveHyphens([y]);
    assert RemoveHyphens([x, y]) == (if x == '-' then [] else [x]) + RemoveHyphens([y]);
  }

  lemma {:induction false} NormalizeInsertHyphens(s: string)
    ensures NormalizeArgKey(InsertHyphens(s)) == NormalizeArgKey(s)
    decreases |s|
  {
    if |s| < 2 {
    } else if IsLower(s[0]) && IsUpper(s[1]) {
      var rest := s[2..];
      NormalizeInsertHyphens(rest);
      NormalizeAppend([s[0], '-', s[1]], InsertHyphens(rest));
      NormalizeAppend([s[0], s[1]], rest);
      NormalizeHyphenPair(s[0], s[1]);
      assert s == [s[0], s[1]] + rest;
    } else {
      var rest := s[1..];
      NormalizeInsertHyphens(rest);
      NormalizeAppend([s[0]], InsertHyphens(rest));
      NormalizeAppend([s[0]], rest);
      assert s == [s[0]] + rest;
    }
  }

  /** The kebab-case rendering of any name normalizes back to the name's own
      normalization: the flag spelling printed for a key resolves to it. */
  lemma NormalizeKebab(s: string)
    ensures NormalizeArgKey(ToKebabCase(s)) == NormalizeArgKey(s)
  {
    NormalizeLower(InsertHyphens(s));
    NormalizeInsertHyphens(s);
  }
}
