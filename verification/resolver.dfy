/**
 * Turning an import specifier into a file: the extension and `index` probing,
 * the tsconfig path aliases, and the relative/external classification.
 */
module Resolver {
  import opened Util
  import opened World

  /** The extensions probed, in order, by the resolver and by chain tracing. */
  const ScriptExts: seq<string> := [".ts", ".tsx", ".js", ".jsx", ".mjs"]

  /** `base + ext` for each extension, in order. */
  function Suffixed(base: Path, exts: seq<string>): (r: seq<Path>)
    ensures |r| == |exts|
    ensures forall k :: 0 <= k < |exts| ==> r[k] == base + exts[k]
  {
    seq(|exts|, k requires 0 <= k < |exts| => base + exts[k])
  }

  /** `path.join(dir, "index" + ext)` for each of the five extensions, in order. */
  function IndexFiles(dir: Path): (r: seq<Path>)
    ensures |r| == |ScriptExts|
    ensures forall k :: 0 <= k < |ScriptExts| ==> r[k] == Join(dir, "index" + ScriptExts[k])
  {
    seq(|ScriptExts|, k requires 0 <= k < |ScriptExts| => Join(dir, "index" + ScriptExts[k]))
  }

  /** The ten paths `resolveImport` tries for a base path, in the order it tries them. */
  function Candidates(full: Path): seq<Path>
  {
    Suffixed(full, ScriptExts) + IndexFiles(full)
  }

  /** The first candidate that exists: a loop of `existsSync` probes with an early return. */
  function FirstExisting(cands: seq<Path>, files: set<Path>): (r: Option<Path>)
    ensures r.Some? ==> r.value in files
  {
    if cands == [] then None
    else if cands[0] in files then Some(cands[0])
    else FirstExisting(cands[1..], files)
  }

  /** First hit: the result is the earliest existing candidate, and null only when none exists. */
  lemma {:induction false} FirstExistingIsFirstHit(cands: seq<Path>, files: set<Path>)
    ensures var r := FirstExisting(cands, files);
      && (r.None? <==> forall i :: 0 <= i < |cands| ==> cands[i] !in files)
      && (r.Some? ==> exists i :: 0 <= i < |cands| && cands[i] == r.value &&
                        forall j :: 0 <= j < i ==> cands[j] !in files)
  {
    if cands == [] {
    } else if cands[0] in files {
      assert FirstExisting(cands, files) == Some(cands[0]);
    } else {
      var rest := cands[1..];
      FirstExistingIsFirstHit(rest, files);
      var r := FirstExisting(rest, files);
      assert FirstExisting(cands, files) == r;
      if r.Some? {
        var i :| 0 <= i < |rest| && rest[i] == r.value && forall j :: 0 <= j < i ==> rest[j] !in files;
        forall j | 0 <= j < i + 1 ensures cands[j] !in files {
          if j > 0 { assert cands[j] == rest[j - 1]; }
        }
        assert cands[i + 1] == r.value;
      } else {
        forall i | 0 <= i < |cands| ensures cands[i] !in files {
          if i > 0 { assert cands[i] == rest[i - 1]; }
        }
      }
    }
  }

  /** The same search written as the source's `for … of` loop with an early exit. */
  method Probe(cands: seq<Path>, files: set<Path>) returns (r: Option<Path>)
    ensures r == FirstExisting(cands, files)
  {
    var k := 0;
    while k < |cands|
      invariant 0 <= k <= |cands|
      invariant FirstExisting(cands, files) == FirstExisting(cands[k..], files)
    {
      if cands[k] in files {
        return Some(cands[k]);
      }
      assert cands[k..][1..] == cands[k + 1..];
      k := k + 1;
    }
    return None;
  }

  /** A specifier that starts with `.` or `/` is resolved against the importing file. */
  predicate IsRelative(spec: string)
  {
    StartsWith(spec, ".") || StartsWith(spec, "/")
  }

  /** The walkers' classification: external iff not relative (aliases included). */
  predicate IsExternal(spec: string)
  {
    !IsRelative(spec)
  }

  /**
   * Matching a specifier against an alias key, the anchored regular expression
   * `^key$` with every `*` turned into `(.*)`; the capture of the first group,
   * or "" when the key has no `*`. The key is split at its first `*`; keys are
   * assumed to hold no other regular-expression metacharacter.
   */
  function KeyMatch(key: string, spec: string): Option<string>
  {
    match IndexOf(key, '*')
    case None => if spec == key then Some("") else None
    case Some(i) =>
      var prefix, suffix := key[..i], key[i + 1..];
      if |prefix| + |suffix| <= |spec| && StartsWith(spec, prefix) && EndsWith(spec, suffix)
      then Some(spec[|prefix|..|spec| - |suffix|])
      else None
  }

  /** `template.replace('*', capture)`: only the first `*` is substituted. */
  function ReplaceStar(template: string, capture: string): string
  {
    match IndexOf(template, '*')
    case None => template
    case Some(i) => template[..i] + capture + template[i + 1..]
  }

  /** A key matches exactly the strings obtained by putting a capture in place of its `*`. */
  lemma KeyMatchIsReplaceStar(key: string, spec: string)
    ensures KeyMatch(key, spec).Some? ==> spec == ReplaceStar(key, KeyMatch(key, spec).value)
    ensures '*' !in key ==> (KeyMatch(key, spec).Some? <==> spec == key)
    ensures '*' !in key && KeyMatch(key, spec).Some? ==> KeyMatch(key, spec).value == ""
  {
    match IndexOf(key, '*')
    case None =>
    case Some(i) =>
      if KeyMatch(key, spec).Some? {
        var prefix, suffix := key[..i], key[i + 1..];
        var cap := spec[|prefix|..|spec| - |suffix|];
        assert spec == spec[..|prefix|] + cap + spec[|spec| - |suffix|..];
      }
  }

  /** Filling a key's `*` with any capture gives a specifier the key matches with that capture. */
  lemma ReplaceStarIsMatched(key: string, capture: string)
    requires '*' in key
    ensures KeyMatch(key, ReplaceStar(key, capture)) == Some(capture)
  {
    var i := IndexOf(key, '*').value;
    var prefix, suffix := key[..i], key[i + 1..];
    var spec := prefix + capture + suffix;
    assert spec[..|prefix|] == prefix;
    assert spec[|spec| - |suffix|..] == suffix;
    assert spec[|prefix|..|spec| - |suffix|] == capture;
  }

  /** An alias rule is taken when its key matches and it lists at least one replacement. */
  predicate Qualifies(rule: AliasRule, spec: string)
  {
    KeyMatch(rule.key, spec).Some? && |rule.replacements| > 0
  }

  /** Rule `i` is the first that qualifies. */
  predicate FirstQualifying(rules: seq<AliasRule>, spec: string, i: nat)
  {
    i < |rules| && Qualifies(rules[i], spec) &&
    forall j :: 0 <= j < i ==> !Qualifies(rules[j], spec)
  }

  /** `path.resolve(baseUrl, replacements[0].replace('*', capture))` for a qualifying rule. */
  function AliasTarget(rule: AliasRule, spec: string, baseUrl: Path): Path
    requires Qualifies(rule, spec)
  {
    ResolvePath(baseUrl, ReplaceStar(rule.replacements[0], KeyMatch(rule.key, spec).value))
  }

  /** `resolveAliasImport`: the rules in declaration order, stopping at the first that qualifies. */
  function ResolveAlias(spec: string, rules: seq<AliasRule>, baseUrl: Path): Option<Path>
  {
    if rules == [] then None
    else if Qualifies(rules[0], spec) then Some(AliasTarget(rules[0], spec, baseUrl))
    else ResolveAlias(spec, rules[1..], baseUrl)
  }

  /** First match wins: the first qualifying rule decides, and null means that no rule qualifies. */
  lemma {:induction false} ResolveAliasFirstMatch(spec: string, rules: seq<AliasRule>, baseUrl: Path)
    ensures var r := ResolveAlias(spec, rules, baseUrl);
      && (r.None? <==> forall i :: 0 <= i < |rules| ==> !Qualifies(rules[i], spec))
      && (r.Some? ==> exists i: nat :: FirstQualifying(rules, spec, i) && r.value == AliasTarget(rules[i], spec, baseUrl))
  {
    if rules != [] {
      var rest := rules[1..];
      if Qualifies(rules[0], spec) {
        assert FirstQualifying(rules, spec, 0);
      } else {
        ResolveAliasFirstMatch(spec, rest, baseUrl);
        var r := ResolveAlias(spec, rest, baseUrl);
        assert ResolveAlias(spec, rules, baseUrl) == r;
        if r.Some? {
          var i: nat :| FirstQualifying(rest, spec, i) && r.value == AliasTarget(rest[i], spec, baseUrl);
          assert rules[i + 1] == rest[i];
          forall j | 0 <= j < i + 1 ensures !Qualifies(rules[j], spec) {
            if j > 0 { assert rules[j] == rest[j - 1]; }
          }
          assert FirstQualifying(rules, spec, i + 1);
        } else {
          forall j | 0 <= j < |rules| ensures !Qualifies(rules[j], spec) {
            if j > 0 { assert rules[j] == rest[j - 1]; }
          }
        }
      }
    }
  }

  /**
   * `resolveImport`: a relative specifier is probed against the importing
   * file's directory, a bare one through the aliases; anything else is null.
   */
  function ResolveImport(w: World, cfg: Option<AliasConfig>, importer: Path, spec: string): (r: Option<Path>)
    ensures r.Some? ==> r.value in w.files
  {
    if IsRelative(spec) then
      FirstExisting(Candidates(ResolvePath(Dirname(importer), spec)), w.files)
    else if AliasesEnabled(cfg) then
      match ResolveAlias(spec, cfg.value.paths, cfg.value.baseUrl)
      case None => None
      case Some(a) => FirstExisting(Candidates(a), w.files)
    else None
  }
}

module ResolverFacts {
  import opened Util
  import opened World
  import opened Resolver

  /** Probing a list made of two groups probes the whole first group before the second. */
  lemma {:induction false} FirstExistingConcat(a: seq<Path>, b: seq<Path>, files: set<Path>)
    ensures FirstExisting(a + b, files) ==
      if FirstExisting(a, files).Some? then FirstExisting(a, files) else FirstExisting(b, files)
  {
    if a != [] {
      assert (a + b)[1..] == a[1..] + b;
      FirstExistingConcat(a[1..], b, files);
    } else {
      assert a + b == b;
    }
  }

  /**
   * The probing order of one base path: the `full + ext` files in extension
   * order, then the `full/index + ext` files; `.ts` beats everything, the
   * un-suffixed path is never returned, and nothing is found only when all
   * ten candidates are missing.
   */
  lemma CandidateOrder(full: Path, files: set<Path>)
    ensures var r := FirstExisting(Candidates(full), files);
      var direct := FirstExisting(Suffixed(full, ScriptExts), files);
      && r == (if direct.Some? then direct else FirstExisting(IndexFiles(full), files))
      && (r.None? <==> forall k :: 0 <= k < |ScriptExts| ==>
            full + ScriptExts[k] !in files && Join(full, "index" + ScriptExts[k]) !in files)
      && (r.Some? ==> r.value in files && |r.value| > |full|)
      && (full + ".ts" in files ==> r == Some(full + ".ts"))
  {
    var d, x := Suffixed(full, ScriptExts), IndexFiles(full);
    FirstExistingConcat(d, x, files);
    var r := FirstExisting(d + x, files);
    FirstExistingIsFirstHit(d, files);
    FirstExistingIsFirstHit(x, files);
    FirstExistingIsFirstHit(d + x, files);
    if r.Some? {
      var i :| 0 <= i < |d + x| && (d + x)[i] == r.value;
      if i < |d| {
        assert r.value == full + ScriptExts[i];
      } else {
        assert r.value == Join(full, "index" + ScriptExts[i - |d|]);
      }
    }
    if full + ".ts" in files {
      assert d[0] == full + ".ts";
    }
  }

  /** Relative specifiers: the ten candidates below the importer's directory, in order. */
  lemma RelativeResolution(w: World, cfg: Option<AliasConfig>, importer: Path, spec: string)
    requires IsRelative(spec)
    ensures var full := ResolvePath(Dirname(importer), spec);
      var r := ResolveImport(w, cfg, importer, spec);
      var direct := FirstExisting(Suffixed(full, ScriptExts), w.files);
      && r == (if direct.Some? then direct else FirstExisting(IndexFiles(full), w.files))
      && (r.None? <==> forall k :: 0 <= k < |ScriptExts| ==>
            full + ScriptExts[k] !in w.files && Join(full, "index" + ScriptExts[k]) !in w.files)
      && (r.Some? ==> r.value != full)
      && (full + ".ts" in w.files ==> r == Some(full + ".ts"))
  {
    CandidateOrder(ResolvePath(Dirname(importer), spec), w.files);
  }

  /**
   * Bare specifiers: resolved only through an alias, then probed like a
   * relative one below the alias target; without aliases, or when no alias
   * qualifies, the result is null.
   */
  lemma BareResolution(w: World, cfg: Option<AliasConfig>, importer: Path, spec: string)
    requires !IsRelative(spec)
    ensures var r := ResolveImport(w, cfg, importer, spec);
      && (!AliasesEnabled(cfg) ==> r.None?)
      && (AliasesEnabled(cfg) && (forall i :: 0 <= i < |cfg.value.paths| ==> !Qualifies(cfg.value.paths[i], spec)) ==> r.None?)
      && (r.Some? ==>
            && AliasesEnabled(cfg)
            && exists i: nat :: FirstQualifying(cfg.value.paths, spec, i) &&
                 r == FirstExisting(Candidates(AliasTarget(cfg.value.paths[i], spec, cfg.value.baseUrl)), w.files) &&
                 r.value != AliasTarget(cfg.value.paths[i], spec, cfg.value.baseUrl))
    ensures forall i: nat :: AliasesEnabled(cfg) && FirstQualifying(cfg.value.paths, spec, i) ==>
      ResolveImport(w, cfg, importer, spec) ==
        FirstExisting(Candidates(AliasTarget(cfg.value.paths[i], spec, cfg.value.baseUrl)), w.files)
  {
    if AliasesEnabled(cfg) {
      ResolveAliasFirstMatch(spec, cfg.value.paths, cfg.value.baseUrl);
      var a := ResolveAlias(spec, cfg.value.paths, cfg.value.baseUrl);
      if a.Some? {
        CandidateOrder(a.value, w.files);
      }
      forall i: nat | FirstQualifying(cfg.value.paths, spec, i)
        ensures ResolveImport(w, cfg, importer, spec) ==
          FirstExisting(Candidates(AliasTarget(cfg.value.paths[i], spec, cfg.value.baseUrl)), w.files)
      {
        FirstMatchWins(spec, cfg.value.paths, cfg.value.baseUrl, i);
      }
    }
  }
  /** Two rules that both match: only the first one's first replacement is used. */
  lemma FirstMatchWins(spec: string, rules: seq<AliasRule>, baseUrl: Path, i: nat)
    requires FirstQualifying(rules, spec, i)
    ensures ResolveAlias(spec, rules, baseUrl) == Some(AliasTarget(rules[i], spec, baseUrl))
  {
    ResolveAliasFirstMatch(spec, rules, baseUrl);
    var r := ResolveAlias(spec, rules, baseUrl);
    var j: nat :| FirstQualifying(rules, spec, j) && r.value == AliasTarget(rules[j], spec, baseUrl);
    assert j == i;
  }
}
