/**
 * The target-match rule shared by find mode (`importContainsPackage`) and
 * chain tracing: exact, sub-path, or basename without a script extension.
 */
module Matcher {
  import opened Util
  import opened World

  /** `s.replace(/\.(tsx?|jsx?)$/, '')`: one trailing `.ts`, `.tsx`, `.js` or `.jsx` removed. */
  function StripScriptExt(s: string): string
  {
    if EndsWith(s, ".tsx") then s[..|s| - 4]
    else if EndsWith(s, ".ts") then s[..|s| - 3]
    else if EndsWith(s, ".jsx") then s[..|s| - 4]
    else if EndsWith(s, ".js") then s[..|s| - 3]
    else s
  }

  /** Whether one import specifier names the target. */
  predicate Matches(spec: string, target: string)
  {
    spec == target ||
    StartsWith(spec, target + "/") ||
    StripScriptExt(Basename(spec)) == target
  }

  /** `imports.some(...)`: some direct import names the target. */
  function ContainsPackage(imports: seq<string>, target: string): bool
  {
    if imports == [] then false
    else if Matches(imports[0], target) then true
    else ContainsPackage(imports[1..], target)
  }

  /** Direct imports only: the scan holds iff one of the listed specifiers matches. */
  lemma {:induction false} ContainsPackageIff(imports: seq<string>, target: string)
    ensures ContainsPackage(imports, target) <==> exists i :: 0 <= i < |imports| && Matches(imports[i], target)
  {
    if imports != [] && !Matches(imports[0], target) {
      ContainsPackageIff(imports[1..], target);
      assert forall i :: 1 <= i < |imports| ==> imports[i] == imports[1..][i - 1];
    }
  }

  /** `importContainsPackage` on a source file: only the file's own import list is consulted. */
  predicate FileImportsTarget(w: World, file: Path, target: string)
  {
    ContainsPackage(Imports(w, file), target)
  }

  /** Any sub-path of the target matches it. */
  lemma SubpathMatches(target: string, rest: string)
    ensures Matches(target + "/" + rest, target)
  {
    assert (target + "/" + rest)[..|target + "/"|] == target + "/";
  }

  /** The basename of `dir/file` is `file` when `file` holds no separator. */
  lemma BasenameOfJoin(dir: string, file: string)
    requires '/' !in file
    ensures Basename(dir + "/" + file) == file
  {
    var p := dir + "/" + file;
    assert p[|dir|] == '/';
    assert p[|dir| + 1..] == file;
  }

  lemma StripTs(name: string)
    ensures StripScriptExt(name + ".ts") == name
  {
    var file := name + ".ts";
    assert file[..|name|] == name;
    assert file[|file| - 1] == 's';
    assert !EndsWith(file, ".tsx");
    assert file[|file| - 3..] == ".ts";
  }

  lemma StripTsx(name: string)
    ensures StripScriptExt(name + ".tsx") == name
  {
    var file := name + ".tsx";
    assert file[..|name|] == name;
    assert file[|file| - 4..] == ".tsx";
  }

  lemma StripJs(name: string)
    ensures StripScriptExt(name + ".js") == name
  {
    var file := name + ".js";
    assert file[..|name|] == name;
    assert file[|file| - 1] == 's';
    assert file[|file| - 2] == 'j';
    assert !EndsWith(file, ".tsx");
    assert !EndsWith(file, ".ts");
    assert !EndsWith(file, ".jsx");
    assert file[|file| - 3..] == ".js";
  }

  lemma StripJsx(name: string)
    ensures StripScriptExt(name + ".jsx") == name
  {
    var file := name + ".jsx";
    assert file[..|name|] == name;
    assert file[|file| - 1] == 'x';
    assert file[|file| - 3] == 'j';
    assert !EndsWith(file, ".tsx");
    assert !EndsWith(file, ".ts");
    assert file[|file| - 4..] == ".jsx";
  }

  /** Stripping the script extension undoes appending it. */
  lemma StripAppendedExt(name: string, ext: string)
    requires ext == ".ts" || ext == ".tsx" || ext == ".js" || ext == ".jsx"
    ensures StripScriptExt(name + ext) == name
  {
    if ext == ".ts" { StripTs(name); }
    else if ext == ".tsx" { StripTsx(name); }
    else if ext == ".js" { StripJs(name); }
    else { StripJsx(name); }
  }

  /** A file import that names the target, with or without directories and a script extension, matches. */
  lemma ScriptFileMatches(dir: string, target: string, ext: string)
    requires '/' !in target
    requires ext == ".ts" || ext == ".tsx" || ext == ".js" || ext == ".jsx"
    ensures Matches(dir + "/" + target + ext, target)
    ensures Matches(target + ext, target)
  {
    var file := target + ext;
    assert '/' !in file by {
      forall k | 0 <= k < |file| ensures file[k] != '/' {
        if k < |target| { assert file[k] == target[k]; } else { assert file[k] == ext[k - |target|]; }
      }
    }
    BasenameOfJoin(dir, file);
    assert dir + "/" + target + ext == dir + "/" + file;
    StripAppendedExt(target, ext);
  }

  /**
   * A plain package name (no `/`, no script extension) matches only itself:
   * `lodash-es` does not match `lodash`.
   */
  lemma PlainNameMatchesOnlyItself(spec: string, target: string)
    requires '/' !in spec
    requires StripScriptExt(spec) == spec
    ensures Matches(spec, target) <==> spec == target
  {
    assert !StartsWith(spec, target + "/") by {
      if |target + "/"| <= |spec| {
        assert (target + "/")[|target|] == '/' != spec[|target|];
      }
    }
  }
}
