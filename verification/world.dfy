/**
 * The abstract world the analyzer runs in: which files exist, how large they
 * are, what each file imports, how the TypeScript project resolves a relative
 * import, and the path aliases read from the project configuration.
 */
module World {
  import opened Util

  /** An absolute file path; compared as a plain string. */
  type Path = string

  /**
   * `files` is what `fs.existsSync` (and `addSourceFileAtPathIfExists`)
   * accepts; `size` holds `fs.statSync(p).size` where stat succeeds; `imports`
   * is the import declarations' module specifiers of each file, in source
   * order; `edges` is what the TypeScript project answers for
   * `getModuleSpecifierSourceFile()` of a specifier written in a file.
   */
  datatype World = World(
    files: set<Path>,
    size: map<Path, nat>,
    imports: map<Path, seq<string>>,
    edges: map<(Path, string), Path>)

  /** One entry of `compilerOptions.paths`: a key and its replacement templates. */
  datatype AliasRule = AliasRule(key: string, replacements: seq<string>)

  /** The result of reading the project configuration: `paths` in declaration order and `baseUrl`. */
  datatype AliasConfig = AliasConfig(paths: seq<AliasRule>, baseUrl: Path)

  /** Size of a file on disk; a failing `stat` counts as zero bytes. */
  function Stat(w: World, p: Path): (n: nat)
    ensures p !in w.size ==> n == 0
    ensures p in w.size ==> n == w.size[p]
  {
    if p in w.size then w.size[p] else 0
  }

  /** The module specifiers of a file's import declarations (none for a file nobody parsed). */
  function Imports(w: World, p: Path): seq<string>
  {
    if p in w.imports then w.imports[p] else []
  }

  /** The path of the source file the TypeScript project resolves a specifier to, if any. */
  function ModuleSpecifierSourceFile(w: World, importer: Path, spec: string): Option<Path>
  {
    if (importer, spec) in w.edges then Some(w.edges[(importer, spec)]) else None
  }

  /** Alias resolution runs only when both the paths table and a non-empty baseUrl are present. */
  predicate AliasesEnabled(cfg: Option<AliasConfig>)
  {
    cfg.Some? && cfg.value.baseUrl != ""
  }

  /** `path.join(dir, name)` without normalisation. */
  function Join(dir: Path, name: string): (p: Path)
    ensures StartsWith(p, dir + "/") && |p| == |dir| + 1 + |name|
  {
    dir + "/" + name
  }

  /**
   * `path.resolve(base, rel)` without normalisation: the result always ends
   * with `rel`; an absolute `rel` is the result; otherwise `rel` is placed
   * below `base`, after one separator.
   */
  function ResolvePath(base: Path, rel: string): (p: Path)
    ensures EndsWith(p, rel)
    ensures StartsWith(rel, "/") ==> p == rel
    ensures !StartsWith(rel, "/") ==> StartsWith(p, base)
    ensures !StartsWith(rel, "/") && rel != "" ==> |p| == |base| + 1 + |rel| && p[|base|] == '/'
    ensures rel == "" ==> |p| == |base|
  {
    if StartsWith(rel, "/") then rel
    else if rel == "" then base
    else Join(base, rel)
  }

  /** `path.dirname(p)`: everything before the last separator (`/` for a top-level file, `.` without one). */
  function Dirname(p: Path): (d: Path)
    ensures '/' !in p ==> d == "."
    ensures '/' in p ==> exists i :: 0 <= i < |p| && p[i] == '/' && '/' !in p[i + 1..] &&
                                   d == (if i == 0 then "/" else p[..i])
  {
    match LastIndexOf(p, '/')
    case None => "."
    case Some(i) => if i == 0 then "/" else p[..i]
  }

  /** `path.basename(p)`: everything after the last separator. */
  function Basename(p: Path): (b: string)
    ensures '/' !in b
    ensures '/' !in p ==> b == p
    ensures EndsWith(p, b)
    ensures '/' in p ==> |b| < |p| && p[|p| - |b| - 1] == '/'
  {
    match LastIndexOf(p, '/')
    case None => p
    case Some(i) => p[i + 1..]
  }
}
