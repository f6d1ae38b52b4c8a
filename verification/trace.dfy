/**
 * Trace mode: `traceImportChains`, a depth-first search over simple paths
 * that records the path stack whenever the current file imports the target.
 * The search is stated over a `Graph` value; `TraceGraph` is the graph the
 * analyzer searches.
 */
module ChainTrace {
  import opened Util
  import opened World
  import opened Resolver
  import opened Matcher

  /**
   * What the search needs to know of the world: the files it may enter, each
   * file's specifiers, the (at most two) files it follows for one specifier,
   * and whether a file's imports name the target.
   */
  datatype Graph = Graph(
    nodes: set<Path>,
    imports: Path -> seq<string>,
    targets: (Path, string) -> (Option<Path>, Option<Path>),
    hit: Path -> bool)

  /** The search only ever enters files of the graph. */
  ghost predicate Closed(g: Graph)
  {
    forall a, s :: (g.targets(a, s).0.Some? ==> g.targets(a, s).0.value in g.nodes) &&
                   (g.targets(a, s).1.Some? ==> g.targets(a, s).1.value in g.nodes)
  }

  /**
   * The files the search descends into for one specifier, in order: for a
   * relative specifier the TypeScript project's answer; for a bare one the
   * first existing `target + ext` and, independently, the first existing
   * `target/index + ext`, so that one alias can be followed twice.
   */
  function TraceTargets(w: World, cfg: Option<AliasConfig>, importer: Path, spec: string)
    : (r: (Option<Path>, Option<Path>))
    ensures r.0.Some? ==> r.0.value in w.files
    ensures r.1.Some? ==> r.1.value in w.files
    ensures IsRelative(spec) ==> r.1.None?
  {
    if IsRelative(spec) then
      var p := ModuleSpecifierSourceFile(w, importer, spec);
      (if p.Some? && p.value != "" && p.value in w.files then p else None, None)
    else if AliasesEnabled(cfg) then
      match ResolveAlias(spec, cfg.value.paths, cfg.value.baseUrl)
      case None => (None, None)
      case Some(a) => AliasProbes(w.files, a)
    else (None, None)
  }

  /** For an alias target `a`: the first existing `a + ext` and the first existing `a/index + ext`. */
  function AliasProbes(files: set<Path>, a: Path): (r: (Option<Path>, Option<Path>))
    ensures r.0.Some? ==> r.0.value in files
    ensures r.1.Some? ==> r.1.value in files
  {
    (FirstExisting(Suffixed(a, ScriptExts), files), FirstExisting(IndexFiles(a), files))
  }

  /** The graph `traceImportChains` searches for `target`. */
  function TraceGraph(w: World, cfg: Option<AliasConfig>, target: string): (g: Graph)
    ensures Closed(g) && g.nodes == w.files
  {
    Graph(w.files, f => Imports(w, f), (a, s) => TraceTargets(w, cfg, a, s), f => FileImportsTarget(w, f, target))
  }

  /** The chains recorded by a call on `file` with path stack `stack` and visited set `visited`. */
  function Trace(g: Graph, file: Path, stack: seq<Path>, visited: set<Path>): seq<seq<Path>>
    requires Closed(g) && file in g.nodes
    decreases g.nodes - visited, 0
  {
    if file in visited then []
    else if g.hit(file) then [stack + [file]]
    else TraceImports(g, file, g.imports(file), 0, stack + [file], visited + {file})
  }

  /** The chains recorded while following one specifier of `importer`. */
  function TraceSpecifier(g: Graph, importer: Path, spec: string, stack: seq<Path>, visited: set<Path>)
    : seq<seq<Path>>
    requires Closed(g)
    decreases g.nodes - visited, 3
  {
    TraceBoth(g, g.targets(importer, spec), stack, visited)
  }

  /** The chains recorded by descending into the first target, then into the second. */
  function TraceBoth(g: Graph, t: (Option<Path>, Option<Path>), stack: seq<Path>, visited: set<Path>)
    : seq<seq<Path>>
    requires Closed(g)
    requires t.0.Some? ==> t.0.value in g.nodes
    requires t.1.Some? ==> t.1.value in g.nodes
    decreases g.nodes - visited, 2
  {
    TraceFound(g, t.0, stack, visited) + TraceFound(g, t.1, stack, visited)
  }

  /** The chains recorded by descending into a file a probe found, if it found one. */
  function TraceFound(g: Graph, found: Option<Path>, stack: seq<Path>, visited: set<Path>): seq<seq<Path>>
    requires Closed(g)
    requires found.Some? ==> found.value in g.nodes
    decreases g.nodes - visited, 1
  {
    if found.Some? then Trace(g, found.value, stack, visited) else []
  }

  /** The chains recorded by the loop over `importer`'s specifiers from index `i` on. */
  function TraceImports(g: Graph, importer: Path, specs: seq<string>, i: nat,
                        stack: seq<Path>, visited: set<Path>): seq<seq<Path>>
    requires Closed(g) && i <= |specs|
    decreases g.nodes - visited, |specs| - i + 4
  {
    if i == |specs| then []
    else TraceSpecifier(g, importer, specs[i], stack, visited) + TraceImports(g, importer, specs, i + 1, stack, visited)
  }

  /** `b` is one of the files the search descends into from `a` for the specifier `spec`. */
  predicate TargetOf(g: Graph, a: Path, spec: string, b: Path)
  {
    g.targets(a, spec).0 == Some(b) || g.targets(a, spec).1 == Some(b)
  }

  /** `b` is reached from `a` through one of `a`'s imports. */
  ghost predicate Step(g: Graph, a: Path, b: Path)
  {
    exists j :: 0 <= j < |g.imports(a)| && TargetOf(g, a, g.imports(a)[j], b)
  }

  /**
   * A chain as the search records it: files of the graph outside `visited`,
   * no file twice, each reached from the one before, the last one importing
   * the target and none before it.
   */
  ghost predicate IsChain(g: Graph, p: seq<Path>, visited: set<Path>)
  {
    && |p| > 0
    && (forall k :: 0 <= k < |p| ==> p[k] in g.nodes && p[k] !in visited)
    && (forall j, k :: 0 <= j < k < |p| ==> p[j] != p[k])
    && (forall k :: 0 <= k < |p| - 1 ==> !g.hit(p[k]) && Step(g, p[k], p[k + 1]))
    && g.hit(p[|p| - 1])
  }

  /** Putting a non-matching file in front of a chain that starts at one of its imports. */
  lemma ChainCons(g: Graph, file: Path, q: seq<Path>, visited: set<Path>)
    requires file in g.nodes && file !in visited && !g.hit(file)
    requires IsChain(g, q, visited + {file}) && Step(g, file, q[0])
    ensures IsChain(g, [file] + q, visited)
  {
    var p := [file] + q;
    forall k | 1 <= k < |p| ensures p[k] == q[k - 1] { }
    forall j, k | 0 <= j < k < |p| ensures p[j] != p[k] {
      if j > 0 { assert p[j] == q[j - 1] && p[k] == q[k - 1]; }
    }
    forall k | 0 <= k < |p| - 1 ensures !g.hit(p[k]) && Step(g, p[k], p[k + 1]) {
      if k > 0 { assert p[k] == q[k - 1] && p[k + 1] == q[k]; }
    }
  }

  /** A chain longer than one file: its first file does not match, and the rest is a chain avoiding it. */
  lemma ChainTail(g: Graph, p: seq<Path>, visited: set<Path>)
    requires IsChain(g, p, visited) && |p| > 1
    ensures !g.hit(p[0]) && Step(g, p[0], p[1])
    ensures IsChain(g, p[1..], visited + {p[0]})
  {
    var q := p[1..];
    forall k | 0 <= k < |q| ensures q[k] == p[k + 1] && q[k] != p[0] { }
    forall k | 0 <= k < |q| - 1 ensures !g.hit(q[k]) && Step(g, q[k], q[k + 1]) {
      assert q[k] == p[k + 1] && q[k + 1] == p[k + 2];
    }
  }

  /** Every recorded chain extends the stack with a chain that starts at `file`. */
  lemma {:induction false} TraceSound(g: Graph, file: Path, stack: seq<Path>, visited: set<Path>, c: seq<Path>)
    requires Closed(g) && file in g.nodes
    requires c in Trace(g, file, stack, visited)
    ensures |c| > |stack| && c[..|stack|] == stack && c[|stack|] == file
    ensures IsChain(g, c[|stack|..], visited)
    decreases g.nodes - visited, 0
  {
    if g.hit(file) {
      assert c == stack + [file];
      assert c[|stack|..] == [file];
    } else {
      var s1, v1 := stack + [file], visited + {file};
      TraceImportsSound(g, file, g.imports(file), 0, s1, v1, c);
      var q := c[|s1|..];
      assert c[..|stack|] == s1[..|stack|];
      assert c[|stack|..] == [file] + q;
      ChainCons(g, file, q, visited);
    }
  }

  lemma {:induction false} TraceSpecifierSound(g: Graph, importer: Path, spec: string, stack: seq<Path>,
                                               visited: set<Path>, c: seq<Path>)
    requires Closed(g)
    requires c in TraceSpecifier(g, importer, spec, stack, visited)
    ensures |c| > |stack| && c[..|stack|] == stack
    ensures TargetOf(g, importer, spec, c[|stack|])
    ensures IsChain(g, c[|stack|..], visited)
    decreases g.nodes - visited, 2
  {
    var t := g.targets(importer, spec);
    assert TraceSpecifier(g, importer, spec, stack, visited) ==
      TraceFound(g, t.0, stack, visited) + TraceFound(g, t.1, stack, visited);
    if t.0.Some? && c in Trace(g, t.0.value, stack, visited) {
      TraceSound(g, t.0.value, stack, visited, c);
    } else {
      TraceSound(g, t.1.value, stack, visited, c);
    }
  }

  lemma {:induction false} TraceImportsSound(g: Graph, importer: Path, specs: seq<string>, i: nat,
                                             stack: seq<Path>, visited: set<Path>, c: seq<Path>)
    requires Closed(g) && i <= |specs|
    requires c in TraceImports(g, importer, specs, i, stack, visited)
    ensures |c| > |stack| && c[..|stack|] == stack
    ensures exists j :: i <= j < |specs| && TargetOf(g, importer, specs[j], c[|stack|])
    ensures IsChain(g, c[|stack|..], visited)
    decreases g.nodes - visited, |specs| - i + 3
  {
    if c in TraceSpecifier(g, importer, specs[i], stack, visited) {
      TraceSpecifierSound(g, importer, specs[i], stack, visited, c);
    } else {
      TraceImportsSound(g, importer, specs, i + 1, stack, visited, c);
    }
  }

  /** The chains of one child are among the chains of the loop that reaches it. */
  lemma {:induction false} TraceImportsIncludes(g: Graph, importer: Path, specs: seq<string>, i: nat, j: nat,
                                                b: Path, stack: seq<Path>, visited: set<Path>, c: seq<Path>)
    requires Closed(g) && i <= j < |specs|
    requires TargetOf(g, importer, specs[j], b)
    requires b in g.nodes
    requires c in Trace(g, b, stack, visited)
    ensures c in TraceImports(g, importer, specs, i, stack, visited)
    decreases j - i
  {
    if i < j {
      TraceImportsIncludes(g, importer, specs, i + 1, j, b, stack, visited, c);
    } else {
      var t := g.targets(importer, specs[i]);
      assert c in TraceFound(g, t.0, stack, visited) + TraceFound(g, t.1, stack, visited);
      assert c in TraceSpecifier(g, importer, specs[i], stack, visited);
    }
  }

  /** Every chain that starts at `file` is recorded, on top of the stack. */
  lemma {:induction false} TraceComplete(g: Graph, file: Path, stack: seq<Path>, visited: set<Path>, p: seq<Path>)
    requires Closed(g)
    requires IsChain(g, p, visited) && p[0] == file
    ensures file in g.nodes && stack + p in Trace(g, file, stack, visited)
    decreases |p|
  {
    if |p| == 1 {
      assert stack + p == stack + [file];
    } else {
      var s1, v1 := stack + [file], visited + {file};
      var q := p[1..];
      ChainTail(g, p, visited);
      TraceComplete(g, q[0], s1, v1, q);
      var j :| 0 <= j < |g.imports(file)| && TargetOf(g, file, g.imports(file)[j], q[0]);
      TraceImportsIncludes(g, file, g.imports(file), 0, j, q[0], s1, v1, s1 + q);
      assert s1 + q == stack + p;
    }
  }

  /**
   * From a root with an empty stack and visited set, the recorded chains are
   * exactly the simple import paths from the root to a file whose imports
   * name the target, with no file before the last one naming it.
   */
  lemma RootChains(w: World, cfg: Option<AliasConfig>, target: string, root: Path, c: seq<Path>)
    requires root in w.files
    ensures var g := TraceGraph(w, cfg, target);
      c in Trace(g, root, [], {}) <==> IsChain(g, c, {}) && c[0] == root
    ensures var g := TraceGraph(w, cfg, target);
      c in Trace(g, root, [], {}) ==> FileImportsTarget(w, c[|c| - 1], target)
  {
    var g := TraceGraph(w, cfg, target);
    if c in Trace(g, root, [], {}) {
      TraceSound(g, root, [], {}, c);
      assert c[0..] == c;
    }
    if IsChain(g, c, {}) && c[0] == root {
      TraceComplete(g, root, [], {}, c);
      assert [] + c == c;
    }
  }

  /** The path stack, visited set and result list that every call of one trace shares. */
  class ChainTracer {
    var pathStack: seq<Path>
    var visited: set<Path>
    var results: seq<seq<Path>>

    /** The defaults of the root call: `[]`, `new Set()`, `[]`. */
    constructor ()
      ensures pathStack == [] && visited == {} && results == []
    {
      pathStack, visited, results := [], {}, [];
    }

    /** `traceImportChains(project, sourceFile, target, pathStack, visited, results, …)`. */
    method TraceImportChains(w: World, cfg: Option<AliasConfig>, target: string, ghost g: Graph, file: Path)
      requires g == TraceGraph(w, cfg, target)
      requires file in w.files
      modifies this
      ensures pathStack == old(pathStack) && visited == old(visited)
      ensures results == old(results) + Trace(g, file, old(pathStack), old(visited))
      decreases w.files - visited, 0
    {
      if file in visited {
        return;
      }
      visited := visited + {file};
      pathStack := pathStack + [file];

      var imports := Imports(w, file);
      var matchesTarget := ContainsPackage(imports, target);
      assert g.hit(file) == matchesTarget && g.imports(file) == imports;
      if matchesTarget {
        results := results + [pathStack];
      } else {
        FollowImports(w, cfg, target, g, file, imports);
      }

      pathStack := pathStack[..|pathStack| - 1];
      visited := visited - {file};
    }

    /** The loop over the specifiers of `file`, which is on the path stack. */
    method FollowImports(w: World, cfg: Option<AliasConfig>, target: string, ghost g: Graph, file: Path,
                         imports: seq<string>)
      requires g == TraceGraph(w, cfg, target)
      requires file in visited
      modifies this
      ensures pathStack == old(pathStack) && visited == old(visited)
      ensures results == old(results) + TraceImports(g, file, imports, 0, old(pathStack), old(visited))
      decreases w.files - visited, 4
    {
      var i := 0;
      while i < |imports|
        invariant 0 <= i <= |imports|
        invariant pathStack == old(pathStack) && visited == old(visited)
        invariant results + TraceImports(g, file, imports, i, pathStack, visited)
                  == old(results) + TraceImports(g, file, imports, 0, pathStack, visited)
      {
        ghost var before := results;
        FollowSpecifier(w, cfg, target, g, file, imports[i]);
        assert results == before + TraceSpecifier(g, file, imports[i], pathStack, visited);
        assert TraceImports(g, file, imports, i, pathStack, visited)
            == TraceSpecifier(g, file, imports[i], pathStack, visited) + TraceImports(g, file, imports, i + 1, pathStack, visited);
        i := i + 1;
      }
    }

    /** The body of the loop over one file's imports: follow one specifier. */
    method FollowSpecifier(w: World, cfg: Option<AliasConfig>, target: string, ghost g: Graph, file: Path, spec: string)
      requires g == TraceGraph(w, cfg, target)
      modifies this
      ensures pathStack == old(pathStack) && visited == old(visited)
      ensures results == old(results) + TraceSpecifier(g, file, spec, old(pathStack), old(visited))
      decreases w.files - visited, 3
    {
      ghost var t := g.targets(file, spec);
      assert t == TraceTargets(w, cfg, file, spec);
      assert TraceSpecifier(g, file, spec, pathStack, visited) ==
        TraceFound(g, t.0, pathStack, visited) + TraceFound(g, t.1, pathStack, visited);
      assert TraceFound(g, None, pathStack, visited) == [];
      if IsRelative(spec) {
        var importedFilePath := ModuleSpecifierSourceFile(w, file, spec);
        if importedFilePath.Some? && importedFilePath.value != "" && importedFilePath.value in w.files {
          TraceImportChains(w, cfg, target, g, importedFilePath.value);
        }
      } else if AliasesEnabled(cfg) {
        var aliasResolved := ResolveAlias(spec, cfg.value.paths, cfg.value.baseUrl);
        if aliasResolved.Some? {
          FollowAlias(w, cfg, target, g, aliasResolved.value);
        }
      }
    }

    /**
     * The files an alias target leads to: the first existing `a + ext`, then
     * the first existing `a/index + ext`.
     */
    method FollowAlias(w: World, cfg: Option<AliasConfig>, target: string, ghost g: Graph, a: Path)
      requires g == TraceGraph(w, cfg, target)
      modifies this
      ensures pathStack == old(pathStack) && visited == old(visited)
      ensures results == old(results) + TraceBoth(g, AliasProbes(w.files, a), old(pathStack), old(visited))
      decreases w.files - visited, 2
    {
      FollowProbe(w, cfg, target, g, Suffixed(a, ScriptExts));
      FollowProbe(w, cfg, target, g, IndexFiles(a));
    }

    /** One probe loop: find the first existing candidate and trace it, if there is one. */
    method FollowProbe(w: World, cfg: Option<AliasConfig>, target: string, ghost g: Graph, candidates: seq<Path>)
      requires g == TraceGraph(w, cfg, target)
      modifies this
      ensures pathStack == old(pathStack) && visited == old(visited)
      ensures results == old(results) + TraceFound(g, FirstExisting(candidates, w.files), old(pathStack), old(visited))
      decreases w.files - visited, 1
    {
      var found := Probe(candidates, w.files);
      if found.Some? {
        TraceImportChains(w, cfg, target, g, found.value);
      } else {
        assert results == old(results) + [];
      }
    }
  }
}
