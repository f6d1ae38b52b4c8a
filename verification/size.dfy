/**
 * Size mode: `calculateDependencySize`, a depth-first walk that adds up the
 * on-disk size of every distinct file reachable from a root, with one visited
 * set shared by the whole walk.
 */
module SizeWalk {
  import opened Util
  import opened World
  import opened Resolver

  /** The extensions probed after an alias in size mode: no `.mjs`, no `index` files. */
  const AliasSizeExts: seq<string> := [".ts", ".tsx", ".js", ".jsx"]

  /**
   * The file the walk descends into for one specifier: the TypeScript
   * project's answer for a relative specifier; for a bare one the alias target
   * with the first existing extension, or the bare target itself; in every
   * case only a path that exists.
   */
  function SizeEdge(w: World, cfg: Option<AliasConfig>, importer: Path, spec: string): (r: Option<Path>)
    ensures r.Some? ==> r.value in w.files
  {
    var resolved :=
      if IsRelative(spec) then ModuleSpecifierSourceFile(w, importer, spec)
      else if AliasesEnabled(cfg) then
        match ResolveAlias(spec, cfg.value.paths, cfg.value.baseUrl)
        case None => None
        case Some(a) =>
          var probed := FirstExisting(Suffixed(a, AliasSizeExts), w.files);
          if probed.Some? then probed else Some(a)
      else None;
    if resolved.Some? && resolved.value != "" && resolved.value in w.files then resolved else None
  }

  /** What one call returns, and the visited set it leaves behind. */
  datatype Walk = Walk(total: nat, visited: set<Path>)

  /** The walk from `file` with `visited` already seen. */
  function Size(w: World, cfg: Option<AliasConfig>, file: Path, visited: set<Path>): (r: Walk)
    requires file in w.files
    ensures visited <= r.visited
    decreases w.files - visited, 0
  {
    if file in visited then Walk(0, visited)
    else
      var rest := SizeImports(w, cfg, file, Imports(w, file), 0, visited + {file});
      Walk(Stat(w, file) + rest.total, rest.visited)
  }

  /** The loop over `file`'s imports from index `i` on. */
  function SizeImports(w: World, cfg: Option<AliasConfig>, file: Path, specs: seq<string>, i: nat,
                       visited: set<Path>): (r: Walk)
    requires i <= |specs|
    ensures visited <= r.visited
    decreases w.files - visited, |specs| - i + 1
  {
    if i == |specs| then Walk(0, visited)
    else
      match SizeEdge(w, cfg, file, specs[i])
      case None => SizeImports(w, cfg, file, specs, i + 1, visited)
      case Some(child) =>
        var sub := Size(w, cfg, child, visited);
        var rest := SizeImports(w, cfg, file, specs, i + 1, sub.visited);
        Walk(sub.total + rest.total, rest.visited)
  }

  /** The combined size of a set of files, each counted once. */
  ghost function SumSizes(w: World, s: set<Path>): nat
    decreases s
  {
    if s == {} then 0
    else
      var p :| p in s;
      Stat(w, p) + SumSizes(w, s - {p})
  }

  lemma {:induction false} SumSizesRemove(w: World, s: set<Path>, p: Path)
    requires p in s
    ensures SumSizes(w, s) == Stat(w, p) + SumSizes(w, s - {p})
    decreases s
  {
    var q :| q in s && SumSizes(w, s) == Stat(w, q) + SumSizes(w, s - {q});
    if q != p {
      SumSizesRemove(w, s - {q}, p);
      SumSizesRemove(w, s - {p}, q);
      assert s - {q} - {p} == s - {p} - {q};
    }
  }

  /** Sizes of disjoint sets add up. */
  lemma {:induction false} SumSizesUnion(w: World, a: set<Path>, b: set<Path>)
    requires a !! b
    ensures SumSizes(w, a + b) == SumSizes(w, a) + SumSizes(w, b)
    decreases a
  {
    if a != {} {
      var p :| p in a;
      SumSizesRemove(w, a, p);
      SumSizesRemove(w, a + b, p);
      assert (a + b) - {p} == (a - {p}) + b;
      SumSizesUnion(w, a - {p}, b);
    } else {
      assert a + b == b;
    }
  }

  /**
   * Count-once: a call on a visited file returns 0 and changes nothing;
   * otherwise it adds the file and only existing files to `visited`, and
   * returns exactly the sum of the sizes of the files it added.
   */
  lemma {:induction false} SizeCountsOnce(w: World, cfg: Option<AliasConfig>, file: Path, visited: set<Path>)
    requires file in w.files
    ensures var r := Size(w, cfg, file, visited);
      && (file in visited ==> r == Walk(0, visited))
      && file in r.visited
      && r.visited - visited <= w.files
      && r.total == SumSizes(w, r.visited - visited)
    decreases w.files - visited, 0
  {
    if file !in visited {
      var v1 := visited + {file};
      var rest := SizeImports(w, cfg, file, Imports(w, file), 0, v1);
      SizeImportsCountsOnce(w, cfg, file, Imports(w, file), 0, v1);
      var r := Size(w, cfg, file, visited);
      assert r.visited - visited == {file} + (rest.visited - v1);
      SumSizesUnion(w, {file}, rest.visited - v1);
      SumSizesRemove(w, {file}, file);
      assert {file} - {file} == {};
    }
  }

  lemma {:induction false} SizeImportsCountsOnce(w: World, cfg: Option<AliasConfig>, file: Path, specs: seq<string>,
                                                 i: nat, visited: set<Path>)
    requires i <= |specs|
    ensures var r := SizeImports(w, cfg, file, specs, i, visited);
      && r.visited - visited <= w.files
      && r.total == SumSizes(w, r.visited - visited)
    decreases w.files - visited, |specs| - i + 1
  {
    if i == |specs| {
      assert visited - visited == {};
    } else {
      match SizeEdge(w, cfg, file, specs[i])
      case None =>
        SizeImportsCountsOnce(w, cfg, file, specs, i + 1, visited);
      case Some(child) =>
        var sub := Size(w, cfg, child, visited);
        SizeCountsOnce(w, cfg, child, visited);
        var rest := SizeImports(w, cfg, file, specs, i + 1, sub.visited);
        SizeImportsCountsOnce(w, cfg, file, specs, i + 1, sub.visited);
        assert rest.visited - visited == (sub.visited - visited) + (rest.visited - sub.visited);
        SumSizesUnion(w, sub.visited - visited, rest.visited - sub.visited);
    }
  }

  /** A fresh walk from a root: its total is the size of the distinct files it visited, the root included. */
  lemma RootTotal(w: World, cfg: Option<AliasConfig>, root: Path)
    requires root in w.files
    ensures var r := Size(w, cfg, root, {});
      root in r.visited && r.visited <= w.files && r.total == SumSizes(w, r.visited) &&
      r.total >= Stat(w, root)
  {
    SizeCountsOnce(w, cfg, root, {});
    var r := Size(w, cfg, root, {});
    assert r.visited - {} == r.visited;
    SumSizesRemove(w, r.visited, root);
  }

  /** `b` is a file the walk descends into from `a`, through one of `a`'s imports. */
  ghost predicate SizeStep(w: World, cfg: Option<AliasConfig>, a: Path, b: Path)
  {
    exists j :: 0 <= j < |Imports(w, a)| && SizeEdge(w, cfg, a, Imports(w, a)[j]) == Some(b)
  }

  /** A sequence of files, each one a step from the one before. */
  ghost predicate SizePath(w: World, cfg: Option<AliasConfig>, p: seq<Path>)
  {
    |p| > 0 && forall k :: 0 <= k < |p| - 1 ==> SizeStep(w, cfg, p[k], p[k + 1])
  }

  /** `b` is reachable from `a` by the walk's steps (every file reaches itself). */
  ghost predicate Reaches(w: World, cfg: Option<AliasConfig>, a: Path, b: Path)
  {
    exists p :: SizePath(w, cfg, p) && p[0] == a && p[|p| - 1] == b
  }

  /** The files a root pulls in: the root and everything reachable from it. */
  ghost function ReachableFrom(w: World, cfg: Option<AliasConfig>, root: Path): set<Path>
  {
    set x | x in w.files && Reaches(w, cfg, root, x)
  }

  /** Every step out of a file of `inner` lands in `outer`. */
  ghost predicate StepsInto(w: World, cfg: Option<AliasConfig>, inner: set<Path>, outer: set<Path>)
  {
    forall x, b :: x in inner && SizeStep(w, cfg, x, b) ==> b in outer
  }

  /** A step followed by a path is a path. */
  lemma ReachesCons(w: World, cfg: Option<AliasConfig>, a: Path, b: Path, x: Path)
    requires SizeStep(w, cfg, a, b) && Reaches(w, cfg, b, x)
    ensures Reaches(w, cfg, a, x)
  {
    var p :| SizePath(w, cfg, p) && p[0] == b && p[|p| - 1] == x;
    var q := [a] + p;
    forall k | 0 <= k < |q| - 1 ensures SizeStep(w, cfg, q[k], q[k + 1]) {
      if k > 0 { assert q[k] == p[k - 1] && q[k + 1] == p[k]; }
    }
    assert SizePath(w, cfg, q) && q[0] == a && q[|q| - 1] == x;
  }

  /** A path that starts in a set closed under steps stays in it. */
  lemma {:induction false} PathStaysIn(w: World, cfg: Option<AliasConfig>, p: seq<Path>, s: set<Path>)
    requires SizePath(w, cfg, p) && p[0] in s && StepsInto(w, cfg, s, s)
    ensures p[|p| - 1] in s
    decreases |p|
  {
    if |p| > 1 {
      var init := p[..|p| - 1];
      assert SizePath(w, cfg, init) by {
        forall k | 0 <= k < |init| - 1 ensures SizeStep(w, cfg, init[k], init[k + 1]) {
          assert init[k] == p[k] && init[k + 1] == p[k + 1];
        }
      }
      PathStaysIn(w, cfg, init, s);
      assert SizeStep(w, cfg, p[|p| - 2], p[|p| - 1]);
    }
  }

  /**
   * What a call adds to `visited` is reachable from its file, and is closed:
   * every file the walk descends into from an added file ends up visited.
   */
  lemma {:induction false} SizeCloses(w: World, cfg: Option<AliasConfig>, file: Path, visited: set<Path>)
    requires file in w.files
    ensures var r := Size(w, cfg, file, visited);
      && file in r.visited
      && StepsInto(w, cfg, r.visited - visited, r.visited)
      && (forall x :: x in r.visited - visited ==> Reaches(w, cfg, file, x))
    decreases w.files - visited, 0
  {
    var r := Size(w, cfg, file, visited);
    if file !in visited {
      var v1 := visited + {file};
      var specs := Imports(w, file);
      SizeImportsCloses(w, cfg, file, specs, 0, v1);
      var rest := SizeImports(w, cfg, file, specs, 0, v1);
      assert r.visited == rest.visited;
      assert r.visited - visited == {file} + (rest.visited - v1);
      forall b | SizeStep(w, cfg, file, b) ensures b in r.visited {
        var j :| 0 <= j < |specs| && SizeEdge(w, cfg, file, specs[j]) == Some(b);
      }
      assert SizePath(w, cfg, [file]);
    } else {
      assert r.visited - visited == {};
    }
  }

  lemma {:induction false} SizeImportsCloses(w: World, cfg: Option<AliasConfig>, file: Path, specs: seq<string>,
                                             i: nat, visited: set<Path>)
    requires specs == Imports(w, file) && i <= |specs|
    ensures var r := SizeImports(w, cfg, file, specs, i, visited);
      && StepsInto(w, cfg, r.visited - visited, r.visited)
      && (forall j :: i <= j < |specs| && SizeEdge(w, cfg, file, specs[j]).Some? ==>
            SizeEdge(w, cfg, file, specs[j]).value in r.visited)
      && (forall x :: x in r.visited - visited ==> Reaches(w, cfg, file, x))
    decreases w.files - visited, |specs| - i + 1
  {
    if i == |specs| {
      assert visited - visited == {};
    } else {
      match SizeEdge(w, cfg, file, specs[i])
      case None =>
        SizeImportsCloses(w, cfg, file, specs, i + 1, visited);
      case Some(child) =>
        var sub := Size(w, cfg, child, visited);
        SizeCloses(w, cfg, child, visited);
        var rest := SizeImports(w, cfg, file, specs, i + 1, sub.visited);
        SizeImportsCloses(w, cfg, file, specs, i + 1, sub.visited);
        assert rest.visited - visited == (sub.visited - visited) + (rest.visited - sub.visited);
        assert SizeStep(w, cfg, file, child);
        forall x | x in sub.visited - visited ensures Reaches(w, cfg, file, x) {
          ReachesCons(w, cfg, file, child, x);
        }
    }
  }

  /**
   * A fresh walk from a root visits exactly the files reachable from it, and
   * its total is the size of those files, each counted once.
   */
  lemma RootReach(w: World, cfg: Option<AliasConfig>, root: Path)
    requires root in w.files
    ensures var r := Size(w, cfg, root, {});
      r.visited == ReachableFrom(w, cfg, root) && r.total == SumSizes(w, ReachableFrom(w, cfg, root))
  {
    var r := Size(w, cfg, root, {});
    SizeCloses(w, cfg, root, {});
    RootTotal(w, cfg, root);
    assert r.visited - {} == r.visited;
    forall x | x in ReachableFrom(w, cfg, root) ensures x in r.visited {
      var p :| SizePath(w, cfg, p) && p[0] == root && p[|p| - 1] == x;
      PathStaysIn(w, cfg, p, r.visited);
    }
  }

  /** The visited set of `calculateDependencySize`, shared by every recursive call of one walk. */
  class DependencySizer {
    var visited: set<Path>

    /** `new Set()`: each root gets a fresh set. */
    constructor ()
      ensures visited == {}
    {
      visited := {};
    }

    /** `calculateDependencySize(sourceFile, visited, …)`. */
    method CalculateDependencySize(w: World, cfg: Option<AliasConfig>, file: Path) returns (total: nat)
      requires file in w.files
      modifies this
      ensures total == Size(w, cfg, file, old(visited)).total
      ensures visited == Size(w, cfg, file, old(visited)).visited
      decreases w.files - visited
    {
      if file in visited {
        return 0;
      }
      visited := visited + {file};
      ghost var v1 := visited;
      total := Stat(w, file);
      var imports := Imports(w, file);
      var i := 0;
      while i < |imports|
        invariant 0 <= i <= |imports|
        invariant v1 <= visited
        invariant total + SizeImports(w, cfg, file, imports, i, visited).total
                  == Stat(w, file) + SizeImports(w, cfg, file, imports, 0, v1).total
        invariant SizeImports(w, cfg, file, imports, i, visited).visited
                  == SizeImports(w, cfg, file, imports, 0, v1).visited
      {
        var spec := imports[i];
        var resolvedPath: Option<Path> := None;
        if IsRelative(spec) {
          resolvedPath := ModuleSpecifierSourceFile(w, file, spec);
        } else if AliasesEnabled(cfg) {
          resolvedPath := ResolveAlias(spec, cfg.value.paths, cfg.value.baseUrl);
          if resolvedPath.Some? {
            var probed := Probe(Suffixed(resolvedPath.value, AliasSizeExts), w.files);
            if probed.Some? {
              resolvedPath := probed;
            }
          }
        }
        if resolvedPath.Some? && resolvedPath.value != "" && resolvedPath.value in w.files {
          assert SizeEdge(w, cfg, file, spec) == resolvedPath;
          var sub := CalculateDependencySize(w, cfg, resolvedPath.value);
          total := total + sub;
        } else {
          assert SizeEdge(w, cfg, file, spec) == None;
        }
        i := i + 1;
      }
    }
  }
}
