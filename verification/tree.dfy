/**
 * Normal and tree mode: `analyzeFileRecursive`, a depth-first listing of each
 * file's imports. A file is expanded only the first time it is reached (the
 * module-wide `seenFiles` set); in tree mode the on-disk sizes it shows are
 * kept in a cache (`visitedSize`) shared by the whole walk from one root.
 * What the source prints is modelled as a sequence of events.
 */
module TreeWalk {
  import opened Util
  import opened World
  import opened Resolver

  /** The two options `analyzeFileRecursive` reads. */
  datatype TreeOptions = TreeOptions(tree: bool, externalOnly: bool)

  /** One printed line. */
  datatype Event =
    /** `📁 Component: <root>`, printed by the caller before each root. */
    | Component(file: Path)
    /** `📄 <root> (<size>)`: the root of a walk, in tree mode only. */
    | RootFile(file: Path, size: nat)
    /**
     * One listed import: the indentation depth, the specifier, the external
     * (`📦`) or internal (`🔗`) label, whether it is the last listed import
     * of its file (`└──` rather than `├──` in tree mode), and the size shown
     * after it, if any.
     */
    | ImportLine(depth: nat, spec: string, external: bool, last: bool, shown: Option<nat>)
    /** `(already visited) <file>`: a file reached again. */
    | AlreadyVisited(depth: nat, file: Path)

  /**
   * The state one walk threads through its calls: `seenFiles`, the
   * `visitedSize` cache, the printed events, and the files whose imports were
   * listed, in the order they were expanded (not printed; kept to state what
   * the walk does).
   */
  datatype TreeState = TreeState(seen: set<Path>, sizes: map<Path, nat>, events: seq<Event>, expanded: seq<Path>)

  /** The state every root starts from: `seenFiles.clear()` and `new Map()`. */
  const Fresh: TreeState := TreeState({}, map[], [], [])

  /** Cache entries, once set, keep their value; new entries hold the file's size on disk. */
  predicate CacheGrows(w: World, before: map<Path, nat>, after: map<Path, nat>)
  {
    && (forall p :: p in before ==> p in after && after[p] == before[p])
    && (forall p :: p in after && p !in before ==> after[p] == Stat(w, p))
  }

  /** The imports listed for a file: all of them, or with `externalOnly` only the external ones, in order. */
  function Visible(specs: seq<string>, externalOnly: bool): (r: seq<string>)
    ensures |r| <= |specs|
  {
    if specs == [] then []
    else if !externalOnly || IsExternal(specs[0]) then [specs[0]] + Visible(specs[1..], externalOnly)
    else Visible(specs[1..], externalOnly)
  }

  /** The size of the file being expanded: the cached value, or `stat` with a failure counting 0, cached either way. */
  function OwnSize(w: World, sizes: map<Path, nat>, file: Path): (r: (nat, map<Path, nat>))
    ensures CacheGrows(w, sizes, r.1) && file in r.1 && r.0 == r.1[file]
    ensures file in sizes ==> r.1 == sizes
    ensures r.1.Keys == sizes.Keys + {file}
  {
    if file in sizes then (sizes[file], sizes)
    else (Stat(w, file), sizes[file := Stat(w, file)])
  }

  /** The size shown after an internal import: the cached value, or a successful `stat`, which is cached; a failing `stat` shows nothing and caches nothing. */
  function ImportSize(w: World, sizes: map<Path, nat>, p: Path): (r: (Option<nat>, map<Path, nat>))
    ensures CacheGrows(w, sizes, r.1)
    ensures r.0.None? <==> p !in r.1
    ensures r.0.Some? ==> r.0.value == r.1[p]
    ensures p in sizes ==> r.1 == sizes
    ensures p !in sizes ==> (r.0.Some? <==> p in w.size)
    ensures p !in sizes && p !in w.size ==> r.1 == sizes
    ensures r.1.Keys <= sizes.Keys + {p}
  {
    if p in sizes then (Some(sizes[p]), sizes)
    else if p in w.size then (Some(w.size[p]), sizes[p := w.size[p]])
    else (None, sizes)
  }

  /** The file a listed import leads to: only internal specifiers are resolved, with `resolveImport`. */
  function Child(w: World, cfg: Option<AliasConfig>, file: Path, spec: string): (r: Option<Path>)
    ensures r.Some? ==> r.value in w.files && !IsExternal(spec)
  {
    if IsExternal(spec) then None
    else
      var resolved := ResolveImport(w, cfg, file, spec);
      if resolved.Some? && resolved.value != "" then resolved else None
  }

  /** `resolve` leads only to files of the world, and never from an external specifier. */
  ghost predicate ResolvesInto(w: World, resolve: (Path, string) -> Option<Path>)
  {
    forall a, s :: resolve(a, s).Some? ==> resolve(a, s).value in w.files && !IsExternal(s)
  }

  /** The resolution the walk uses, as a function of the importing file and the specifier. */
  function TreeResolve(w: World, cfg: Option<AliasConfig>): (resolve: (Path, string) -> Option<Path>)
    ensures ResolvesInto(w, resolve)
  {
    (a, s) => Child(w, cfg, a, s)
  }

  /** `analyzeFileRecursive(file, depth, …)` from state `st`. */
  function Tree(w: World, resolve: (Path, string) -> Option<Path>, opts: TreeOptions, file: Path, depth: nat, st: TreeState)
    : (r: TreeState)
    requires ResolvesInto(w, resolve)
    requires file in w.files
    ensures st.seen <= r.seen
    decreases w.files - st.seen, 0
  {
    if file in st.seen then st.(events := st.events + [AlreadyVisited(depth, file)])
    else
      var own := if opts.tree then OwnSize(w, st.sizes, file) else (0, st.sizes);
      var root := if depth == 0 && opts.tree then [RootFile(file, own.0)] else [];
      var entered := TreeState(st.seen + {file}, own.1, st.events + root, st.expanded + [file]);
      var visible := Visible(Imports(w, file), opts.externalOnly);
      TreeImports(w, resolve, opts, file, depth, visible, 0, entered)
  }

  /** The `forEach` over the listed imports from index `i` on. */
  function TreeImports(w: World, resolve: (Path, string) -> Option<Path>, opts: TreeOptions, file: Path, depth: nat,
                       visible: seq<string>, i: nat, st: TreeState): (r: TreeState)
    requires ResolvesInto(w, resolve)
    requires i <= |visible|
    ensures st.seen <= r.seen
    decreases w.files - st.seen, |visible| - i + 2
  {
    if i == |visible| then st
    else
      var next := TreeEntry(w, resolve, opts, file, depth, visible[i], i == |visible| - 1, st);
      TreeImports(w, resolve, opts, file, depth, visible, i + 1, next)
  }

  /** One import of the `forEach`: its line, then the walk into the file it resolves to. */
  function TreeEntry(w: World, resolve: (Path, string) -> Option<Path>, opts: TreeOptions, file: Path, depth: nat,
                     spec: string, last: bool, st: TreeState): (r: TreeState)
    requires ResolvesInto(w, resolve)
    ensures st.seen <= r.seen
    decreases w.files - st.seen, 1
  {
    var child := resolve(file, spec);
    var shown := if opts.tree && child.Some? then ImportSize(w, st.sizes, child.value) else (None, st.sizes);
    var listed := st.(sizes := shown.1, events := st.events + [ImportLine(depth, spec, IsExternal(spec), last, shown.0)]);
    if child.Some? then Tree(w, resolve, opts, child.value, depth + 1, listed) else listed
  }

  /** The filter keeps the order of the imports and drops exactly the internal ones under `externalOnly`. */
  lemma {:induction false} VisibleFilter(specs: seq<string>, externalOnly: bool)
    ensures !externalOnly ==> Visible(specs, externalOnly) == specs
    ensures forall s :: s in Visible(specs, externalOnly) <==> s in specs && (!externalOnly || IsExternal(s))
  {
    if specs != [] {
      VisibleFilter(specs[1..], externalOnly);
      assert specs == [specs[0]] + specs[1..];
    }
  }

  /** `run` holds no file twice and none of `seen`. */
  predicate FreshRun(seen: set<Path>, run: seq<Path>)
  {
    && (forall i, j :: 0 <= i < j < |run| ==> run[i] != run[j])
    && (forall i :: 0 <= i < |run| ==> run[i] !in seen)
  }

  /** The files a walk expanded beyond `st`: appended to `st.expanded`, each once, none seen before, and exactly the files it added to the seen set. */
  predicate ExpandsOnce(st: TreeState, r: TreeState)
  {
    && |st.expanded| <= |r.expanded|
    && r.expanded[..|st.expanded|] == st.expanded
    && FreshRun(st.seen, r.expanded[|st.expanded|..])
    && r.seen == st.seen + (set p | p in r.expanded[|st.expanded|..])
  }

  /** Two fresh runs, the second avoiding what the first added, make one fresh run. */
  lemma FreshRunConcat(seen: set<Path>, r1: seq<Path>, r2: seq<Path>)
    requires FreshRun(seen, r1) && FreshRun(seen + (set p | p in r1), r2)
    ensures FreshRun(seen, r1 + r2)
    ensures (set p | p in r1 + r2) == (set p | p in r1) + (set p | p in r2)
  {
    var run := r1 + r2;
    forall i, j | 0 <= i < j < |run| ensures run[i] != run[j] {
      if i >= |r1| {
        assert run[i] == r2[i - |r1|] && run[j] == r2[j - |r1|];
      } else if j >= |r1| {
        assert run[i] == r1[i] && run[j] == r2[j - |r1|];
        assert run[i] in set p | p in r1;
      }
    }
    forall i | 0 <= i < |run| ensures run[i] !in seen {
      if i >= |r1| { assert run[i] == r2[i - |r1|]; }
    }
  }

  /** A walk's expanded list is the old one followed by the run it added. */
  lemma ExpandedSplit(a: TreeState, b: TreeState)
    requires ExpandsOnce(a, b)
    ensures b.expanded == a.expanded + b.expanded[|a.expanded|..]
  {
    assert b.expanded == b.expanded[..|a.expanded|] + b.expanded[|a.expanded|..];
  }

  /** The run added by two walks in turn is the first walk's run followed by the second's. */
  lemma RunsConcat(a: TreeState, b: TreeState, c: TreeState)
    requires ExpandsOnce(a, b) && ExpandsOnce(b, c)
    ensures |a.expanded| <= |c.expanded| && c.expanded[..|a.expanded|] == a.expanded
    ensures c.expanded[|a.expanded|..] == b.expanded[|a.expanded|..] + c.expanded[|b.expanded|..]
  {
    ExpandedSplit(a, b);
    ExpandedSplit(b, c);
    var r1, r2 := b.expanded[|a.expanded|..], c.expanded[|b.expanded|..];
    assert c.expanded == a.expanded + (r1 + r2);
  }

  /** Two walks one after the other expand what each expands, in order. */
  lemma ExpandsOnceTrans(a: TreeState, b: TreeState, c: TreeState)
    requires ExpandsOnce(a, b) && ExpandsOnce(b, c)
    ensures ExpandsOnce(a, c)
  {
    RunsConcat(a, b, c);
    FreshRunConcat(a.seen, b.expanded[|a.expanded|..], c.expanded[|b.expanded|..]);
  }

  /**
   * Each file is expanded at most once: a file already seen only prints
   * "already visited"; otherwise the walk expands it first, and every file it
   * expands is one it had not seen, expanded once, and added to the seen set.
   */
  lemma {:induction false} TreeExpandsOnce(w: World, resolve: (Path, string) -> Option<Path>, opts: TreeOptions, file: Path,
                                           depth: nat, st: TreeState)
    requires ResolvesInto(w, resolve)
    requires file in w.files
    ensures var r := Tree(w, resolve, opts, file, depth, st);
      && ExpandsOnce(st, r)
      && (file in st.seen ==> r.expanded == st.expanded && r.seen == st.seen)
      && (file !in st.seen ==> |r.expanded| > |st.expanded| && r.expanded[|st.expanded|] == file)
    decreases w.files - st.seen, 0
  {
    var r := Tree(w, resolve, opts, file, depth, st);
    if file in st.seen {
      assert r.expanded[|st.expanded|..] == [];
    } else {
      var own := if opts.tree then OwnSize(w, st.sizes, file) else (0, st.sizes);
      var root := if depth == 0 && opts.tree then [RootFile(file, own.0)] else [];
      var entered := TreeState(st.seen + {file}, own.1, st.events + root, st.expanded + [file]);
      var visible := Visible(Imports(w, file), opts.externalOnly);
      TreeImportsExpandOnce(w, resolve, opts, file, depth, visible, 0, entered);
      EnterThenExpand(file, st, entered, r);
    }
  }

  /** Entering an unseen `file` and then walking its imports expands `file` first. */
  lemma EnterThenExpand(file: Path, st: TreeState, entered: TreeState, r: TreeState)
    requires file !in st.seen
    requires entered.seen == st.seen + {file} && entered.expanded == st.expanded + [file]
    requires ExpandsOnce(entered, r)
    ensures ExpandsOnce(st, r)
    ensures |r.expanded| > |st.expanded| && r.expanded[|st.expanded|] == file
  {
    assert entered.expanded[|st.expanded|..] == [file];
    assert ExpandsOnce(st, entered);
    ExpandsOnceTrans(st, entered, r);
    assert r.expanded[..|entered.expanded|][|st.expanded|] == file;
  }

  lemma {:induction false} TreeImportsExpandOnce(w: World, resolve: (Path, string) -> Option<Path>, opts: TreeOptions, file: Path,
                                                 depth: nat, visible: seq<string>, i: nat, st: TreeState)
    requires ResolvesInto(w, resolve)
    requires i <= |visible|
    ensures ExpandsOnce(st, TreeImports(w, resolve, opts, file, depth, visible, i, st))
    decreases w.files - st.seen, |visible| - i + 2
  {
    if i == |visible| {
      assert st.expanded[|st.expanded|..] == [];
      assert st.expanded[..|st.expanded|] == st.expanded;
    } else {
      var next := TreeEntry(w, resolve, opts, file, depth, visible[i], i == |visible| - 1, st);
      TreeEntryExpandsOnce(w, resolve, opts, file, depth, visible[i], i == |visible| - 1, st);
      TreeImportsExpandOnce(w, resolve, opts, file, depth, visible, i + 1, next);
      ExpandsOnceTrans(st, next, TreeImports(w, resolve, opts, file, depth, visible, i + 1, next));
    }
  }

  lemma {:induction false} TreeEntryExpandsOnce(w: World, resolve: (Path, string) -> Option<Path>, opts: TreeOptions, file: Path,
                                                depth: nat, spec: string, last: bool, st: TreeState)
    requires ResolvesInto(w, resolve)
    ensures ExpandsOnce(st, TreeEntry(w, resolve, opts, file, depth, spec, last, st))
    decreases w.files - st.seen, 1
  {
    var child := resolve(file, spec);
    var shown := if opts.tree && child.Some? then ImportSize(w, st.sizes, child.value) else (None, st.sizes);
    var listed := st.(sizes := shown.1, events := st.events + [ImportLine(depth, spec, IsExternal(spec), last, shown.0)]);
    assert st.expanded[|st.expanded|..] == [];
    assert ExpandsOnce(st, listed);
    if child.Some? {
      TreeExpandsOnce(w, resolve, opts, child.value, depth + 1, listed);
    }
  }

  /**
   * The output is only ever appended to, and the size cache only grows, with
   * true sizes; outside tree mode it is untouched. A file already seen prints
   * one "already visited" line and changes nothing else.
   */
  lemma {:induction false} TreeAppendsAndCaches(w: World, resolve: (Path, string) -> Option<Path>, opts: TreeOptions, file: Path,
                                                depth: nat, st: TreeState)
    requires ResolvesInto(w, resolve)
    requires file in w.files
    ensures var r := Tree(w, resolve, opts, file, depth, st);
      && |st.events| <= |r.events| && r.events[..|st.events|] == st.events
      && CacheGrows(w, st.sizes, r.sizes)
      && (!opts.tree ==> r.sizes == st.sizes)
      && (file in st.seen ==> r == st.(events := st.events + [AlreadyVisited(depth, file)]))
    decreases w.files - st.seen, 0
  {
    if file !in st.seen {
      var own := if opts.tree then OwnSize(w, st.sizes, file) else (0, st.sizes);
      var root := if depth == 0 && opts.tree then [RootFile(file, own.0)] else [];
      var entered := TreeState(st.seen + {file}, own.1, st.events + root, st.expanded + [file]);
      var visible := Visible(Imports(w, file), opts.externalOnly);
      TreeImportsAppendsAndCaches(w, resolve, opts, file, depth, visible, 0, entered);
      var r := TreeImports(w, resolve, opts, file, depth, visible, 0, entered);
      assert r.events[..|st.events|] == r.events[..|entered.events|][..|st.events|];
    }
  }

  lemma {:induction false} TreeImportsAppendsAndCaches(w: World, resolve: (Path, string) -> Option<Path>, opts: TreeOptions, file: Path,
                                                       depth: nat, visible: seq<string>, i: nat, st: TreeState)
    requires ResolvesInto(w, resolve)
    requires i <= |visible|
    ensures var r := TreeImports(w, resolve, opts, file, depth, visible, i, st);
      && |st.events| + |visible| - i <= |r.events| && r.events[..|st.events|] == st.events
      && CacheGrows(w, st.sizes, r.sizes)
      && (!opts.tree ==> r.sizes == st.sizes)
    decreases w.files - st.seen, |visible| - i + 2
  {
    if i < |visible| {
      var next := TreeEntry(w, resolve, opts, file, depth, visible[i], i == |visible| - 1, st);
      TreeEntryAppendsAndCaches(w, resolve, opts, file, depth, visible[i], i == |visible| - 1, st);
      TreeImportsAppendsAndCaches(w, resolve, opts, file, depth, visible, i + 1, next);
      var r := TreeImports(w, resolve, opts, file, depth, visible, i + 1, next);
      assert r.events[..|st.events|] == r.events[..|next.events|][..|st.events|];
    }
  }

  lemma {:induction false} TreeEntryAppendsAndCaches(w: World, resolve: (Path, string) -> Option<Path>, opts: TreeOptions, file: Path,
                                                     depth: nat, spec: string, last: bool, st: TreeState)
    requires ResolvesInto(w, resolve)
    ensures var r := TreeEntry(w, resolve, opts, file, depth, spec, last, st);
      && |st.events| < |r.events| && r.events[..|st.events|] == st.events
      && (var line := r.events[|st.events|];
          line.ImportLine? && line.depth == depth && line.spec == spec && line.external == IsExternal(spec) &&
          line.last == last && (line.shown.Some? ==> opts.tree && !IsExternal(spec)))
      && CacheGrows(w, st.sizes, r.sizes)
      && (!opts.tree ==> r.sizes == st.sizes)
    decreases w.files - st.seen, 1
  {
    var child := resolve(file, spec);
    var shown := if opts.tree && child.Some? then ImportSize(w, st.sizes, child.value) else (None, st.sizes);
    var listed := st.(sizes := shown.1, events := st.events + [ImportLine(depth, spec, IsExternal(spec), last, shown.0)]);
    if child.Some? {
      TreeAppendsAndCaches(w, resolve, opts, child.value, depth + 1, listed);
      var r := Tree(w, resolve, opts, child.value, depth + 1, listed);
      assert r.events[..|st.events|] == r.events[..|listed.events|][..|st.events|];
      assert r.events[|st.events|] == r.events[..|listed.events|][|st.events|];
    }
  }

  /** No line after index `from` lists an internal import. */
  predicate ListsOnlyExternal(events: seq<Event>, from: nat)
  {
    forall k :: from <= k < |events| ==> !(events[k].ImportLine? && !events[k].external)
  }

  /**
   * With `externalOnly`, only external imports are listed and the walk never
   * descends: the file itself is the only file expanded.
   */
  lemma TreeExternalOnly(w: World, resolve: (Path, string) -> Option<Path>, opts: TreeOptions, file: Path, depth: nat, st: TreeState)
    requires ResolvesInto(w, resolve)
    requires file in w.files && opts.externalOnly
    ensures var r := Tree(w, resolve, opts, file, depth, st);
      && r.expanded == st.expanded + (if file in st.seen then [] else [file])
      && r.seen == st.seen + {file}
      && ListsOnlyExternal(r.events, |st.events|)
  {
    if file !in st.seen {
      var own := if opts.tree then OwnSize(w, st.sizes, file) else (0, st.sizes);
      var root := if depth == 0 && opts.tree then [RootFile(file, own.0)] else [];
      var entered := TreeState(st.seen + {file}, own.1, st.events + root, st.expanded + [file]);
      var visible := Visible(Imports(w, file), opts.externalOnly);
      VisibleFilter(Imports(w, file), opts.externalOnly);
      TreeImportsExternalOnly(w, resolve, opts, file, depth, visible, 0, entered, |st.events|);
    }
  }

  lemma {:induction false} TreeImportsExternalOnly(w: World, resolve: (Path, string) -> Option<Path>, opts: TreeOptions, file: Path,
                                                   depth: nat, visible: seq<string>, i: nat, st: TreeState, from: nat)
    requires ResolvesInto(w, resolve)
    requires i <= |visible| && forall s :: s in visible ==> IsExternal(s)
    requires ListsOnlyExternal(st.events, from)
    ensures var r := TreeImports(w, resolve, opts, file, depth, visible, i, st);
      r.expanded == st.expanded && r.seen == st.seen && ListsOnlyExternal(r.events, from)
    decreases |visible| - i
  {
    if i < |visible| {
      assert IsExternal(visible[i]);
      var next := TreeEntry(w, resolve, opts, file, depth, visible[i], i == |visible| - 1, st);
      TreeImportsExternalOnly(w, resolve, opts, file, depth, visible, i + 1, next, from);
    }
  }

  /**
   * One walk from a root, as the caller starts it: the root is expanded
   * first, no file is expanded twice, the expanded files are exactly the
   * seen set, and every cached size is the file's size on disk.
   */
  lemma RootExpandsOnce(w: World, resolve: (Path, string) -> Option<Path>, opts: TreeOptions, root: Path)
    requires ResolvesInto(w, resolve)
    requires root in w.files
    ensures var r := Tree(w, resolve, opts, root, 0, Fresh);
      && |r.expanded| > 0 && r.expanded[0] == root
      && (forall i, j :: 0 <= i < j < |r.expanded| ==> r.expanded[i] != r.expanded[j])
      && r.seen == set p | p in r.expanded
      && (forall p :: p in r.sizes ==> r.sizes[p] == Stat(w, p))
  {
    TreeExpandsOnce(w, resolve, opts, root, 0, Fresh);
    TreeAppendsAndCaches(w, resolve, opts, root, 0, Fresh);
    var r := Tree(w, resolve, opts, root, 0, Fresh);
    assert r.expanded[|Fresh.expanded|..] == r.expanded;
  }

  /** `seenFiles` (module-wide), the `visitedSize` map handed down the walk, and what has been printed. */
  class TreePrinter {
    var seenFiles: set<Path>
    var visitedSize: map<Path, nat>
    var output: seq<Event>
    /** The files expanded so far, in order; not kept by the source, recorded to state what the walk does. */
    ghost var expanded: seq<Path>

    /** The state of a walk in progress. */
    ghost function State(): TreeState
      reads this
    {
      TreeState(seenFiles, visitedSize, output, expanded)
    }

    constructor ()
      ensures State() == Fresh
    {
      seenFiles, visitedSize, output, expanded := {}, map[], [], [];
    }

    /** Start the walk of a new root: `seenFiles.clear()`, a `new Map()` for the sizes, nothing printed yet for it. */
    method StartRoot()
      modifies this
      ensures State() == Fresh
    {
      seenFiles, visitedSize, output, expanded := {}, map[], [], [];
    }

    /** `analyzeFileRecursive(sourceFile, depth, options, tsConfigPaths, baseUrl, visitedSize)`. */
    method AnalyzeFileRecursive(w: World, cfg: Option<AliasConfig>, ghost resolve: (Path, string) -> Option<Path>,
                                opts: TreeOptions, file: Path, depth: nat)
      requires file in w.files
      requires resolve == TreeResolve(w, cfg)
      modifies this
      ensures State() == Tree(w, resolve, opts, file, depth, old(State()))
      decreases w.files - seenFiles, 0
    {
      if file in seenFiles {
        output := output + [AlreadyVisited(depth, file)];
        return;
      }
      seenFiles := seenFiles + {file};
      expanded := expanded + [file];

      var size := 0;
      if opts.tree {
        if file in visitedSize {
          size := visitedSize[file];
        } else {
          size := Stat(w, file);
          visitedSize := visitedSize[file := size];
        }
      }
      if depth == 0 && opts.tree {
        output := output + [RootFile(file, size)];
      }

      ghost var own := if opts.tree then OwnSize(w, old(visitedSize), file) else (0, old(visitedSize));
      assert size == own.0 && visitedSize == own.1;
      ghost var root := if depth == 0 && opts.tree then [RootFile(file, own.0)] else [];
      assert output == old(output) + root;
      var visibleImports := Visible(Imports(w, file), opts.externalOnly);
      assert Tree(w, resolve, opts, file, depth, old(State()))
          == TreeImports(w, resolve, opts, file, depth, visibleImports, 0, State());
      ListImports(w, cfg, resolve, opts, file, depth, visibleImports);
    }

    /** `visibleImports.forEach(…)`. */
    method ListImports(w: World, cfg: Option<AliasConfig>, ghost resolve: (Path, string) -> Option<Path>,
                       opts: TreeOptions, file: Path, depth: nat,
                       visibleImports: seq<string>)
      requires resolve == TreeResolve(w, cfg)
      modifies this
      ensures State() == TreeImports(w, resolve, opts, file, depth, visibleImports, 0, old(State()))
      decreases w.files - seenFiles, 3
    {
      var index := 0;
      while index < |visibleImports|
        invariant 0 <= index <= |visibleImports|
        invariant old(seenFiles) <= seenFiles
        invariant TreeImports(w, resolve, opts, file, depth, visibleImports, index, State())
                  == TreeImports(w, resolve, opts, file, depth, visibleImports, 0, old(State()))
      {
        ListImport(w, cfg, resolve, opts, file, depth, visibleImports[index], index == |visibleImports| - 1);
        index := index + 1;
      }
    }

    /** The body of the `forEach`: print one import, then walk into it if it is internal and resolves. */
    method ListImport(w: World, cfg: Option<AliasConfig>, ghost resolve: (Path, string) -> Option<Path>,
                      opts: TreeOptions, file: Path, depth: nat,
                      spec: string, isLast: bool)
      requires resolve == TreeResolve(w, cfg)
      modifies this
      ensures State() == TreeEntry(w, resolve, opts, file, depth, spec, isLast, old(State()))
      decreases w.files - seenFiles, 2
    {
      var isExternal := IsExternal(spec);
      var importSize: Option<nat> := None;
      if opts.tree && !isExternal {
        var resolvedPath := ResolveImport(w, cfg, file, spec);
        if resolvedPath.Some? && resolvedPath.value != "" && resolvedPath.value in w.files {
          var p := resolvedPath.value;
          if p in visitedSize {
            importSize := Some(visitedSize[p]);
          } else if p in w.size {
            importSize := Some(w.size[p]);
            visitedSize := visitedSize[p := w.size[p]];
          }
        }
      }
      output := output + [ImportLine(depth, spec, isExternal, isLast, importSize)];

      if !isExternal {
        var resolvedPath := ResolveImport(w, cfg, file, spec);
        if resolvedPath.Some? && resolvedPath.value != "" && resolvedPath.value in w.files {
          AnalyzeFileRecursive(w, cfg, resolve, opts, resolvedPath.value, depth + 1);
        }
      }
    }
  }
}
