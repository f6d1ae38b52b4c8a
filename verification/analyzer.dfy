/**
 * `analyzeComponent`: the loop over the root files in each of the four modes
 * and the choice of mode. Size mode wins over trace mode, trace mode over
 * find mode, and find mode over the normal or tree listing.
 */
module Analyzer {
  import opened Util
  import opened World
  import opened Matcher
  import opened SizeWalk
  import opened ChainTrace
  import opened TreeWalk
  import opened Ranking

  /** The command-line options: `--find` and `--trace` are absent when empty, as in JavaScript's truthiness. */
  datatype Options = Options(tree: bool, externalOnly: bool, find: string, trace: string, size: bool)

  /** What one run reports. */
  datatype Report =
    | SizeReport(ranked: seq<SizeRow>)
    | TraceReport(traceTarget: string, chains: seq<seq<Path>>)
    | FindReport(findTarget: string, foundIn: seq<Path>)
    | TreeReport(lines: seq<Event>)

  /** The roots the project can load (`addSourceFileAtPathIfExists` succeeds), in order. */
  function Loadable(w: World, roots: seq<Path>): (r: seq<Path>)
    ensures forall p :: p in r <==> p in roots && p in w.files
  {
    if roots == [] then []
    else
      var file := roots[|roots| - 1];
      assert roots == roots[..|roots| - 1] + [file];
      Loadable(w, roots[..|roots| - 1]) + (if file in w.files then [file] else [])
  }

  /** A single root is kept iff the project can load it. */
  lemma LoadableOne(w: World, x: Path)
    ensures Loadable(w, [x]) == if x in w.files then [x] else []
  {
    assert [x][..0] == [];
  }

  /** Appending a root appends it to the loadable roots iff it loads. */
  lemma LoadableSnoc(w: World, s: seq<Path>, x: Path)
    ensures Loadable(w, s + [x]) == Loadable(w, s) + (if x in w.files then [x] else [])
  {
    assert (s + [x])[..|s|] == s;
  }

  /**
   * The loadable roots keep their order and multiplicity: filtering a
   * concatenation filters each part in turn.
   */
  lemma {:induction false} LoadableConcat(w: World, a: seq<Path>, b: seq<Path>)
    ensures Loadable(w, a + b) == Loadable(w, a) + Loadable(w, b)
    decreases |b|
  {
    if b == [] {
      assert a + b == a;
    } else {
      var init, x := b[..|b| - 1], b[|b| - 1];
      SplitLast(a, b);
      LoadableSnoc(w, a + init, x);
      LoadableSnoc(w, init, x);
      LoadableConcat(w, a, init);
      var la, li, t := Loadable(w, a), Loadable(w, init), if x in w.files then [x] else [];
      assert (la + li) + t == la + (li + t);
    }
  }

  /** A non-empty sequence is its prefix followed by its last element, also behind any other sequence. */
  lemma SplitLast(a: seq<Path>, b: seq<Path>)
    requires b != []
    ensures b == b[..|b| - 1] + [b[|b| - 1]]
    ensures a + b == (a + b[..|b| - 1]) + [b[|b| - 1]]
  {
    assert b == b[..|b| - 1] + [b[|b| - 1]];
  }

  /** One row per root the project can load, with a fresh visited set each, in the order of the roots. */
  function SizeRows(w: World, cfg: Option<AliasConfig>, roots: seq<Path>): (r: seq<SizeRow>)
    ensures |r| == |Loadable(w, roots)|
    ensures forall k :: 0 <= k < |r| ==>
      r[k].file == Loadable(w, roots)[k] && r[k].size == Size(w, cfg, r[k].file, {}).total
  {
    if roots == [] then []
    else
      var file := roots[|roots| - 1];
      SizeRows(w, cfg, roots[..|roots| - 1]) +
      (if file in w.files then [SizeRow(file, Size(w, cfg, file, {}).total)] else [])
  }

  /** The chains of every root of `g`, each traced with an empty stack and visited set, concatenated in root order. */
  function TraceAll(g: Graph, roots: seq<Path>): seq<seq<Path>>
    requires Closed(g)
  {
    if roots == [] then []
    else
      var file := roots[|roots| - 1];
      TraceAll(g, roots[..|roots| - 1]) + (if file in g.nodes then Trace(g, file, [], {}) else [])
  }

  /** The roots whose own imports match the target, in root order. */
  function FoundIn(w: World, target: string, roots: seq<Path>): (r: seq<Path>)
    ensures |r| <= |roots|
    ensures forall p :: p in r ==> p in roots && p in w.files
  {
    if roots == [] then []
    else
      var file := roots[|roots| - 1];
      FoundIn(w, target, roots[..|roots| - 1]) +
      (if file in w.files && FileImportsTarget(w, file, target) then [file] else [])
  }

  /** For every root, its heading and the lines of a walk started with nothing seen and no cached size. */
  function TreeAll(w: World, cfg: Option<AliasConfig>, opts: TreeOptions, roots: seq<Path>): (r: seq<Event>)
    ensures forall p :: p in roots && p in w.files ==> Component(p) in r
  {
    if roots == [] then []
    else
      var file := roots[|roots| - 1];
      TreeAll(w, cfg, opts, roots[..|roots| - 1]) +
      (if file in w.files then [Component(file)] + Tree(w, TreeResolve(w, cfg), opts, file, 0, Fresh).events else [])
  }

  /**
   * What `analyzeComponent` reports. Size mode wins over trace mode, trace
   * mode over find mode, find mode over the listing.
   */
  function Analyze(w: World, cfg: Option<AliasConfig>, opts: Options, roots: seq<Path>): (r: Report)
    ensures r.SizeReport? <==> opts.size
    ensures r.TraceReport? <==> !opts.size && opts.trace != ""
    ensures r.FindReport? <==> !opts.size && opts.trace == "" && opts.find != ""
    ensures r.TreeReport? <==> !opts.size && opts.trace == "" && opts.find == ""
    ensures r.TraceReport? ==> r.traceTarget == opts.trace
    ensures r.FindReport? ==> r.findTarget == opts.find
  {
    if opts.size then SizeReport(SortBySize(SizeRows(w, cfg, roots)))
    else if opts.trace != "" then TraceReport(opts.trace, TraceAll(TraceGraph(w, cfg, opts.trace), roots))
    else if opts.find != "" then FindReport(opts.find, FoundIn(w, opts.find, roots))
    else TreeReport(TreeAll(w, cfg, TreeOptions(opts.tree, opts.externalOnly), roots))
  }

  /**
   * The rows are exactly the loadable roots, and each total is the size of
   * the files its root reaches, each counted once.
   */
  lemma SizeRowsCountOnce(w: World, cfg: Option<AliasConfig>, roots: seq<Path>)
    ensures forall row :: row in SizeRows(w, cfg, roots) ==>
      row.file in roots && row.file in w.files && row.size == SumSizes(w, ReachableFrom(w, cfg, row.file))
    ensures forall p :: p in roots && p in w.files ==> exists row :: row in SizeRows(w, cfg, roots) && row.file == p
  {
    var rows, files := SizeRows(w, cfg, roots), Loadable(w, roots);
    forall row | row in rows
      ensures row.file in roots && row.file in w.files && row.size == SumSizes(w, ReachableFrom(w, cfg, row.file))
    {
      var k :| 0 <= k < |rows| && rows[k] == row;
      assert row.file in files;
      RootReach(w, cfg, row.file);
    }
    forall p | p in roots && p in w.files ensures exists row :: row in rows && row.file == p {
      var k :| 0 <= k < |files| && files[k] == p;
      assert rows[k] in rows;
    }
  }

  /**
   * The size report: largest total first, exactly the rows of the loadable
   * roots, roots of equal total in their original order, and each total the
   * size of the files the root reaches, each counted once.
   */
  lemma SizeReportFacts(w: World, cfg: Option<AliasConfig>, opts: Options, roots: seq<Path>)
    requires opts.size
    ensures var ranked := Analyze(w, cfg, opts, roots).ranked;
      && NonIncreasing(ranked)
      && multiset(ranked) == multiset(SizeRows(w, cfg, roots))
      && (forall n: nat :: WithSize(ranked, n) == WithSize(SizeRows(w, cfg, roots), n))
      && (forall row :: row in ranked ==>
            row.file in roots && row.file in w.files &&
            row.size == SumSizes(w, ReachableFrom(w, cfg, row.file)))
      && (forall p :: p in roots && p in w.files ==> exists row :: row in ranked && row.file == p)
  {
    var rows := SizeRows(w, cfg, roots);
    var ranked := SortBySize(rows);
    SortBySizeCorrect(rows);
    SizeRowsCountOnce(w, cfg, roots);
    forall row | row in ranked ensures row in rows {
      assert row in multiset(ranked);
    }
    forall p | p in roots && p in w.files ensures exists row :: row in ranked && row.file == p {
      var row :| row in rows && row.file == p;
      assert row in multiset(rows);
    }
  }

  /**
   * The trace report holds exactly the simple import paths that start at a
   * loadable root and end at the first file on them whose imports name the
   * target.
   */
  lemma {:induction false} TraceAllChains(w: World, cfg: Option<AliasConfig>, target: string, roots: seq<Path>,
                                          c: seq<Path>)
    ensures var g := TraceGraph(w, cfg, target);
      c in TraceAll(g, roots) <==> IsChain(g, c, {}) && c[0] in roots && c[0] in w.files
    ensures c in TraceAll(TraceGraph(w, cfg, target), roots) ==> FileImportsTarget(w, c[|c| - 1], target)
  {
    if roots != [] {
      var init := roots[..|roots| - 1];
      var file := roots[|roots| - 1];
      TraceAllChains(w, cfg, target, init, c);
      if file in w.files {
        RootChains(w, cfg, target, file, c);
      }
      assert roots == init + [file];
    }
  }

  /**
   * Find mode looks at each root's direct imports only: a root is reported
   * exactly when one of its own specifiers matches the target.
   */
  lemma {:induction false} FoundInDirect(w: World, target: string, roots: seq<Path>, p: Path)
    ensures p in FoundIn(w, target, roots) <==>
      p in roots && p in w.files && exists j :: 0 <= j < |Imports(w, p)| && Matches(Imports(w, p)[j], target)
  {
    if roots != [] {
      var init := roots[..|roots| - 1];
      FoundInDirect(w, target, init, p);
      ContainsPackageIff(Imports(w, p), target);
      assert roots == init + [roots[|roots| - 1]];
    }
  }

  /**
   * Only whether each root loads and what it imports itself decide the find
   * report: every other file, and what the roots' imports import, can change.
   */
  lemma {:induction false} FoundInIgnoresTransitive(w1: World, w2: World, target: string, roots: seq<Path>)
    requires forall p :: p in roots ==> (p in w1.files <==> p in w2.files)
    requires forall p :: p in roots ==> Imports(w1, p) == Imports(w2, p)
    ensures FoundIn(w1, target, roots) == FoundIn(w2, target, roots)
  {
    if roots != [] {
      var init := roots[..|roots| - 1];
      FoundInIgnoresTransitive(w1, w2, target, init);
    }
  }

  /** With `externalOnly`, the listing of every root shows external imports only. */
  lemma {:induction false} TreeAllExternalOnly(w: World, cfg: Option<AliasConfig>, opts: TreeOptions, roots: seq<Path>)
    requires opts.externalOnly
    ensures ListsOnlyExternal(TreeAll(w, cfg, opts, roots), 0)
  {
    if roots != [] {
      var init := roots[..|roots| - 1];
      var file := roots[|roots| - 1];
      TreeAllExternalOnly(w, cfg, opts, init);
      if file in w.files {
        TreeExternalOnly(w, TreeResolve(w, cfg), opts, file, 0, Fresh);
        var before := TreeAll(w, cfg, opts, init);
        var walk := Tree(w, TreeResolve(w, cfg), opts, file, 0, Fresh).events;
        var all := before + ([Component(file)] + walk);
        forall k | 0 <= k < |all| ensures !(all[k].ImportLine? && !all[k].external) {
          if k > |before| {
            assert all[k] == walk[k - |before| - 1];
          }
        }
      }
    }
  }

  /** The size loop: a fresh visited set for each root that loads, then the sort. */
  method SizeMode(w: World, cfg: Option<AliasConfig>, roots: seq<Path>) returns (ranked: seq<SizeRow>)
    ensures ranked == SortBySize(SizeRows(w, cfg, roots))
  {
    var sizeResults: seq<SizeRow> := [];
    for i := 0 to |roots|
      invariant sizeResults == SizeRows(w, cfg, roots[..i])
    {
      var filePath := roots[i];
      assert roots[..i + 1][..i] == roots[..i];
      if filePath in w.files {
        var sizer := new DependencySizer();
        var totalSizeBytes := sizer.CalculateDependencySize(w, cfg, filePath);
        sizeResults := sizeResults + [SizeRow(filePath, totalSizeBytes)];
      }
    }
    assert roots[..|roots|] == roots;
    ranked := SortBySize(sizeResults);
  }

  /** The trace loop: each root traced from an empty stack and visited set, the chains concatenated. */
  method TraceMode(w: World, cfg: Option<AliasConfig>, traceTarget: string, roots: seq<Path>)
    returns (totalResults: seq<seq<Path>>)
    ensures totalResults == TraceAll(TraceGraph(w, cfg, traceTarget), roots)
  {
    ghost var g := TraceGraph(w, cfg, traceTarget);
    totalResults := [];
    for i := 0 to |roots|
      invariant totalResults == TraceAll(g, roots[..i])
    {
      var chains := TraceRoot(w, cfg, traceTarget, g, roots[i]);
      assert roots[..i + 1][..i] == roots[..i];
      assert TraceAll(g, roots[..i + 1]) == TraceAll(g, roots[..i]) + chains;
      totalResults := totalResults + chains;
    }
    assert roots[..|roots|] == roots;
  }

  /** One root of the trace loop: skipped when it cannot be loaded, otherwise traced by a fresh tracer. */
  method TraceRoot(w: World, cfg: Option<AliasConfig>, traceTarget: string, ghost g: Graph, filePath: Path)
    returns (chains: seq<seq<Path>>)
    requires g == TraceGraph(w, cfg, traceTarget)
    ensures filePath !in w.files ==> chains == []
    ensures filePath in w.files ==> chains == Trace(g, filePath, [], {})
  {
    chains := [];
    if filePath in w.files {
      var tracer := new ChainTracer();
      tracer.TraceImportChains(w, cfg, traceTarget, g, filePath);
      chains := tracer.results;
    }
  }

  /** The find loop: the roots whose own imports match the target. */
  method FindMode(w: World, targetPackage: string, roots: seq<Path>) returns (foundIn: seq<Path>)
    ensures foundIn == FoundIn(w, targetPackage, roots)
  {
    foundIn := [];
    for i := 0 to |roots|
      invariant foundIn == FoundIn(w, targetPackage, roots[..i])
    {
      var filePath := roots[i];
      assert roots[..i + 1][..i] == roots[..i];
      if filePath in w.files && ContainsPackage(Imports(w, filePath), targetPackage) {
        foundIn := foundIn + [filePath];
      }
    }
    assert roots[..|roots|] == roots;
  }

  /** The normal or tree loop: a heading per root, then its walk with `seenFiles` cleared and a new size map. */
  method TreeMode(w: World, cfg: Option<AliasConfig>, opts: TreeOptions, roots: seq<Path>) returns (lines: seq<Event>)
    ensures lines == TreeAll(w, cfg, opts, roots)
  {
    ghost var resolve := TreeResolve(w, cfg);
    var printer := new TreePrinter();
    lines := [];
    for i := 0 to |roots|
      invariant lines == TreeAll(w, cfg, opts, roots[..i])
    {
      var filePath := roots[i];
      assert roots[..i + 1][..i] == roots[..i];
      if filePath in w.files {
        printer.StartRoot();
        printer.AnalyzeFileRecursive(w, cfg, resolve, opts, filePath, 0);
        lines := lines + ([Component(filePath)] + printer.output);
      }
    }
    assert roots[..|roots|] == roots;
  }

  /** `analyzeComponent(entryPath, options)` over the given root files. */
  method AnalyzeComponent(w: World, cfg: Option<AliasConfig>, opts: Options, roots: seq<Path>) returns (report: Report)
    ensures report == Analyze(w, cfg, opts, roots)
  {
    var targetPackage := opts.find;
    var traceTarget := opts.trace;
    if opts.size {
      var ranked := SizeMode(w, cfg, roots);
      return SizeReport(ranked);
    }
    if traceTarget != "" {
      var chains := TraceMode(w, cfg, traceTarget, roots);
      return TraceReport(traceTarget, chains);
    }
    if targetPackage != "" {
      var foundIn := FindMode(w, targetPackage, roots);
      return FindReport(targetPackage, foundIn);
    }
    var lines := TreeMode(w, cfg, TreeOptions(opts.tree, opts.externalOnly), roots);
    return TreeReport(lines);
  }
}
