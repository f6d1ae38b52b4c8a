# Import-graph analyzer core, modelled in Dafny

This project models the engine of a command-line tool that inspects the
import graph of a TypeScript/JavaScript source tree (`src/analyzer.ts`).
Given root files, it:

- resolves import specifiers to files on disk: relative paths, extensionless
  imports, `index` files, and `compilerOptions.paths` aliases;
- walks the graph in one of four modes:
  - **size**: the total on-disk size of what each root pulls in, ranked;
  - **trace**: the import chains from a root to a target module;
  - **find**: the roots whose own imports name a module;
  - **normal/tree**: a depth-first listing of imports.

The file system and the TypeScript project are one abstract value,
`World.World`. It records:

- which files exist;
- which of them `stat` succeeds on, and their sizes;
- each file's import specifiers, in source order;
- which file the TypeScript project resolves a relative specifier to.

The alias table is `World.AliasConfig`: rules in declaration order plus
`baseUrl`.

Files, by the shape of the source they model:

- `resolver.dfy`: specifier resolution (`resolveImport`,
  `resolveAliasImport`), written as functions.
- `matcher.dfy`: the target-match rule of find and trace mode.
- `size.dfy`, `trace.dfy` and `tree.dfy`: the three recursive walks. Each
  walk shares mutable state across calls (a visited set, a path stack, a
  result list, a size cache and output), so each is a class whose methods
  update that state. Every method is proved equal to a pure function that
  threads the same state, and the properties are proved about those
  functions.
- `ranking.dfy`: the stable descending sort of size mode.
- `analyzer.dfy`: `analyzeComponent`, meaning the per-root loops of each mode
  and the mode dispatch.

Behaviour worth noting:

- **The literal path is never probed.** For `./a` the resolver probes
  `./a.ts` … `./a.mjs`, then `./a/index.ts` … `./a/index.mjs`. It never probes
  `./a` itself (`src/analyzer.ts:313-321`). `ResolverFacts.RelativeResolution`
  proves that the result is never the base path.
- **External means "does not start with `.` or `/`", even for an alias.** The
  tree walk classifies specifiers this way (`src/analyzer.ts:243`,
  `src/analyzer.ts:249`). An alias specifier is therefore labelled external,
  gets no size, and is never expanded in tree mode. `resolveImport`'s alias
  branch is only reached from there for internal specifiers, so the tree
  walk never uses it. Size and trace mode do follow aliases, each with its
  own probing:
  - size mode tries `.ts`, `.tsx`, `.js` and `.jsx` and no `index` files;
    when none exists it keeps the alias target itself
    (`src/analyzer.ts:44-57`);
  - trace mode follows both the first existing `target + ext` and the first
    existing `target/index + ext` (`src/analyzer.ts:150-171`).
- **No warning for an internal import that resolves to nothing.** The tree
  walk silently skips it. The warning at `src/analyzer.ts:292-294` is
  printed only when something inside the `try` at `src/analyzer.ts:277-291`
  throws. That covers `resolveImport`, `fs.existsSync` and
  `addSourceFileAtPathIfExists`, and the whole nested `analyzeFileRecursive`
  call, so an existing file that fails to load triggers it too, and so does
  anything that throws deeper in the walk. None of these throw in this model.

## Model

| member | source | states |
|---|---|---|
| World.ResolvePath | src/analyzer.ts:98 | the result always ends with `rel`; an absolute `rel` is the result itself; otherwise the result starts with `base` and, for a non-empty `rel`, has exactly one separator at index `|base|` and length `|base| + 1 + |rel|` |
| World.Dirname | src/analyzer.ts:307 | a path with no separator has directory `.`; otherwise the directory is everything before the last separator (no separator follows it), or `/` when that separator is the first character |
| World.Basename | src/analyzer.ts:126 | the basename holds no separator and ends the path; it is the whole path when the path has no separator, and otherwise is strictly shorter and immediately preceded by a separator |
| Resolver.FirstExisting | src/analyzer.ts:313-321 | a probe loop only ever returns a path that exists |
| Resolver.FirstExistingIsFirstHit | src/analyzer.ts:313-321 | the probe returns the earliest existing candidate, with every earlier candidate missing; null exactly when no candidate exists |
| Resolver.Probe | src/analyzer.ts:47-53 | the `for … of` loop with an early `break` yields the first existing candidate, the same loop as the trace walk's two probes (`src/analyzer.ts:152-171`) |
| Resolver.KeyMatch | src/analyzer.ts:90-92 | definition of matching `^key$` with `*` as `(.*)`; properties in `KeyMatchIsReplaceStar` and `ReplaceStarIsMatched` |
| Resolver.ReplaceStar | src/analyzer.ts:97 | definition of `replace('*', capture)`, only the first `*` substituted; properties in `KeyMatchIsReplaceStar` and `ReplaceStarIsMatched` |
| Resolver.KeyMatchIsReplaceStar | src/analyzer.ts:89-97 | a key matches exactly the specifiers obtained by filling its `*` with the capture; a key without `*` matches only itself, with an empty capture |
| Resolver.ReplaceStarIsMatched | src/analyzer.ts:90-92 | a key with `*` matches every specifier built from it, capturing what was put in |
| Resolver.ResolveAlias | src/analyzer.ts:88-104 | definition of the rule loop; properties in `ResolveAliasFirstMatch` and `ResolverFacts.FirstMatchWins` |
| Resolver.ResolveAliasFirstMatch | src/analyzer.ts:88-104 | rules are tried in declaration order; the result is the target of the first rule that matches and has a replacement; null iff no rule qualifies |
| Resolver.IsRelative | src/analyzer.ts:309 | definition of the rule used at `src/analyzer.ts:42`, `140`, `309`: a specifier is resolved against the importing file iff it starts with `.` or `/` |
| Resolver.IsExternal | src/analyzer.ts:243 | definition of the tree walk's classification at `src/analyzer.ts:243` and `249`: external iff not relative, so an alias specifier such as `@app/x` counts as external; properties in `TreeExternalOnly` and `TreeImportsExternalOnly` |
| Resolver.ResolveImport | src/analyzer.ts:301-343 | a resolved path always exists on disk |
| ResolverFacts.FirstExistingConcat | src/analyzer.ts:313-321 | all `full + ext` candidates are probed before any `index` candidate |
| ResolverFacts.CandidateOrder | src/analyzer.ts:313-323 | the order is extensions first, then `index` files; `.ts` wins whenever it exists; the result is never the bare path; null iff all ten candidates are missing |
| ResolverFacts.RelativeResolution | src/analyzer.ts:307-324 | a `.`/`/` specifier is probed below the importer's directory in that order, and never resolves to the literal path |
| ResolverFacts.BareResolution | src/analyzer.ts:326-342 | a bare specifier resolves to null without aliases or when no alias qualifies; when rule `i` is the first to qualify, the result is the first existing candidate (extensions, then `index` files) of rule `i`'s target |
| ResolverFacts.FirstMatchWins | src/analyzer.ts:89-100 | when rule `i` is the first to qualify, its first replacement decides, whatever later rules say |
| Matcher.StripScriptExt | src/analyzer.ts:193 | definition of `replace(/\.(tsx?|jsx?)$/, '')`; properties in `StripTs`, `StripTsx`, `StripJs`, `StripJsx` and `StripAppendedExt` |
| Matcher.Matches | src/analyzer.ts:190-193 | definition of the target-match rule, shared with the trace walk's copy at `src/analyzer.ts:124-132`: the specifier equals the target, starts with `target/`, or has a basename equal to the target once one script extension is stripped; properties in `SubpathMatches`, `ScriptFileMatches` and `PlainNameMatchesOnlyItself` |
| Matcher.ContainsPackage | src/analyzer.ts:183-197 | definition of `imports.some(...)`; the characterisation is `ContainsPackageIff` |
| Matcher.ContainsPackageIff | src/analyzer.ts:183-197 | a file matches iff one of its own direct specifiers matches the target |
| Matcher.SubpathMatches | src/analyzer.ts:192 | every `target/…` specifier matches `target` |
| Matcher.StripAppendedExt | src/analyzer.ts:193 | removing the script extension undoes appending `.ts`, `.tsx`, `.js` or `.jsx` |
| Matcher.ScriptFileMatches | src/analyzer.ts:190-193 | a file specifier named after the target, with any directory and script extension, matches |
| Matcher.PlainNameMatchesOnlyItself | src/analyzer.ts:190-193 | a plain package name matches only itself (`lodash-es` is not `lodash`) |
| SizeWalk.SizeEdge | src/analyzer.ts:40-62 | size mode descends only into files that exist |
| SizeWalk.SizeCountsOnce | src/analyzer.ts:17-66 | a visited file adds 0 and changes nothing; otherwise the walk visits the file, adds only existing files, and returns exactly the summed size of the files it added, each once |
| SizeWalk.SizeImportsCountsOnce | src/analyzer.ts:36-63 | the import loop returns the summed size of the distinct files it newly visits |
| SizeWalk.Size | src/analyzer.ts:17-66 | definition of the walk threading `visited`; the visited set only grows; properties in `SizeCountsOnce`, `SizeCloses` and `RootReach` |
| SizeWalk.SizeImports | src/analyzer.ts:36-63 | definition of the import loop; the visited set only grows; properties in `SizeImportsCountsOnce` and `SizeImportsCloses` |
| SizeWalk.RootTotal | src/analyzer.ts:374-380 | a fresh walk from a root visits the root and only existing files; its total is the summed size of the distinct files it visited, and at least the root's own size |
| SizeWalk.ReachesCons | src/analyzer.ts:57-61 | a file reaches everything reachable from a file it descends into |
| SizeWalk.PathStaysIn | src/analyzer.ts:36-63 | a path of descents that starts in a set closed under descent stays in it |
| SizeWalk.SizeCloses | src/analyzer.ts:17-66 | a call visits its file; every file it adds is reachable from that file; and every descent out of an added file lands on a visited file |
| SizeWalk.SizeImportsCloses | src/analyzer.ts:36-63 | the loop visits the file every looped specifier descends into; what it adds is reachable and closed under descent |
| SizeWalk.RootReach | src/analyzer.ts:374-380 | a fresh walk from a root visits exactly the files reachable from it, and its total is the summed size of exactly those files, each counted once |
| SizeWalk.DependencySizer.constructor | src/analyzer.ts:376 | each root starts with an empty visited set |
| SizeWalk.DependencySizer.CalculateDependencySize | src/analyzer.ts:17-66 | the returned total and the new visited set are those of the walk `Size`, whose count-once property is proved above |
| ChainTrace.TraceTargets | src/analyzer.ts:137-173 | trace mode descends only into existing files, and into at most one for a relative specifier |
| ChainTrace.AliasProbes | src/analyzer.ts:150-171 | both alias probes (`target + ext`, `target/index + ext`) yield existing files |
| ChainTrace.TraceGraph | src/analyzer.ts:106-181 | the searched graph never leaves the files on disk |
| ChainTrace.Trace | src/analyzer.ts:116-145 | definition of one call on the graph, with stack and visited set; properties in `TraceSound`, `TraceComplete` and `RootChains` |
| ChainTrace.TraceSpecifier | src/analyzer.ts:138-173 | definition of following one specifier; properties in `TraceSpecifierSound` |
| ChainTrace.TraceBoth | src/analyzer.ts:150-171 | definition of following the extension probe's file, then the `index` probe's file; properties in `TraceSpecifierSound` |
| ChainTrace.TraceFound | src/analyzer.ts:152-160 | definition of following one probe's file, if it found one; properties in `TraceSpecifierSound` |
| ChainTrace.TraceImports | src/analyzer.ts:137-174 | definition of the loop over the specifiers; properties in `TraceImportsSound` and `TraceImportsIncludes` |
| ChainTrace.ChainCons | src/analyzer.ts:120-145 | pushing a non-matching file before a chain that starts at one of its imports gives a chain |
| ChainTrace.ChainTail | src/analyzer.ts:118-145 | a longer chain starts with a non-matching file, and its tail is a chain that avoids that file |
| ChainTrace.TraceSound | src/analyzer.ts:116-145 | every recorded chain is the current path stack followed by a simple path from the file to the first file whose imports name the target |
| ChainTrace.TraceSpecifierSound | src/analyzer.ts:138-173 | the chains found through one specifier start at a file that specifier leads to |
| ChainTrace.TraceImportsSound | src/analyzer.ts:137-174 | the chains found by the import loop start at a file one of the looped specifiers leads to |
| ChainTrace.TraceImportsIncludes | src/analyzer.ts:137-174 | the loop records every chain of every file it descends into |
| ChainTrace.TraceComplete | src/analyzer.ts:116-175 | every simple path to a target-importing file that avoids `visited` is recorded on top of the stack |
| ChainTrace.RootChains | src/analyzer.ts:419 | from a root with an empty stack and visited set, the recorded chains are exactly the simple import paths from the root that end at the first file naming the target |
| ChainTrace.ChainTracer.constructor | src/analyzer.ts:110-112 | stack, visited set and results start empty |
| ChainTrace.ChainTracer.TraceImportChains | src/analyzer.ts:106-181 | the stack and visited set are restored on return, and exactly the chains of `Trace` are appended to the results |
| ChainTrace.ChainTracer.FollowImports | src/analyzer.ts:137-175 | the import loop restores the state and appends the chains of each specifier in order |
| ChainTrace.ChainTracer.FollowSpecifier | src/analyzer.ts:138-173 | one specifier: relative via the project, bare via the alias; the state is restored |
| ChainTrace.ChainTracer.FollowAlias | src/analyzer.ts:150-171 | the extension probe's file is followed first, then the `index` probe's file; the state is restored and the chains of `TraceBoth` are appended |
| ChainTrace.ChainTracer.FollowProbe | src/analyzer.ts:152-161 | one probe loop finds the first existing candidate and follows it, appending exactly its chains of `TraceFound`; the state is restored |
| TreeWalk.OwnSize | src/analyzer.ts:218-229 | the expanded file's size is the cached one when present; otherwise `stat` (failure = 0), which is cached; existing entries are kept, and the only key added is the file itself |
| TreeWalk.ImportSize | src/analyzer.ts:257-270 | an internal import shows its cached size, or a successful `stat` that is then cached; an uncached file shows a size iff its `stat` succeeds, and a failing `stat` leaves the cache unchanged; no key other than the import's file is ever added |
| TreeWalk.Child | src/analyzer.ts:276-281 | only internal specifiers that resolve to an existing file are walked into |
| TreeWalk.TreeResolve | src/analyzer.ts:276-281 | the walk's resolution never leads outside the files on disk, and never from an external specifier |
| TreeWalk.Tree | src/analyzer.ts:199-297 | definition of the walk threading the printer's state; the seen set only grows; properties in `TreeExpandsOnce` and `TreeAppendsAndCaches` |
| TreeWalk.TreeImports | src/analyzer.ts:247-296 | definition of the `forEach`; the seen set only grows; properties in `TreeImportsExpandOnce` and `TreeImportsAppendsAndCaches` |
| TreeWalk.TreeEntry | src/analyzer.ts:248-295 | definition of one listed import; the seen set only grows; properties in `TreeEntryExpandsOnce` and `TreeEntryAppendsAndCaches` |
| TreeWalk.Visible | src/analyzer.ts:240-245 | definition of the `externalOnly` filter; it never lengthens the list; properties in `VisibleFilter` |
| TreeWalk.VisibleFilter | src/analyzer.ts:240-245 | without `externalOnly` every import is listed, in order; with it, exactly the external ones |
| TreeWalk.FreshRunConcat | src/analyzer.ts:210-215 | two runs of first-time expansions, the second avoiding the first, form one |
| TreeWalk.ExpandedSplit | src/analyzer.ts:210-215 | a walk's expanded list is the old list followed by the run it added |
| TreeWalk.RunsConcat | src/analyzer.ts:210-215 | the run added by two walks in turn is the first run followed by the second |
| TreeWalk.ExpandsOnceTrans | src/analyzer.ts:210-215 | expanding-once is preserved by doing one walk after another |
| TreeWalk.EnterThenExpand | src/analyzer.ts:210-215 | entering an unseen file and then walking its imports expands that file first, and no file twice |
| TreeWalk.TreeExpandsOnce | src/analyzer.ts:210-215 | a seen file is not expanded again; an unseen one is expanded first; every file expanded is new, expanded once, and added to `seenFiles` |
| TreeWalk.TreeImportsExpandOnce | src/analyzer.ts:247-296 | the import loop expands each file at most once |
| TreeWalk.TreeEntryExpandsOnce | src/analyzer.ts:247-296 | one listed import expands each file at most once |
| TreeWalk.TreeAppendsAndCaches | src/analyzer.ts:199-297 | output is only appended; the size cache only grows, never overwrites an entry, and holds true sizes; it is untouched outside tree mode; a seen file prints one "already visited" line and changes nothing else |
| TreeWalk.TreeImportsAppendsAndCaches | src/analyzer.ts:247-296 | the loop prints at least one line per listed import, and the cache only grows |
| TreeWalk.TreeEntryAppendsAndCaches | src/analyzer.ts:247-296 | one import prints its own line first (at its depth, with its specifier, its external flag, its last-sibling flag, and a size only in tree mode for an internal import), and the lines printed before it are kept; the cache only grows |
| TreeWalk.TreeExternalOnly | src/analyzer.ts:240-245 | with `externalOnly` no internal import is listed, and only the file itself is expanded |
| TreeWalk.TreeImportsExternalOnly | src/analyzer.ts:247-296 | listing only external imports prints no internal line and expands nothing |
| TreeWalk.RootExpandsOnce | src/analyzer.ts:491-502 | from a cleared seen set and a new size map: the root is expanded first, no file twice, the seen set is exactly the expanded files, and every cached size is the file's true size |
| TreeWalk.TreePrinter.constructor | src/analyzer.ts:9 | nothing is seen, cached or printed at first |
| TreeWalk.TreePrinter.StartRoot | src/analyzer.ts:491-501 | `seenFiles.clear()` and a new size map put the printer in the fresh state |
| TreeWalk.TreePrinter.AnalyzeFileRecursive | src/analyzer.ts:199-297 | the new seen set, cache and output are those of the walk `Tree` from the old state |
| TreeWalk.TreePrinter.ListImports | src/analyzer.ts:247-296 | the `forEach` has the effect of `TreeImports` |
| TreeWalk.TreePrinter.ListImport | src/analyzer.ts:248-295 | one import has the effect of `TreeEntry`, with `resolveImport` called once for the size and once for the recursion |
| Ranking.Insert | src/analyzer.ts:388 | inserting adds exactly one row |
| Ranking.SortBySize | src/analyzer.ts:388 | sorting keeps the number of rows |
| Ranking.InsertPermutes | src/analyzer.ts:388 | insertion adds exactly the inserted row |
| Ranking.ConsOrdered | src/analyzer.ts:388 | a row no smaller than the head of a descending list can go in front of it |
| Ranking.InsertOrders | src/analyzer.ts:388 | insertion keeps the list in descending order |
| Ranking.InsertKeepsTies | src/analyzer.ts:388 | insertion puts a row in front of the rows of equal size, which keep their order |
| Ranking.SortBySizeCorrect | src/analyzer.ts:388 | the result is in descending order, a permutation of the input, and stable (rows of equal size keep their input order) |
| Analyzer.Loadable | src/analyzer.ts:370-372 | the roots kept are exactly those the project can load; order and multiplicity are fixed by `LoadableOne` and `LoadableConcat` |
| Analyzer.LoadableOne | src/analyzer.ts:371-372 | a single root is kept iff the project can load it |
| Analyzer.LoadableSnoc | src/analyzer.ts:370-372 | one more root at the end is appended to the loadable roots iff it loads |
| Analyzer.LoadableConcat | src/analyzer.ts:370-372 | filtering a concatenation of roots filters each part in turn, so loadable roots keep their root order and multiplicity |
| Analyzer.SizeRows | src/analyzer.ts:367-386 | row `k` is the `k`-th loadable root (in root order, by `LoadableConcat`), each with the total of its own walk from an empty visited set |
| Analyzer.TraceAll | src/analyzer.ts:411-424 | definition of the root loop of trace mode; properties in `TraceAllChains` |
| Analyzer.FoundIn | src/analyzer.ts:462-470 | definition of the root loop of find mode; it reports only loadable roots and is never longer than the root list; the characterisation is `FoundInDirect` |
| Analyzer.TreeAll | src/analyzer.ts:484-504 | definition of the root loop of the listing; every loadable root gets its heading; properties in `TreeAllExternalOnly` |
| Analyzer.Analyze | src/analyzer.ts:347-505 | size mode wins over trace, trace over find, find over the listing; each report carries its own target |
| Analyzer.SizeRowsCountOnce | src/analyzer.ts:367-386 | every row is a loadable root and every loadable root has a row; each row's total is the summed size of exactly the files reachable from its root, each counted once |
| Analyzer.SizeReportFacts | src/analyzer.ts:367-388 | the size report is in descending order and a stable permutation of the rows; it holds a row for every loadable root and only for those, and each total is the summed size of exactly the files reachable from its root |
| Analyzer.TraceAllChains | src/analyzer.ts:411-424 | a chain is reported iff it is a simple import path from a loadable root to the first file naming the target, and its last file's imports do name the target |
| Analyzer.FoundInDirect | src/analyzer.ts:462-470 | a file is reported iff it is a loadable root with a direct specifier that matches the target |
| Analyzer.FoundInIgnoresTransitive | src/analyzer.ts:462-470 | as long as each root loads in both worlds or in neither, changing anything but the roots' own imports leaves the find report unchanged |
| Analyzer.TreeAllExternalOnly | src/analyzer.ts:484-504 | with `externalOnly`, no root's listing shows an internal import |
| Analyzer.SizeMode | src/analyzer.ts:367-388 | a fresh visited set per loadable root, in root order, then the stable sort |
| Analyzer.TraceMode | src/analyzer.ts:411-424 | each loadable root is traced from an empty stack and visited set, and the chains are concatenated in root order |
| Analyzer.TraceRoot | src/analyzer.ts:415-423 | a root the project cannot load contributes nothing; otherwise its chains are those of `Trace` from an empty stack and visited set |
| Analyzer.FindMode | src/analyzer.ts:462-470 | the loadable roots whose own imports match, in root order |
| Analyzer.TreeMode | src/analyzer.ts:484-504 | each loadable root gets a heading, then its walk from a cleared seen set and a new size map |
| Analyzer.AnalyzeComponent | src/analyzer.ts:347-505 | the report is `Analyze`, whose mode precedence is stated above |

## Left out

- `getTSConfigPaths` (`src/analyzer.ts:70-85`), i.e. locating and reading
  `tsconfig.json`, is not modelled. Its result is the `Option<AliasConfig>`
  parameter.
- Parsing with ts-morph, `getImportDeclarations` and
  `getModuleSpecifierSourceFile` are not modelled. They are the `imports`
  and `edges` of the abstract world.
- `fs.existsSync`, `fs.statSync` and `addSourceFileAtPathIfExists` are not
  modelled; they are the `files` and `size` of the world. A file that exists
  is assumed to load.
- The entry-path handling of `analyzeComponent` (`src/analyzer.ts:348-360`)
  is not modelled: `lstat`, `fast-glob` and `path.resolve` of each match.
  The root files are a parameter.
- Output formatting is not modelled: `formatBytes`, `chalk` colours, emoji
  labels, branch glyphs, indentation strings and the rank colours of size
  mode. Printed lines are `TreeWalk.Event` values; the size, trace and find
  reports are data.
- The rendering of each chain, as indented lines and a compact `→` line
  (`src/analyzer.ts:431-455`), is not modelled. So are the "nothing found"
  messages.
- `path.relative(process.cwd(), …)` on printed and reported paths is not
  modelled. Reports carry the absolute paths.
- Path normalisation is not modelled. `..` and `.` segments are not
  collapsed, and a trailing separator is not removed before `basename`.
  Paths are compared as plain strings.
- `Resolver.KeyMatch` splits an alias key at its first `*` and treats the
  rest literally. Keys holding other regular-expression metacharacters, or
  more than one `*`, are not modelled, and neither are `$` patterns in
  replacements. Unlike JavaScript's `.`, it also lets the capture contain a
  line break.
- Alias rules are taken in the declared order. JavaScript enumerates
  integer-like object keys first; that ordering is not modelled.
- The `catch` branches of the tree walk are not modelled: the warning at
  `src/analyzer.ts:292-294`, and the empty size on a throwing `stat`, which
  is modelled only as a missing size.
- `async`/`await` in chain tracing is not modelled. The search is
  sequential, as the source's awaited calls are.
- JavaScript numbers are not modelled; sizes and totals are unbounded
  naturals.
- `seenFiles` is module-wide in the source. In the model it is a field of
  `TreePrinter`, cleared by `StartRoot` wherever the source calls
  `seenFiles.clear()`.
- `TreeWalk.TreeState.expanded` and `TreePrinter.expanded` are ghost
  records of the order in which files are expanded. The source does not
  keep them; they exist only to state the expand-once property.
