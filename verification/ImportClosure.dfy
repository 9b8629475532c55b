// The Solidity import collector: a recursive depth-first visit in which every visit scans its file
// with the same global regular expression, and therefore the same lastIndex cursor.
module ImportClosure {
  import opened Options

  // A source key or an import path, as its slash-separated segments.
  type Path = seq<string>

  const VIRTUAL_OZ := "oz"

  const ROOT_SOURCES: seq<Path> :=
    [["SampraanAccessControl.sol"], ["SampraanIdentityRegistry.sol"], ["SampraanAssetRegistry.sol"],
     ["SampraanGovernance.sol"]]

  datatype Import = OpenZeppelin(rel: Path) | Relative(path: Path) | Absolute

  /** One match of the import expression in a file's rewritten text. */
  datatype Match = Match(start: nat, end: nat, target: Import)

  datatype SourceFile = SourceFile(content: string, matches: seq<Match>)

  /** Matches of a text, as successive executions from position 0 find them. */
  predicate Scannable(matches: seq<Match>) {
    && (forall i | 0 <= i < |matches| :: matches[i].start < matches[i].end)
    && forall i, j | 0 <= i < j < |matches| :: matches[i].end <= matches[j].start
  }

  type Sources = files: map<Path, SourceFile> | forall k | k in files :: Scannable(files[k].matches)

  function Normalize(segments: Path, done: Path): Path
    decreases |segments|
  {
    if segments == [] then done
    else if segments[0] == "." || segments[0] == "" then Normalize(segments[1..], done)
    else if segments[0] == ".." && done != [] && done[|done| - 1] != ".."
    then Normalize(segments[1..], done[..|done| - 1])
    else Normalize(segments[1..], done + [segments[0]])
  }

  predicate Plain(segment: string) {
    segment != "" && segment != "." && segment != ".."
  }

  /** Plain segments, after steps up that lead out of the tree. */
  predicate Canonical(p: Path) {
    && (forall i | 0 <= i < |p| :: p[i] != "" && p[i] != ".")
    && forall i, j | 0 <= i < j < |p| && p[j] == ".." :: p[i] == ".."
  }

  /** A normalised path is canonical, and normalising a canonical one changes nothing. */
  lemma {:induction false} NormalizedIsCanonical(segments: Path, done: Path)
    requires Canonical(done)
    ensures Canonical(Normalize(segments, done))
    ensures Canonical(done + segments) ==> Normalize(segments, done) == done + segments
    decreases |segments|
  {
    if segments != [] {
      var first, rest := segments[0], segments[1..];
      assert done + segments == (done + [first]) + rest;
      if Canonical(done + segments) {
        assert first == (done + segments)[|done|];
        assert done != [] ==> (done + segments)[|done| - 1] == done[|done| - 1];
        assert Canonical(done + [first]) by { CanonicalPrefix(done + [first], rest); }
      }
      if first == "." || first == "" {
        NormalizedIsCanonical(rest, done);
      } else if first == ".." && done != [] && done[|done| - 1] != ".." {
        NormalizedIsCanonical(rest, done[..|done| - 1]);
      } else {
        assert Canonical(done + [first]);
        NormalizedIsCanonical(rest, done + [first]);
      }
    } else {
      assert done + segments == done;
    }
  }

  lemma CanonicalPrefix(front: Path, back: Path)
    requires Canonical(front + back)
    ensures Canonical(front)
  {
    assert forall i | 0 <= i < |front| :: front[i] == (front + back)[i];
  }

  /** A plain segment and the step up behind it cancel, wherever they stand. */
  lemma {:induction false} StepsUpCancel(before: Path, plain: string, after: Path, done: Path)
    requires Plain(plain)
    ensures Normalize(before + [plain, ".."] + after, done) == Normalize(before + after, done)
    decreases |before|
  {
    var all := before + [plain, ".."] + after;
    if before == [] {
      assert all[0] == plain && all[1..][0] == ".." && all[1..][1..] == after && before + after == after;
      assert (done + [plain])[..|done|] == done;
    } else {
      var rest := before[1..];
      assert all[1..] == rest + [plain, ".."] + after && (before + after)[1..] == rest + after;
      StepsUpCancel(rest, plain, after, done);
      StepsUpCancel(rest, plain, after, done + [before[0]]);
      if done != [] { StepsUpCancel(rest, plain, after, done[..|done| - 1]); }
    }
  }

  /** An import is looked up beside the file that has it, a library import below the library's own prefix. */
  lemma ResolvesBesideTheFile(dir: Path, name: string, file: string)
    requires Canonical(dir + [file]) && Plain(file)
    ensures Resolve(dir + [name], Relative([file])) == Some(dir + [file])
    ensures Resolve(dir + [name], Relative([".", file])) == Some(dir + [file])
    ensures Resolve(dir + [name], OpenZeppelin([file])) == Some(["oz", file])
    ensures Resolve(dir + [name], Absolute) == None
  {
    assert (dir + [name])[..|dir|] == dir;
    NormalizedIsCanonical(dir + [file], []);
    assert [] + (dir + [file]) == dir + [file];
    DotIsNothing(dir, [file], []);
    assert dir + [".", file] == dir + ["."] + [file] && [VIRTUAL_OZ] + [file] == ["oz", file];
  }

  lemma {:induction false} DotIsNothing(before: Path, after: Path, done: Path)
    ensures Normalize(before + ["."] + after, done) == Normalize(before + after, done)
    decreases |before|
  {
    var all := before + ["."] + after;
    if before == [] {
      assert all[0] == "." && all[1..] == after && before + after == after;
    } else {
      var rest := before[1..];
      assert all[1..] == rest + ["."] + after && (before + after)[1..] == rest + after;
      DotIsNothing(rest, after, done);
      DotIsNothing(rest, after, done + [before[0]]);
      if done != [] { DotIsNothing(rest, after, done[..|done| - 1]); }
    }
  }

  /** The key an import found in file `key` leads to; absolute imports are left to the compiler. */
  function Resolve(key: Path, target: Import): Option<Path> {
    match target
    case OpenZeppelin(rel) => Some([VIRTUAL_OZ] + rel)
    case Relative(path) => Some(Normalize((if key == [] then [] else key[..|key| - 1]) + path, []))
    case Absolute => None
  }

  ghost predicate ImportsKey(files: Sources, key: Path, child: Path) {
    key in files && exists m :: m in files[key].matches && Resolve(key, m.target) == Some(child)
  }

  /** A chain of imports. */
  ghost predicate ImportChain(files: Sources, chain: seq<Path>) {
    chain != [] && forall i | 0 <= i < |chain| - 1 :: ImportsKey(files, chain[i], chain[i + 1])
  }

  ghost predicate ReachableFrom(files: Sources, key: Path, target: Path) {
    exists chain :: ImportChain(files, chain) && chain[0] == key && chain[|chain| - 1] == target
  }

  ghost predicate Reachable(files: Sources, roots: seq<Path>, target: Path) {
    exists root :: root in roots && ReachableFrom(files, root, target)
  }

  lemma ReachesItself(files: Sources, key: Path)
    ensures ReachableFrom(files, key, key)
  {
    assert ImportChain(files, [key]) && [key][0] == key;
  }

  lemma LongerChain(files: Sources, key: Path, chain: seq<Path>)
    requires ImportChain(files, chain) && ImportsKey(files, key, chain[0])
    ensures ImportChain(files, [key] + chain)
  {
    var longer := [key] + chain;
    forall i | 0 <= i < |longer| - 1 ensures ImportsKey(files, longer[i], longer[i + 1]) {
      if i > 0 { assert longer[i] == chain[i - 1] && longer[i + 1] == chain[i]; }
    }
  }

  lemma ReachesThroughChild(files: Sources, key: Path, child: Path, target: Path)
    requires ImportsKey(files, key, child) && ReachableFrom(files, child, target)
    ensures ReachableFrom(files, key, target)
  {
    var chain :| ImportChain(files, chain) && chain[0] == child && chain[|chain| - 1] == target;
    LongerChain(files, key, chain);
    var longer := [key] + chain;
    assert longer[0] == key && longer[|longer| - 1] == target;
  }

  lemma ReachesMoreThroughChild(files: Sources, key: Path, child: Path)
    requires ImportsKey(files, key, child)
    ensures forall target | ReachableFrom(files, child, target) :: ReachableFrom(files, key, target)
  {
    forall target | ReachableFrom(files, child, target) ensures ReachableFrom(files, key, target) {
      ReachesThroughChild(files, key, child, target);
    }
  }

  ghost predicate Closed(files: Sources, keys: set<Path>) {
    forall k, child | k in keys && ImportsKey(files, k, child) :: child in keys
  }

  lemma {:induction false} ClosedSetHoldsChains(files: Sources, keys: set<Path>, chain: seq<Path>)
    requires Closed(files, keys) && ImportChain(files, chain) && chain[0] in keys
    ensures chain[|chain| - 1] in keys
    decreases |chain|
  {
    if |chain| > 1 {
      assert ImportsKey(files, chain[0], chain[1]);
      forall i | 0 <= i < |chain[1..]| - 1 ensures ImportsKey(files, chain[1..][i], chain[1..][i + 1]) {
        assert ImportsKey(files, chain[i + 1], chain[i + 2]);
      }
      ClosedSetHoldsChains(files, keys, chain[1..]);
    }
  }

  /** All files added between two points of the collection are reachable from this one. */
  ghost predicate VisitedFrom(files: Sources, before: set<Path>, after: set<Path>, key: Path) {
    forall k | k in after - before :: ReachableFrom(files, key, k)
  }

  /** Their imports have been added too, except for the files still being scanned. */
  ghost predicate ClosedBut(files: Sources, before: set<Path>, after: set<Path>, scanning: set<Path>) {
    forall k, child | k in after - before - scanning && ImportsKey(files, k, child) :: child in after
  }

  lemma VisitsCompose(files: Sources, before: set<Path>, mid: set<Path>, after: set<Path>, key: Path, child: Path)
    requires before <= mid <= after && key in mid && ImportsKey(files, key, child)
    requires VisitedFrom(files, before, mid, key) && ClosedBut(files, before, mid, {key})
    requires VisitedFrom(files, mid, after, child) && ClosedBut(files, mid, after, {})
    ensures VisitedFrom(files, before, after, key) && ClosedBut(files, before, after, {key})
  {
    ReachesMoreThroughChild(files, key, child);
  }

  /** Some file reachable from this one does not exist. */
  ghost predicate MissingFrom(files: Sources, key: Path) {
    exists k :: k !in files && ReachableFrom(files, key, k)
  }

  lemma MissingThroughChild(files: Sources, key: Path, child: Path)
    requires ImportsKey(files, key, child) && MissingFrom(files, child)
    ensures MissingFrom(files, key)
  {
    var k :| k !in files && ReachableFrom(files, child, k);
    ReachesThroughChild(files, key, child, k);
  }

  lemma FewerUnseen(all: set<Path>, before: set<Path>, after: set<Path>, key: Path)
    requires before <= after <= all && key !in before && key in after
    ensures |all - after| < |all - before|
  {
    assert all - before == (all - after) + (after - before);
    assert key in after - before;
  }

  /** What the matches up to a position lead to has been added. */
  ghost predicate ResolvedUpTo(files: Sources, key: Path, position: nat, seen: set<Path>)
    requires key in files
  {
    forall m | m in files[key].matches && m.end <= position && Resolve(key, m.target).Some? ::
      Resolve(key, m.target).value in seen
  }

  /** The same, leaving aside the match just found. */
  ghost predicate ResolvedBut(files: Sources, key: Path, position: nat, seen: set<Path>, found: Match)
    requires key in files
  {
    forall m | m in files[key].matches && m.end <= position && m != found && Resolve(key, m.target).Some? ::
      Resolve(key, m.target).value in seen
  }

  /** When no match is left, all imports of the file have been added. */
  lemma ScanIsOver(files: Sources, before: set<Path>, seen: set<Path>, key: Path)
    requires key in files && ResolvedUpTo(files, key, TextEnd(files[key].matches), seen)
    requires ClosedBut(files, before, seen, {key})
    ensures ClosedBut(files, before, seen, {})
  {
  }

  // ---------------------------------------------------------------- the shared cursor

  /** RegExp.exec with the global flag: the first match at or after lastIndex. */
  function Exec(matches: seq<Match>, lastIndex: nat): (r: Option<Match>)
    ensures r.Some? ==> exists i | 0 <= i < |matches| ::
              && r.value == matches[i] && lastIndex <= matches[i].start
              && forall j | 0 <= j < i :: matches[j].start < lastIndex
    ensures r.None? ==> forall m | m in matches :: m.start < lastIndex
  {
    if matches == [] then None
    else if lastIndex <= matches[0].start then Some(matches[0])
    else
      assert forall j | 0 < j < |matches| :: matches[j] == matches[1..][j - 1];
      Exec(matches[1..], lastIndex)
  }

  /** Nothing between the cursor and the match it finds is skipped. */
  lemma {:induction false} ExecSkipsNothing(matches: seq<Match>, lastIndex: nat, m: Match)
    requires Scannable(matches) && Exec(matches, lastIndex).Some? && m in matches
    requires m.end <= Exec(matches, lastIndex).value.end
    ensures m.start < lastIndex || m == Exec(matches, lastIndex).value
  {
    if lastIndex <= matches[0].start {
      var i :| 0 <= i < |matches| && matches[i] == m;
    } else if m != matches[0] {
      var i :| 0 <= i < |matches| && matches[i] == m;
      assert matches[1..][i - 1] == m;
      ExecSkipsNothing(matches[1..], lastIndex, m);
    }
  }

  /** The cursor stands at the start of a text or at the end of one of its matches. */
  predicate AtBoundary(matches: seq<Match>, lastIndex: nat) {
    lastIndex == 0 || exists m :: m in matches && m.end == lastIndex
  }

  lemma BehindBoundary(matches: seq<Match>, lastIndex: nat)
    requires Scannable(matches) && AtBoundary(matches, lastIndex)
    ensures forall m | m in matches && m.start < lastIndex :: m.end <= lastIndex
  {
    forall m | m in matches && m.start < lastIndex ensures m.end <= lastIndex {
      var last :| last in matches && last.end == lastIndex;
      var i :| 0 <= i < |matches| && matches[i] == m;
      var j :| 0 <= j < |matches| && matches[j] == last;
    }
  }

  /** The highest position the cursor can reach in a text. */
  function TextEnd(matches: seq<Match>): (r: nat)
    ensures forall m | m in matches :: m.end <= r
  {
    if matches == [] then 0
    else
      var rest := TextEnd(matches[1..]);
      if matches[0].end > rest then matches[0].end else rest
  }

  // ---------------------------------------------------------------- the collector

  function KeysOf(sources: seq<(Path, SourceFile)>): set<Path> {
    set s | s in sources :: s.0
  }

  predicate Distinct(sources: seq<(Path, SourceFile)>) {
    forall i, j | 0 <= i < j < |sources| :: sources[i].0 != sources[j].0
  }

  /** The recorded sources are exactly the seen files, each once, with its own content. */
  predicate Records(files: Sources, seen: set<Path>, sources: seq<(Path, SourceFile)>) {
    && KeysOf(sources) == seen
    && Distinct(sources)
    && forall s | s in sources :: s.0 in files && s.1 == files[s.0]
  }

  lemma OneMoreRecord(files: Sources, seen: set<Path>, sources: seq<(Path, SourceFile)>, key: Path)
    requires Records(files, seen, sources) && key in files && key !in seen
    ensures Records(files, seen + {key}, sources + [(key, files[key])])
  {
    var all, added := sources + [(key, files[key])], (key, files[key]);
    assert forall s :: s in all <==> s in sources || s == added;
    assert KeysOf(all) == KeysOf(sources) + {key};
    forall i, j | 0 <= i < j < |all| ensures all[i].0 != all[j].0 {
      assert all[i] in sources && all[i].0 in KeysOf(sources);
    }
  }

  class SourceCollector {
    const files: Sources
    var seen: set<Path>
    // the keys and contents of the sources object, in insertion order
    var sources: seq<(Path, SourceFile)>
    // IMPORT_RE.lastIndex
    var lastIndex: nat

    constructor (files: Sources)
      ensures this.files == files && seen == {} && sources == []
    {
      this.files := files;
      seen, sources, lastIndex := {}, [], 0;
    }

    /** How many of the files have not been read. */
    ghost function Unseen(): nat
      reads this
    {
      |files.Keys - seen|
    }

    /** Every seen key was read once and its content recorded. */
    ghost predicate Valid()
      reads this
    {
      seen <= files.Keys && Records(files, seen, sources)
    }

    method ReadFile(key: Path)
      requires Valid() && key in files && key !in seen
      modifies this
      ensures Valid() && seen == old(seen) + {key} && sources == old(sources) + [(key, files[key])]
      ensures lastIndex == 0
    {
      OneMoreRecord(files, seen, sources, key);
      seen := seen + {key};
      sources := sources + [(key, files[key])];
      lastIndex := 0;
    }

    /** One execution of the shared expression; it moves past the match it finds, and back to 0 when there is none. */
    method NextImport(matches: seq<Match>) returns (found: Option<Match>)
      requires Scannable(matches) && AtBoundary(matches, lastIndex)
      modifies this`lastIndex
      ensures AtBoundary(matches, lastIndex)
      ensures found.None? ==> lastIndex == 0 && forall m | m in matches :: m.end <= old(lastIndex)
      ensures found.Some? ==>
                && found.value in matches && old(lastIndex) < lastIndex == found.value.end <= TextEnd(matches)
                && forall m | m in matches && m.end <= lastIndex :: m.end <= old(lastIndex) || m == found.value
    {
      found := Exec(matches, lastIndex);
      BehindBoundary(matches, lastIndex);
      if found.Some? {
        forall m | m in matches && m.end <= found.value.end ensures m.end <= lastIndex || m == found.value {
          ExecSkipsNothing(matches, lastIndex, m);
        }
        lastIndex := found.value.end;
      } else {
        lastIndex := 0;
      }
    }

    /** Where a visit to `key` that began with the files `before` stands while it scans its text. */
    ghost predicate Scanning(before: set<Path>, key: Path)
      reads this
    {
      && Valid() && key in seen && before <= seen
      && AtBoundary(files[key].matches, lastIndex)
      && ResolvedUpTo(files, key, lastIndex, seen)
      && VisitedFrom(files, before, seen, key) && ClosedBut(files, before, seen, {key})
    }

    /**
     * A visit to an unseen file leaves the shared cursor at 0, whatever it was; a visit to a seen file leaves
     * it alone. Either way everything the file imports, directly or not, is recorded afterwards, and nothing else.
     */
    method AddFile(key: Path) returns (ok: bool)
      requires Valid()
      modifies this
      ensures ok ==> Valid() && old(seen) <= seen && key in seen
      ensures ok && key in old(seen) ==> seen == old(seen)
      ensures ok ==> lastIndex == if key in old(seen) then old(lastIndex) else 0
      ensures ok ==> VisitedFrom(files, old(seen), seen, key) && ClosedBut(files, old(seen), seen, {})
      ensures !ok ==> MissingFrom(files, key)
      decreases Unseen(), 0
    {
      ReachesItself(files, key);
      if key in seen {
        return true;
      }
      if key !in files {
        return false;
      }
      ghost var before := seen;
      ReadFile(key);
      FewerUnseen(files.Keys, before, seen, key);
      ok := ScanImports(key, before);
    }

    /** The loop over the matches of a file that has just been read; a visit inside it sends the cursor back to 0. */
    method ScanImports(key: Path, ghost before: set<Path>) returns (ok: bool)
      requires Scanning(before, key) && key !in before
      modifies this
      ensures ok ==> Valid() && before <= seen && key in seen && lastIndex == 0
      ensures ok ==> VisitedFrom(files, before, seen, key) && ClosedBut(files, before, seen, {})
      ensures !ok ==> MissingFrom(files, key)
      decreases Unseen(), 2
    {
      var matches := files[key].matches;
      while true
        invariant Scanning(before, key) && Unseen() <= old(Unseen())
        decreases Unseen(), TextEnd(matches) - lastIndex
      {
        var found := NextImport(matches);
        if found.None? {
          ScanIsOver(files, before, seen, key);
          return true;
        }
        ok := VisitImport(key, found.value, before);
        if !ok {
          return;
        }
      }
    }

    /** The body of the loop: visit what a match leads to, and afterwards go on from wherever the cursor then stands. */
    method VisitImport(key: Path, found: Match, ghost before: set<Path>) returns (ok: bool)
      requires Valid() && key in seen && before <= seen && key !in before
      requires found in files[key].matches && lastIndex == found.end
      requires ResolvedBut(files, key, lastIndex, seen, found)
      requires VisitedFrom(files, before, seen, key) && ClosedBut(files, before, seen, {key})
      modifies this
      ensures ok ==> Scanning(before, key)
      ensures ok ==> (seen == old(seen) && lastIndex == old(lastIndex)) || Unseen() < old(Unseen())
      ensures !ok ==> MissingFrom(files, key)
      decreases Unseen(), 1
    {
      var child := Resolve(key, found.target);
      if child.None? {
        return true;
      }
      assert ImportsKey(files, key, child.value);
      ok := AddFile(child.value);
      if !ok {
        MissingThroughChild(files, key, child.value);
        return;
      }
      VisitsCompose(files, before, old(seen), seen, key, child.value);
      if child.value !in old(seen) {
        FewerUnseen(files.Keys, old(seen), seen, child.value);
      }
    }
  }

  /**
   * The whole collection: it returns exactly when every file reachable from the roots exists, and then the
   * sources are exactly those files, each once, with its own content.
   */
  method CollectSources(files: Sources, roots: seq<Path> := ROOT_SOURCES)
    returns (r: Outcome<seq<(Path, SourceFile)>>)
    ensures r.Returned? <==> forall k | Reachable(files, roots, k) :: k in files
    ensures r.Returned? ==>
              && Distinct(r.value)
              && (forall k :: k in KeysOf(r.value) <==> Reachable(files, roots, k))
              && (forall s | s in r.value :: s.0 in files && s.1 == files[s.0])
  {
    var collector := new SourceCollector(files);
    var ok := CollectRoots(collector, roots);
    if !ok {
      return Threw;
    }
    CollectionIsExact(files, roots, collector.seen, collector.sources);
    return Returned(collector.sources);
  }

  /** The loop over the roots. */
  method CollectRoots(collector: SourceCollector, roots: seq<Path>) returns (ok: bool)
    requires collector.Valid() && collector.seen == {}
    modifies collector
    ensures ok ==> collector.Valid() && Collected(collector.files, roots, collector.seen)
    ensures !ok ==> !(forall k | Reachable(collector.files, roots, k) :: k in collector.files)
  {
    for i := 0 to |roots|
      invariant collector.Valid() && Collected(collector.files, roots[..i], collector.seen)
    {
      ghost var before := collector.seen;
      ok := collector.AddFile(roots[i]);
      if !ok {
        MissingFromARoot(collector.files, roots, i);
        return;
      }
      OneMoreRoot(collector.files, roots, i, before, collector.seen);
    }
    assert roots[..|roots|] == roots;
    return true;
  }

  /** The files collected for these roots: the roots, reachable files only, and all their imports. */
  ghost predicate Collected(files: Sources, roots: seq<Path>, seen: set<Path>) {
    && (forall root | root in roots :: root in seen)
    && (forall k | k in seen :: Reachable(files, roots, k))
    && Closed(files, seen)
  }

  lemma MissingFromARoot(files: Sources, roots: seq<Path>, i: nat)
    requires i < |roots| && MissingFrom(files, roots[i])
    ensures !(forall k | Reachable(files, roots, k) :: k in files)
  {
    var k :| k !in files && ReachableFrom(files, roots[i], k);
    assert roots[i] in roots && Reachable(files, roots, k);
  }

  lemma NewFilesStayClosed(files: Sources, before: set<Path>, after: set<Path>)
    requires before <= after && Closed(files, before) && ClosedBut(files, before, after, {})
    ensures Closed(files, after)
  {
  }

  lemma OneMoreRoot(files: Sources, roots: seq<Path>, i: nat, before: set<Path>, after: set<Path>)
    requires i < |roots| && Collected(files, roots[..i], before)
    requires before <= after && roots[i] in after
    requires VisitedFrom(files, before, after, roots[i]) && ClosedBut(files, before, after, {})
    ensures Collected(files, roots[..i + 1], after)
  {
    assert forall root :: root in roots[..i + 1] <==> root in roots[..i] || root == roots[i];
    forall k | k in after ensures Reachable(files, roots[..i + 1], k) {
      if k in before {
        assert Reachable(files, roots[..i], k);
      } else {
        assert ReachableFrom(files, roots[i], k);
      }
    }
    NewFilesStayClosed(files, before, after);
  }

  lemma CollectionIsExact(files: Sources, roots: seq<Path>, seen: set<Path>, sources: seq<(Path, SourceFile)>)
    requires Collected(files, roots, seen) && Records(files, seen, sources) && seen <= files.Keys
    ensures forall k :: k in KeysOf(sources) <==> Reachable(files, roots, k)
    ensures forall k | Reachable(files, roots, k) :: k in files
    ensures Distinct(sources) && forall s | s in sources :: s.0 in files && s.1 == files[s.0]
  {
    forall k | Reachable(files, roots, k) ensures k in seen {
      var root :| root in roots && ReachableFrom(files, root, k);
      var chain :| ImportChain(files, chain) && chain[0] == root && chain[|chain| - 1] == k;
      ClosedSetHoldsChains(files, seen, chain);
    }
  }
}
