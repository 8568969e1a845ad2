/** The ingredient resolver: `collect` and `collect_recursively` turn the
    recipe's ingredient list into the ordered list of path pairs that every
    container is built from. */
module Resolver {
  import opened Wrappers
  import opened Config
  import opened Events

  /** What the filesystem says about a path. A directory lists its direct
      children by name, in the order `read_dir` yields them. */
  datatype Node = File | Dir(children: seq<string>) | Other

  /** Paths that are absent from the map are neither files nor directories. */
  type FileSystem = map<string, Node>

  /** The regular-expression engine, left uninterpreted: whether a pattern
      compiles, and whether it matches somewhere inside a name (an
      unanchored search). */
  datatype RegexEngine = RegexEngine(compiles: string -> bool, isMatch: (string, string) -> bool)

  function Kind(fs: FileSystem, path: string): Node {
    if path in fs then fs[path] else Other
  }

  /** The path of child `name` of directory `dir`, as a directory entry
      reports it: a separator is inserted only when `dir` is non-empty and
      does not already end in one. */
  function ChildPath(dir: string, name: string): string {
    if dir != [] && dir[|dir| - 1] != '/' then dir + "/" + name else dir + name
  }

  /** The pair pushed for directory child `name` of ingredient
      `source` -> `destination`. */
  function DirEntry(destination: string, source: string, name: string): Entry {
    (destination + "/" + name, ChildPath(source, name))
  }

  /** One pair per name, in order. */
  function ChildEntries(destination: string, source: string, names: seq<string>): seq<Entry>
    decreases |names|
  {
    if names == [] then []
    else ChildEntries(destination, source, names[..|names| - 1]) + [DirEntry(destination, source, names[|names| - 1])]
  }

  /** The names the filter matches, in their original order. */
  function Matching(rx: RegexEngine, filter: string, names: seq<string>): seq<string>
    decreases |names|
  {
    if names == [] then []
    else
      var last := names[|names| - 1];
      Matching(rx, filter, names[..|names| - 1]) + (if rx.isMatch(filter, last) then [last] else [])
  }

  /** The pairs one ingredient adds, or the reason it aborts resolution. */
  function Contribution(fs: FileSystem, rx: RegexEngine, i: Ingredient): Result<seq<Entry>, Failure> {
    match Kind(fs, i.source)
    case File => Ok([(i.source, i.destination)])
    case Dir(children) =>
      (match i.filter
       case Some(f) =>
         if rx.compiles(f) then Ok(ChildEntries(i.destination, i.source, Matching(rx, f, children)))
         else Err(InvalidFilter(f))
       case None => Ok(ChildEntries(i.destination, i.source, children)))
    case Other => Err(NotFileOrDir(i.source))
  }

  /** The pairs of all ingredients in declaration order; the first
      ingredient that fails decides the error. */
  function Contributions(fs: FileSystem, rx: RegexEngine, ings: seq<Ingredient>): Result<seq<Entry>, Failure>
    decreases |ings|
  {
    if ings == [] then Ok([])
    else
      match Contributions(fs, rx, ings[..|ings| - 1])
      case Err(e) => Err(e)
      case Ok(prev) =>
        match Contribution(fs, rx, ings[|ings| - 1])
        case Err(e) => Err(e)
        case Ok(more) => Ok(prev + more)
  }

  /** How many pairs the ingredients add, counting a failing one as none. */
  function ContributedCount(fs: FileSystem, rx: RegexEngine, ings: seq<Ingredient>): nat
    decreases |ings|
  {
    if ings == [] then 0
    else
      var last := Contribution(fs, rx, ings[|ings| - 1]);
      ContributedCount(fs, rx, ings[..|ings| - 1]) + (if last.Ok? then |last.value| else 0)
  }

  /** The crate's own build output: stored under the rename or the package
      name, read from `target_directory/name`. */
  function PrimaryEntry(c: Cook, pkg: Package): Entry {
    (c.targetRename.GetOr(pkg.name), c.targetDirectory + "/" + pkg.name)
  }

  /** The list `collect` returns, or the reason it aborts. */
  function Resolve(fs: FileSystem, rx: RegexEngine, c: Cook, pkg: Package): Result<seq<Entry>, Failure> {
    match Contributions(fs, rx, Ingredients(c))
    case Err(e) => Err(e)
    case Ok(files) => Ok(files + [PrimaryEntry(c, pkg)])
  }

  /** `collect_recursively`: appends one pair per direct child of `source`,
      subdirectories included, without descending into them. */
  method CollectRecursively(fs: FileSystem, source: string, destination: string, files: seq<Entry>)
    returns (r: Result<seq<Entry>, Failure>)
    ensures !Kind(fs, source).Dir? ==> r == Err(NotADirectory(source))
    ensures Kind(fs, source).Dir? ==> r == Ok(files + ChildEntries(destination, source, Kind(fs, source).children))
  {
    var node := Kind(fs, source);
    if !node.Dir? {
      return Err(NotADirectory(source));
    }
    var out := files;
    for k := 0 to |node.children|
      invariant out == files + ChildEntries(destination, source, node.children[..k])
    {
      var name := node.children[k];
      out := out + [DirEntry(destination, source, name)];
      assert node.children[..k + 1][..k] == node.children[..k];
    }
    assert node.children[..|node.children|] == node.children;
    return Ok(out);
  }

  /** The filtered branch of `collect`: appends the pair of each listed
      child whose name the pattern matches, in listing order. */
  method PushMatching(rx: RegexEngine, filter: string, destination: string, source: string,
                      children: seq<string>, files: seq<Entry>) returns (out: seq<Entry>)
    ensures out == files + ChildEntries(destination, source, Matching(rx, filter, children))
  {
    out := files;
    for k := 0 to |children|
      invariant out == files + ChildEntries(destination, source, Matching(rx, filter, children[..k]))
    {
      assert children[..k + 1][..k] == children[..k];
      var name := children[k];
      ghost var kept := Matching(rx, filter, children[..k]);
      if rx.isMatch(filter, name) {
        assert Matching(rx, filter, children[..k + 1]) == kept + [name];
        assert (kept + [name])[..|kept|] == kept;
        out := out + [DirEntry(destination, source, name)];
      } else {
        assert Matching(rx, filter, children[..k + 1]) == kept + [];
        assert kept + [] == kept;
      }
    }
    assert children[..|children|] == children;
  }

  /** `collect`: walks the ingredients in order and pushes their pairs,
      then the primary artifact's pair. */
  method Collect(fs: FileSystem, rx: RegexEngine, c: Cook, pkg: Package) returns (r: Result<seq<Entry>, Failure>)
    ensures r == Resolve(fs, rx, c, pkg)
  {
    var files: seq<Entry> := [];
    var ings := Ingredients(c);
    for n := 0 to |ings|
      invariant Contributions(fs, rx, ings[..n]) == Ok(files)
    {
      assert ings[..n + 1][..n] == ings[..n];
      var i := ings[n];
      var node := Kind(fs, i.source);
      if node.File? {
        files := files + [(i.source, i.destination)];
      } else if node.Dir? {
        if i.filter.Some? {
          var f := i.filter.value;
          if !rx.compiles(f) {
            ErrorPersists(fs, rx, ings, n + 1);
            assert ings[..|ings|] == ings;
            return Err(InvalidFilter(f));
          }
          files := PushMatching(rx, f, i.destination, i.source, node.children, files);
        } else {
          var res := CollectRecursively(fs, i.source, i.destination, files);
          assert res.Ok?;
          files := res.value;
        }
      } else {
        ErrorPersists(fs, rx, ings, n + 1);
        assert ings[..|ings|] == ings;
        return Err(NotFileOrDir(i.source));
      }
    }
    assert ings[..|ings|] == ings;
    files := files + [PrimaryEntry(c, pkg)];
    return Ok(files);
  }

  /** Once a prefix of the ingredients fails, the whole list fails with the
      same error: resolution stops at the first bad ingredient. */
  lemma {:induction false} ErrorPersists(fs: FileSystem, rx: RegexEngine, ings: seq<Ingredient>, m: nat)
    requires m <= |ings|
    requires Contributions(fs, rx, ings[..m]).Err?
    ensures Contributions(fs, rx, ings) == Contributions(fs, rx, ings[..m])
    decreases |ings|
  {
    if m == |ings| {
      assert ings[..m] == ings;
    } else {
      var p := ings[..|ings| - 1];
      assert p[..m] == ings[..m];
      ErrorPersists(fs, rx, p, m);
    }
  }

  /** Resolution succeeds exactly when every ingredient does, and a failure
      is the error of the first ingredient that fails. */
  lemma {:induction false} ContributionsFailFast(fs: FileSystem, rx: RegexEngine, ings: seq<Ingredient>)
    ensures Contributions(fs, rx, ings).Ok? <==>
      forall k :: 0 <= k < |ings| ==> Contribution(fs, rx, ings[k]).Ok?
    ensures Contributions(fs, rx, ings).Err? ==>
      exists k :: 0 <= k < |ings| && Contribution(fs, rx, ings[k]) == Err(Contributions(fs, rx, ings).error) &&
        forall j :: 0 <= j < k ==> Contribution(fs, rx, ings[j]).Ok?
    decreases |ings|
  {
    if ings != [] {
      var p := ings[..|ings| - 1];
      ContributionsFailFast(fs, rx, p);
      assert forall k :: 0 <= k < |p| ==> p[k] == ings[k];
    }
  }

  /** The pairs of all ingredients number exactly the sum of their
      contributions. */
  lemma {:induction false} ContributionsLength(fs: FileSystem, rx: RegexEngine, ings: seq<Ingredient>)
    requires Contributions(fs, rx, ings).Ok?
    ensures |Contributions(fs, rx, ings).value| == ContributedCount(fs, rx, ings)
    decreases |ings|
  {
    if ings != [] {
      ContributionsLength(fs, rx, ings[..|ings| - 1]);
    }
  }

  /** Ingredient `k`'s pairs sit, unchanged and contiguous, right after the
      pairs of the ingredients before it. */
  lemma {:induction false} ContributionsSlice(fs: FileSystem, rx: RegexEngine, ings: seq<Ingredient>, k: nat)
    requires Contributions(fs, rx, ings).Ok?
    requires k < |ings|
    ensures Contribution(fs, rx, ings[k]).Ok?
    ensures ContributedCount(fs, rx, ings[..k]) + |Contribution(fs, rx, ings[k]).value| <= |Contributions(fs, rx, ings).value|
    ensures var off := ContributedCount(fs, rx, ings[..k]);
      Contributions(fs, rx, ings).value[off..off + |Contribution(fs, rx, ings[k]).value|] == Contribution(fs, rx, ings[k]).value
    decreases |ings|
  {
    var p := ings[..|ings| - 1];
    ContributionsLength(fs, rx, p);
    if k == |ings| - 1 {
      assert ings[..k] == p;
    } else {
      assert p[..k] == ings[..k];
      assert p[k] == ings[k];
      ContributionsSlice(fs, rx, p, k);
    }
  }

  /** The resolved list ends with the primary artifact's pair, and before it
      holds exactly the ingredients' pairs; with no ingredients it is that
      single pair. */
  lemma {:induction false} ResolveAppendsPrimary(fs: FileSystem, rx: RegexEngine, c: Cook, pkg: Package)
    ensures Ingredients(c) == [] ==> Resolve(fs, rx, c, pkg) == Ok([PrimaryEntry(c, pkg)])
    ensures Resolve(fs, rx, c, pkg).Ok? ==>
      var r := Resolve(fs, rx, c, pkg).value;
      |r| == ContributedCount(fs, rx, Ingredients(c)) + 1 &&
      r[|r| - 1] == (c.targetRename.GetOr(pkg.name), c.targetDirectory + "/" + pkg.name)
  {
    if Contributions(fs, rx, Ingredients(c)).Ok? {
      ContributionsLength(fs, rx, Ingredients(c));
    }
    if Ingredients(c) == [] {
      assert [] + [PrimaryEntry(c, pkg)] == [PrimaryEntry(c, pkg)];
    }
  }

  /** Resolution succeeds iff every ingredient does; otherwise it reports the
      first failing ingredient's error and returns no list. */
  lemma ResolveFailsFast(fs: FileSystem, rx: RegexEngine, c: Cook, pkg: Package)
    ensures Resolve(fs, rx, c, pkg).Ok? <==>
      forall k :: 0 <= k < |Ingredients(c)| ==> Contribution(fs, rx, Ingredients(c)[k]).Ok?
    ensures Resolve(fs, rx, c, pkg).Err? ==>
      exists k :: 0 <= k < |Ingredients(c)| &&
        Contribution(fs, rx, Ingredients(c)[k]) == Err(Resolve(fs, rx, c, pkg).error) &&
        forall j :: 0 <= j < k ==> Contribution(fs, rx, Ingredients(c)[j]).Ok?
  {
    ContributionsFailFast(fs, rx, Ingredients(c));
  }

  /** An ingredient whose source is neither a file nor a directory aborts the
      whole resolution. */
  lemma ResolveRejectsOther(fs: FileSystem, rx: RegexEngine, c: Cook, pkg: Package, k: nat)
    requires k < |Ingredients(c)|
    requires Kind(fs, Ingredients(c)[k].source).Other?
    ensures Resolve(fs, rx, c, pkg).Err?
  {
    ResolveFailsFast(fs, rx, c, pkg);
  }

  /** A single-file ingredient puts exactly one pair into the resolved list,
      `(source, destination)` in that order and unchanged, at the position
      after the pairs of the ingredients before it. */
  lemma ResolvedFileEntry(fs: FileSystem, rx: RegexEngine, c: Cook, pkg: Package, k: nat)
    requires Resolve(fs, rx, c, pkg).Ok?
    requires k < |Ingredients(c)|
    requires Kind(fs, Ingredients(c)[k].source) == File
    ensures Contribution(fs, rx, Ingredients(c)[k]) == Ok([(Ingredients(c)[k].source, Ingredients(c)[k].destination)])
    ensures ContributedCount(fs, rx, Ingredients(c)[..k]) < |Resolve(fs, rx, c, pkg).value|
    ensures Resolve(fs, rx, c, pkg).value[ContributedCount(fs, rx, Ingredients(c)[..k])] ==
      (Ingredients(c)[k].source, Ingredients(c)[k].destination)
  {
    var ings := Ingredients(c);
    ContributionsSlice(fs, rx, ings, k);
    var off := ContributedCount(fs, rx, ings[..k]);
    var v := Contributions(fs, rx, ings).value;
    assert v[off..off + 1][0] == v[off];
  }

  /** Resolve's list restricted to ingredient `k` is that ingredient's
      contribution. */
  lemma ResolvedSlice(fs: FileSystem, rx: RegexEngine, c: Cook, pkg: Package, k: nat)
    requires Resolve(fs, rx, c, pkg).Ok?
    requires k < |Ingredients(c)|
    ensures Contribution(fs, rx, Ingredients(c)[k]).Ok?
    ensures ContributedCount(fs, rx, Ingredients(c)[..k]) + |Contribution(fs, rx, Ingredients(c)[k]).value| < |Resolve(fs, rx, c, pkg).value|
    ensures var off := ContributedCount(fs, rx, Ingredients(c)[..k]);
      Resolve(fs, rx, c, pkg).value[off..off + |Contribution(fs, rx, Ingredients(c)[k]).value|] == Contribution(fs, rx, Ingredients(c)[k]).value
  {
    var ings := Ingredients(c);
    ContributionsSlice(fs, rx, ings, k);
    var v := Contributions(fs, rx, ings).value;
    var off := ContributedCount(fs, rx, ings[..k]);
    var len := |Contribution(fs, rx, ings[k]).value|;
    assert (v + [PrimaryEntry(c, pkg)])[off..off + len] == v[off..off + len];
  }

  lemma {:induction false} ChildEntriesAt(destination: string, source: string, names: seq<string>)
    ensures |ChildEntries(destination, source, names)| == |names|
    ensures forall k :: 0 <= k < |names| ==>
      ChildEntries(destination, source, names)[k] == DirEntry(destination, source, names[k])
    decreases |names|
  {
    if names != [] {
      var p := names[..|names| - 1];
      ChildEntriesAt(destination, source, p);
    }
  }

  /** Different children of one ingredient give different archive names. */
  lemma DirEntryInjective(destination: string, source: string, a: string, b: string)
    requires DirEntry(destination, source, a).0 == DirEntry(destination, source, b).0
    ensures a == b
  {
    var x := destination + "/" + a;
    var y := destination + "/" + b;
    assert x[|destination| + 1..] == a;
    assert y[|destination| + 1..] == b;
  }

  /** A child has a pair in ChildEntries exactly when it is among the names. */
  lemma ChildEntriesMembers(destination: string, source: string, names: seq<string>, name: string)
    ensures DirEntry(destination, source, name) in ChildEntries(destination, source, names) <==> name in names
  {
    ChildEntriesAt(destination, source, names);
    var r := ChildEntries(destination, source, names);
    if name in names {
      var k :| 0 <= k < |names| && names[k] == name;
      assert r[k] == DirEntry(destination, source, name);
    }
    if DirEntry(destination, source, name) in r {
      var k :| 0 <= k < |r| && r[k] == DirEntry(destination, source, name);
      DirEntryInjective(destination, source, names[k], name);
    }
  }

  /** The filter keeps a name iff the name is listed and matches. */
  lemma {:induction false} MatchingMembers(rx: RegexEngine, filter: string, names: seq<string>)
    ensures forall x :: x in Matching(rx, filter, names) <==> x in names && rx.isMatch(filter, x)
    decreases |names|
  {
    if names != [] {
      var p := names[..|names| - 1];
      MatchingMembers(rx, filter, p);
      assert names == p + [names[|names| - 1]];
    }
  }

  /** Filtering keeps listing order: it distributes over concatenation. */
  lemma {:induction false} MatchingAppend(rx: RegexEngine, filter: string, a: seq<string>, b: seq<string>)
    ensures Matching(rx, filter, a + b) == Matching(rx, filter, a) + Matching(rx, filter, b)
    decreases |b|
  {
    if b == [] {
      assert a + b == a;
    } else {
      var p := b[..|b| - 1];
      assert (a + b)[..|a + b| - 1] == a + p;
      assert (a + b)[|a + b| - 1] == b[|b| - 1];
      MatchingAppend(rx, filter, a, p);
    }
  }

  /** A directory ingredient without a filter contributes one pair per
      direct child, in listing order, subdirectories included and not
      descended into. */
  lemma DirectoryContribution(fs: FileSystem, rx: RegexEngine, i: Ingredient)
    requires Kind(fs, i.source).Dir? && i.filter.None?
    ensures Contribution(fs, rx, i).Ok?
    ensures |Contribution(fs, rx, i).value| == |Kind(fs, i.source).children|
    ensures forall k :: 0 <= k < |Kind(fs, i.source).children| ==>
      var name := Kind(fs, i.source).children[k];
      Contribution(fs, rx, i).value[k] == (i.destination + "/" + name, ChildPath(i.source, name))
  {
    ChildEntriesAt(i.destination, i.source, Kind(fs, i.source).children);
  }

  /** A directory ingredient with a filter contributes, in listing order, the
      pairs of the children whose names match and nothing for the others; a
      pattern that does not compile aborts. */
  lemma FilteredContribution(fs: FileSystem, rx: RegexEngine, i: Ingredient)
    requires Kind(fs, i.source).Dir? && i.filter.Some?
    ensures !rx.compiles(i.filter.value) ==> Contribution(fs, rx, i) == Err(InvalidFilter(i.filter.value))
    ensures rx.compiles(i.filter.value) ==>
      Contribution(fs, rx, i).Ok? &&
      |Contribution(fs, rx, i).value| == |Matching(rx, i.filter.value, Kind(fs, i.source).children)| &&
      (forall k :: 0 <= k < |Contribution(fs, rx, i).value| ==>
        Contribution(fs, rx, i).value[k] ==
          DirEntry(i.destination, i.source, Matching(rx, i.filter.value, Kind(fs, i.source).children)[k])) &&
      (forall name :: name in Kind(fs, i.source).children ==>
        (DirEntry(i.destination, i.source, name) in Contribution(fs, rx, i).value <==> rx.isMatch(i.filter.value, name)))
  {
    var f := i.filter.value;
    var children := Kind(fs, i.source).children;
    if rx.compiles(f) {
      var kept := Matching(rx, f, children);
      ChildEntriesAt(i.destination, i.source, kept);
      MatchingMembers(rx, f, children);
      forall name | name in children
        ensures DirEntry(i.destination, i.source, name) in Contribution(fs, rx, i).value <==> rx.isMatch(f, name)
      {
        ChildEntriesMembers(i.destination, i.source, kept, name);
      }
    }
  }
}
