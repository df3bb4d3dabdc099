/**
 * `check_project_contents`: checks a generated project tree against the
 * expected manifest and the allowed source-file names. The filesystem is a
 * map from slash-separated path to node; a path that is not a key does not
 * exist.
 */
module ProjectCheck {
  import opened Wrappers
  import opened CookiecutterContext
  import opened Manifest

  /** What a path names: a directory, or a regular file of some size in bytes. */
  datatype Node = Dir | File(size: nat)

  type FileSystem = map<string, Node>

  /** The assertion that fails first; the check raises on it. */
  datatype Failure =
    | RootMissing
    | RootNotDirectory
    | PathMissing(path: string)
    | WrongKind(path: string, expected: Kind)
    | EmptyFile(path: string)
    | UnexpectedSourceFile(path: string)
  {
    /** A failure raised while walking the manifest. */
    predicate IsEntryFailure() {
      PathMissing? || WrongKind? || EmptyFile?
    }
  }

  /** `Path(dir) / rel` */
  function Join(dir: string, rel: string): string {
    dir + "/" + rel
  }

  /** `Path.name`: the text after the last slash. */
  function BaseName(path: string): (name: string)
    ensures |name| <= |path| && name == path[|path| - |name|..]
    ensures '/' !in name
    ensures |name| < |path| ==> path[|path| - |name| - 1] == '/'
  {
    if path == [] || path[|path| - 1] == '/' then []
    else BaseName(path[..|path| - 1]) + [path[|path| - 1]]
  }

  /** The name matches the glob pattern `*.py`. */
  predicate MatchesPy(name: string) {
    |name| >= 3 && name[|name| - 3..] == ".py"
  }

  /** `path` lies somewhere below the directory `dir`, not at `dir` itself. */
  predicate StrictlyUnder(path: string, dir: string) {
    |dir| + 1 < |path| && path[..|dir| + 1] == dir + "/"
  }

  /** `project_path / "src" / project_name` */
  function SourceDir(root: string, projectName: string): string {
    Join(Join(root, "src"), projectName)
  }

  /** `dir.rglob("*.py")`: every path below `dir` whose name matches `*.py`. */
  function RGlobPy(fs: FileSystem, dir: string): set<string> {
    set p | p in fs.Keys && StrictlyUnder(p, dir) && MatchesPy(BaseName(p))
  }

  predicate RootIsDirectory(fs: FileSystem, root: string) {
    root in fs && fs[root] == Dir
  }

  /** The manifest entry `e` is present under `root` with its kind, and a file is not empty. */
  predicate EntryHolds(fs: FileSystem, root: string, e: Entry) {
    var p := Join(root, e.path);
    p in fs &&
    match e.kind
    case IsDir => fs[p] == Dir
    case IsFile => fs[p].File? && fs[p].size > 0
  }

  predicate ManifestHolds(fs: FileSystem, root: string, m: seq<Entry>) {
    forall i :: 0 <= i < |m| ==> EntryHolds(fs, root, m[i])
  }

  /** Every `*.py` path below `src` has one of the allowed names. */
  predicate SourcesAllowed(fs: FileSystem, src: string, allowed: seq<string>) {
    forall p :: p in RGlobPy(fs, src) ==> BaseName(p) in allowed
  }

  /** The tree at `root` holds `manifest`, and every `*.py` name below `src` is in `allowed`. */
  predicate Accepts(fs: FileSystem, root: string, src: string, manifest: seq<Entry>, allowed: seq<string>) {
    RootIsDirectory(fs, root) && ManifestHolds(fs, root, manifest) && SourcesAllowed(fs, src, allowed)
  }

  /** What a successful `check_project_contents` certifies about a tree. */
  predicate Conforms(fs: FileSystem, root: string, projectName: string, ctx: Context) {
    Accepts(fs, root, SourceDir(root, projectName), ExpectedManifest(ctx), ExpectedSrcFiles(ctx))
  }

  /** The assertion that an entry trips first: existence, then kind, then size. */
  function EntryFailure(fs: FileSystem, root: string, e: Entry): (f: Option<Failure>)
    ensures f.None? <==> EntryHolds(fs, root, e)
    ensures f.Some? ==> f.value.IsEntryFailure() && f.value.path == Join(root, e.path)
    ensures f.Some? && f.value.EmptyFile? ==>
      e.kind == IsFile && Join(root, e.path) in fs && fs[Join(root, e.path)] == File(0)
    ensures f.Some? && f.value.PathMissing? <==> Join(root, e.path) !in fs
  {
    var p := Join(root, e.path);
    if p !in fs then Some(PathMissing(p))
    else if !(match e.kind case IsDir => fs[p] == Dir case IsFile => fs[p].File?) then
      Some(WrongKind(p, e.kind))
    else if fs[p].File? && fs[p].size == 0 then Some(EmptyFile(p))
    else None
  }

  /** Entry `i` of `m` trips `f` and every entry before it holds. */
  predicate FirstFailureAt(fs: FileSystem, root: string, m: seq<Entry>, i: nat, f: Failure) {
    i < |m|
    && EntryFailure(fs, root, m[i]) == Some(f)
    && forall j :: 0 <= j < i ==> EntryHolds(fs, root, m[j])
  }

  /**
   * What each outcome of the check tells: a pass, a missing root, a root
   * that is no directory, the first failing manifest entry, or a `*.py`
   * path with a name outside `allowed` (after the manifest held).
   */
  ghost predicate Verdict(
    fs: FileSystem, root: string, src: string, manifest: seq<Entry>, allowed: seq<string>,
    r: Outcome<Failure>)
  {
    match r
    case Pass => Accepts(fs, root, src, manifest, allowed)
    case Fail(RootMissing) => root !in fs
    case Fail(RootNotDirectory) => root in fs && fs[root] != Dir
    case Fail(UnexpectedSourceFile(p)) =>
      RootIsDirectory(fs, root) && ManifestHolds(fs, root, manifest)
      && p in RGlobPy(fs, src) && BaseName(p) !in allowed
    case Fail(f) =>
      RootIsDirectory(fs, root) && exists i: nat :: FirstFailureAt(fs, root, manifest, i, f)
  }

  /**
   * The verdict decides: the check passes exactly when the tree is accepted,
   * and the root failures occur exactly when the root is missing or not a
   * directory.
   */
  lemma VerdictDecides(
    fs: FileSystem, root: string, src: string, manifest: seq<Entry>, allowed: seq<string>,
    r: Outcome<Failure>)
    requires Verdict(fs, root, src, manifest, allowed, r)
    ensures r.Pass? <==> Accepts(fs, root, src, manifest, allowed)
    ensures r == Fail(RootMissing) <==> root !in fs
    ensures r == Fail(RootNotDirectory) <==> root in fs && fs[root] != Dir
  {
    if r.Fail? && r.error.IsEntryFailure() {
      var i: nat :| FirstFailureAt(fs, root, manifest, i, r.error);
      assert !EntryHolds(fs, root, manifest[i]);
    }
  }

  /** The manifest loop: the first entry whose assertions fail, if any. */
  method CheckManifestEntries(fs: FileSystem, root: string, manifest: seq<Entry>)
    returns (f: Option<Failure>)
    ensures f.None? <==> ManifestHolds(fs, root, manifest)
    ensures f.Some? ==> f.value.IsEntryFailure() && exists i: nat :: FirstFailureAt(fs, root, manifest, i, f.value)
  {
    for i := 0 to |manifest|
      invariant forall j :: 0 <= j < i ==> EntryHolds(fs, root, manifest[j])
    {
      var entry := manifest[i];
      var path := Join(root, entry.path);
      if path !in fs {
        assert FirstFailureAt(fs, root, manifest, i, PathMissing(path));
        return Some(PathMissing(path));
      }
      var kindOk := match entry.kind case IsDir => fs[path] == Dir case IsFile => fs[path].File?;
      if !kindOk {
        assert FirstFailureAt(fs, root, manifest, i, WrongKind(path, entry.kind));
        return Some(WrongKind(path, entry.kind));
      }
      if fs[path].File? && fs[path].size == 0 {
        assert FirstFailureAt(fs, root, manifest, i, EmptyFile(path));
        return Some(EmptyFile(path));
      }
    }
    return None;
  }

  /**
   * The `rglob` loop: some `*.py` path below `src` whose name is not allowed,
   * if any. `rglob` yields paths in no specified order, so when several are
   * unexpected the one reported is any of them.
   */
  method CheckSourceNames(fs: FileSystem, src: string, allowed: seq<string>)
    returns (f: Option<Failure>)
    ensures f.None? <==> SourcesAllowed(fs, src, allowed)
    ensures f.Some? ==>
      f.value.UnexpectedSourceFile? && f.value.path in RGlobPy(fs, src)
      && BaseName(f.value.path) !in allowed
  {
    var pending := RGlobPy(fs, src);
    while pending != {}
      invariant pending <= RGlobPy(fs, src)
      invariant forall p :: p in RGlobPy(fs, src) && p !in pending ==> BaseName(p) in allowed
      decreases pending
    {
      var path :| path in pending;
      if BaseName(path) !in allowed {
        return Some(UnexpectedSourceFile(path));
      }
      pending := pending - {path};
    }
    return None;
  }

  /**
   * `check_project_contents`: the root must be an existing directory, then
   * every manifest entry must hold, then every `*.py` name in the package
   * must be allowed; the first violated assertion is the failure. A missing
   * context (None) is read as `{}`. VerdictDecides turns the verdict into
   * "passes exactly when Conforms".
   */
  method CheckProjectContents(
    fs: FileSystem, projectPath: string, projectName: string, context: Option<Context>)
    returns (r: Outcome<Failure>)
    ensures Verdict(fs, projectPath, SourceDir(projectPath, projectName),
      ExpectedManifest(ContextOrEmpty(context)), ExpectedSrcFiles(ContextOrEmpty(context)), r)
  {
    if projectPath !in fs {
      return Fail(RootMissing);
    }
    if fs[projectPath] != Dir {
      return Fail(RootNotDirectory);
    }
    var ctx := if context.None? then Empty else context.value;
    var manifest := GenerateExpectedManifest(ctx);
    var expectedSrcFiles := GenerateExpectedSrcFiles(ctx);

    var entryFailure := CheckManifestEntries(fs, projectPath, manifest);
    if entryFailure.Some? {
      return Fail(entryFailure.value);
    }
    var sourceFailure := CheckSourceNames(fs, SourceDir(projectPath, projectName), expectedSrcFiles);
    if sourceFailure.Some? {
      return Fail(sourceFailure.value);
    }
    return Pass;
  }

  // ---------------------------------------------------------------------
  // What the check accepts and rejects
  // ---------------------------------------------------------------------

  predicate HasPrefix(s: string, prefix: string) {
    |prefix| <= |s| && s[..|prefix|] == prefix
  }

  /** Distinct relative paths stay distinct below the same directory. */
  lemma JoinDistinct(dir: string, a: string, b: string)
    requires a != b
    ensures Join(dir, a) != Join(dir, b)
  {
    assert a == Join(dir, a)[|dir| + 1..];
    assert b == Join(dir, b)[|dir| + 1..];
  }

  /** A path below the package directory is `root` joined with a path starting "src/". */
  lemma UnderSourceDir(root: string, projectName: string, rel: string)
    requires StrictlyUnder(Join(root, rel), SourceDir(root, projectName))
    ensures HasPrefix(rel, "src/")
  {
    var p := Join(root, rel);
    var src := SourceDir(root, projectName);
    assert p[..|src| + 1] == src + "/";
    assert rel[..4] == p[|root| + 1..|root| + 5];
    assert (src + "/")[|root| + 1..|root| + 5] == "src/";
  }

  /** The name of `dir/f` is `f` when `f` holds no slash. */
  lemma BaseNameJoin(dir: string, f: string)
    requires '/' !in f
    ensures BaseName(Join(dir, f)) == f
  {
    var p := Join(dir, f);
    assert p[|dir|] == '/';
    assert p[|dir| + 1..] == f;
  }

  /** Every path of the filtered base is `src` itself or starts with a letter other than `s`. */
  lemma UnhookedBaseInitials()
    ensures forall k :: 0 <= k < |UnhookedBase| ==>
      UnhookedBase[k].path == "src" || (|UnhookedBase[k].path| > 0 && UnhookedBase[k].path[0] != 's')
  {
    // the one literal too long for the solver to index directly
    assert UnhookedBase[7].path == ".github/ISSUE_TEMPLATE/2_feature_request" + ".yaml";
  }

  /** Every manifest path is `src` itself or starts with a letter other than `s`. */
  lemma ManifestInitials(ctx: Context)
    ensures forall i :: 0 <= i < |ExpectedManifest(ctx)| ==>
      ExpectedManifest(ctx)[i].path == "src"
      || (|ExpectedManifest(ctx)[i].path| > 0 && ExpectedManifest(ctx)[i].path[0] != 's')
  {
    var m := ExpectedManifest(ctx);
    UnhookedBaseInitials();
    forall i | 0 <= i < |m|
      ensures m[i].path == "src" || (|m[i].path| > 0 && m[i].path[0] != 's')
    {
      ManifestPathAt(ctx, i);
    }
  }

  /** No manifest path lies inside `src/`, so none can collide with package files. */
  lemma ManifestOutsidePackage(ctx: Context)
    ensures forall i :: 0 <= i < |ExpectedManifest(ctx)| ==> !HasPrefix(ExpectedManifest(ctx)[i].path, "src/")
  {
    var m := ExpectedManifest(ctx);
    ManifestInitials(ctx);
    forall i | 0 <= i < |m| ensures !HasPrefix(m[i].path, "src/") {
      InitialOutsideSrc(m[i].path);
    }
  }

  lemma InitialOutsideSrc(p: string)
    requires p == "src" || (|p| > 0 && p[0] != 's')
    ensures !HasPrefix(p, "src/")
  {
    if |p| >= 4 {
      assert p[..4][0] == p[0];
    }
  }

  /** The node a rendered tree holds for an entry: directories, or one-byte files. */
  function NodeFor(kind: Kind): Node {
    match kind
    case IsDir => Dir
    case IsFile => File(1)
  }

  /** A tree holding just the manifest's entries below `root`. */
  function EntriesTree(root: string, m: seq<Entry>): FileSystem {
    if m == [] then map[]
    else EntriesTree(root, m[..|m| - 1])[Join(root, m[|m| - 1].path) := NodeFor(m[|m| - 1].kind)]
  }

  /** A tree holding one non-empty file per name, directly in `dir`. */
  function SourcesTree(dir: string, names: seq<string>): FileSystem {
    if names == [] then map[]
    else SourcesTree(dir, names[..|names| - 1])[Join(dir, names[|names| - 1]) := File(1)]
  }

  /** A project tree holding the entries of `m`, the package directory and one file per name of `allowed`. */
  function ProjectTree(root: string, projectName: string, m: seq<Entry>, allowed: seq<string>): FileSystem {
    EntriesTree(root, m)
      + SourcesTree(SourceDir(root, projectName), allowed)
      + map[SourceDir(root, projectName) := Dir, root := Dir]
  }

  /** A correctly rendered project: the manifest, the package directory and its expected sources. */
  function RenderedTree(root: string, projectName: string, ctx: Context): FileSystem {
    ProjectTree(root, projectName, ExpectedManifest(ctx), ExpectedSrcFiles(ctx))
  }

  lemma {:induction false} EntriesTreeAt(root: string, m: seq<Entry>, i: nat)
    requires DistinctPaths(m) && i < |m|
    ensures Join(root, m[i].path) in EntriesTree(root, m)
    ensures EntriesTree(root, m)[Join(root, m[i].path)] == NodeFor(m[i].kind)
  {
    var init := m[..|m| - 1];
    if i < |m| - 1 {
      assert init[i] == m[i];
      assert DistinctPaths(init);
      EntriesTreeAt(root, init, i);
      JoinDistinct(root, m[i].path, m[|m| - 1].path);
    }
  }

  lemma {:induction false} EntriesTreeKeys(root: string, m: seq<Entry>, k: string)
    requires k in EntriesTree(root, m)
    ensures exists i :: 0 <= i < |m| && k == Join(root, m[i].path)
  {
    var init := m[..|m| - 1];
    if k != Join(root, m[|m| - 1].path) {
      EntriesTreeKeys(root, init, k);
      var i :| 0 <= i < |init| && k == Join(root, init[i].path);
      assert init[i] == m[i];
    }
  }

  lemma {:induction false} SourcesTreeKeys(dir: string, names: seq<string>, k: string)
    requires k in SourcesTree(dir, names)
    ensures SourcesTree(dir, names)[k] == File(1)
    ensures exists f :: f in names && k == Join(dir, f)
  {
    var init := names[..|names| - 1];
    if k != Join(dir, names[|names| - 1]) {
      SourcesTreeKeys(dir, init, k);
      var f :| f in init && k == Join(dir, f);
      assert f in names;
    }
  }

  /** The package directory and the paths in it are never a path outside `src/` joined to the root. */
  lemma PackagePathIsNotEntry(root: string, projectName: string, path: string, rel: string)
    requires !HasPrefix(path, "src/")
    ensures Join(root, path) != SourceDir(root, projectName)
    ensures Join(root, path) != Join(SourceDir(root, projectName), rel)
  {
    var pkg := "src/" + projectName;
    var inPkg := "src/" + projectName + "/" + rel;
    assert pkg[..4] == "src/" && inPkg[..4] == "src/";
    assert SourceDir(root, projectName) == Join(root, pkg);
    assert Join(SourceDir(root, projectName), rel) == Join(root, inPkg);
    JoinDistinct(root, path, pkg);
    JoinDistinct(root, path, inPkg);
  }

  /** Paths of the manifest that no two entries share and that lie outside `src/`. */
  predicate Placeable(m: seq<Entry>) {
    DistinctPaths(m) && forall i :: 0 <= i < |m| ==> !HasPrefix(m[i].path, "src/")
  }

  /** Source names that hold no slash. */
  predicate PlainNames(allowed: seq<string>) {
    forall f :: f in allowed ==> '/' !in f
  }

  /** The check accepts a correctly rendered project, whatever the context. */
  lemma RenderedTreeConforms(root: string, projectName: string, ctx: Context)
    ensures Conforms(RenderedTree(root, projectName, ctx), root, projectName, ctx)
  {
    ManifestDistinct(ctx);
    ManifestOutsidePackage(ctx);
    SrcFilesAreBaseNames(ctx);
    ProjectTreeAccepted(root, projectName, ExpectedManifest(ctx), ExpectedSrcFiles(ctx));
  }

  /** A project tree is accepted for the manifest and the names it was built from. */
  lemma ProjectTreeAccepted(root: string, projectName: string, m: seq<Entry>, allowed: seq<string>)
    requires Placeable(m) && PlainNames(allowed)
    ensures Accepts(ProjectTree(root, projectName, m, allowed), root, SourceDir(root, projectName), m, allowed)
  {
    ProjectTreeEntriesHold(root, projectName, m, allowed);
    ProjectTreeSourcesAllowed(root, projectName, m, allowed);
  }

  lemma ProjectTreeEntriesHold(root: string, projectName: string, m: seq<Entry>, allowed: seq<string>)
    requires Placeable(m)
    ensures ManifestHolds(ProjectTree(root, projectName, m, allowed), root, m)
  {
    var fs := ProjectTree(root, projectName, m, allowed);
    var src := SourceDir(root, projectName);
    var entries := EntriesTree(root, m);
    var sources := SourcesTree(src, allowed);
    forall i | 0 <= i < |m| ensures EntryHolds(fs, root, m[i]) {
      var k := Join(root, m[i].path);
      EntriesTreeAt(root, m, i);
      PackagePathIsNotEntry(root, projectName, m[i].path, "");
      if k in sources {
        SourcesTreeKeys(src, allowed, k);
        var f :| f in allowed && k == Join(src, f);
        PackagePathIsNotEntry(root, projectName, m[i].path, f);
      }
      assert fs[k] == entries[k];
    }
  }

  lemma ProjectTreeSourcesAllowed(root: string, projectName: string, m: seq<Entry>, allowed: seq<string>)
    requires Placeable(m) && PlainNames(allowed)
    ensures SourcesAllowed(ProjectTree(root, projectName, m, allowed), SourceDir(root, projectName), allowed)
  {
    var fs := ProjectTree(root, projectName, m, allowed);
    var src := SourceDir(root, projectName);
    forall p | p in RGlobPy(fs, src) ensures BaseName(p) in allowed {
      assert p != root && p != src;
      if p in SourcesTree(src, allowed) {
        SourcesTreeNames(src, allowed, p);
      } else {
        assert p in EntriesTree(root, m);
        EntriesOutsidePackage(root, projectName, m, p);
      }
    }
  }

  /** Every path of a sources tree is named after one of its base names. */
  lemma SourcesTreeNames(src: string, allowed: seq<string>, p: string)
    requires PlainNames(allowed)
    requires p in SourcesTree(src, allowed)
    ensures BaseName(p) in allowed
  {
    SourcesTreeKeys(src, allowed, p);
    var f :| f in allowed && p == Join(src, f);
    BaseNameJoin(src, f);
  }

  /** An entries tree of paths outside `src/` puts nothing below the package directory. */
  lemma EntriesOutsidePackage(root: string, projectName: string, m: seq<Entry>, p: string)
    requires forall i :: 0 <= i < |m| ==> !HasPrefix(m[i].path, "src/")
    requires p in EntriesTree(root, m)
    ensures !StrictlyUnder(p, SourceDir(root, projectName))
  {
    EntriesTreeKeys(root, m, p);
    var i :| 0 <= i < |m| && p == Join(root, m[i].path);
    if StrictlyUnder(p, SourceDir(root, projectName)) {
      UnderSourceDir(root, projectName, m[i].path);
    }
  }

  /** An empty file where the manifest wants a file is rejected. */
  lemma EmptyManifestFileRejected(fs: FileSystem, root: string, projectName: string, ctx: Context, i: nat)
    requires i < |ExpectedManifest(ctx)| && ExpectedManifest(ctx)[i].kind == IsFile
    requires Join(root, ExpectedManifest(ctx)[i].path) in fs
    requires fs[Join(root, ExpectedManifest(ctx)[i].path)] == File(0)
    ensures !Conforms(fs, root, projectName, ctx)
    ensures EntryFailure(fs, root, ExpectedManifest(ctx)[i]) == Some(EmptyFile(Join(root, ExpectedManifest(ctx)[i].path)))
  {
  }

  /** In particular a zero-byte README.md fails the check, though the path exists. */
  lemma EmptyReadmeRejected(fs: FileSystem, root: string, projectName: string, ctx: Context)
    requires Join(root, "README.md") in fs && fs[Join(root, "README.md")] == File(0)
    ensures !Conforms(fs, root, projectName, ctx)
  {
    assert ExpectedManifest(ctx)[15] == Entry(IsFile, "README.md");
    EmptyManifestFileRejected(fs, root, projectName, ctx, 15);
  }

  /**
   * An empty file at file entry `i`, with the root a directory and every
   * earlier entry holding, is the failure the check reports.
   */
  lemma EmptyFileReported(
    fs: FileSystem, root: string, src: string, m: seq<Entry>, allowed: seq<string>, i: nat,
    r: Outcome<Failure>)
    requires RootIsDirectory(fs, root)
    requires i < |m| && m[i].kind == IsFile
    requires Join(root, m[i].path) in fs && fs[Join(root, m[i].path)] == File(0)
    requires forall j :: 0 <= j < i ==> EntryHolds(fs, root, m[j])
    requires Verdict(fs, root, src, m, allowed, r)
    ensures r == Fail(EmptyFile(Join(root, m[i].path)))
  {
    assert EntryFailure(fs, root, m[i]) == Some(EmptyFile(Join(root, m[i].path)));
    assert !ManifestHolds(fs, root, m);
    var k: nat :| FirstFailureAt(fs, root, m, k, r.error);
    assert k == i;
  }

  /** Emptying the file of entry `i` keeps every other entry of a path-distinct manifest as it was. */
  lemma EmptyingKeepsOtherEntries(fs: FileSystem, root: string, m: seq<Entry>, i: nat)
    requires DistinctPaths(m) && ManifestHolds(fs, root, m) && i < |m|
    ensures forall j :: 0 <= j < |m| && j != i ==>
      EntryHolds(fs[Join(root, m[i].path) := File(0)], root, m[j])
  {
    forall j | 0 <= j < |m| && j != i
      ensures EntryHolds(fs[Join(root, m[i].path) := File(0)], root, m[j])
    {
      JoinDistinct(root, m[j].path, m[i].path);
    }
  }

  /** A correctly rendered project whose README.md has been emptied. */
  function EmptiedReadme(root: string, projectName: string, ctx: Context): FileSystem {
    RenderedTree(root, projectName, ctx)[Join(root, "README.md") := File(0)]
  }

  /**
   * For a correctly rendered project whose README.md is emptied, every outcome
   * the check may give (see CheckProjectContents) is the empty-file failure
   * of README.md, since the 15 entries before it still hold.
   */
  lemma EmptiedReadmeReported(root: string, projectName: string, ctx: Context)
    ensures forall r ::
      Verdict(EmptiedReadme(root, projectName, ctx), root, SourceDir(root, projectName),
        ExpectedManifest(ctx), ExpectedSrcFiles(ctx), r)
      ==> r == Fail(EmptyFile(Join(root, "README.md")))
  {
    var m := ExpectedManifest(ctx);
    var fs := RenderedTree(root, projectName, ctx);
    var readme := Join(root, "README.md");
    ReadmeEntry(ctx);
    ManifestDistinct(ctx);
    ManifestOutsidePackage(ctx);
    ProjectTreeEntriesHold(root, projectName, m, ExpectedSrcFiles(ctx));
    EmptyingKeepsOtherEntries(fs, root, m, 15);
    assert |readme| > |root|;
    var emptied := EmptiedReadme(root, projectName, ctx);
    forall r | Verdict(emptied, root, SourceDir(root, projectName), m, ExpectedSrcFiles(ctx), r)
      ensures r == Fail(EmptyFile(readme))
    {
      EmptyFileReported(emptied, root, SourceDir(root, projectName), m, ExpectedSrcFiles(ctx), 15, r);
    }
  }

  lemma ReadmeEntry(ctx: Context)
    ensures |ExpectedManifest(ctx)| > 15 && ExpectedManifest(ctx)[15] == Entry(IsFile, "README.md")
  {
    assert UnhookedBase[15] == Entry(IsFile, "README.md");
  }

  /** A path of the package whose name matches `*.py` is one of those `rglob` yields. */
  lemma FoundByRGlob(fs: FileSystem, root: string, projectName: string, p: string)
    requires p in fs && StrictlyUnder(p, SourceDir(root, projectName)) && MatchesPy(BaseName(p))
    ensures p in RGlobPy(fs, SourceDir(root, projectName))
  {
  }

  /** A `*.py` file of the package whose name is not allowed makes the check fail. */
  lemma DisallowedSourceRejected(fs: FileSystem, root: string, projectName: string, ctx: Context, p: string)
    requires p in fs && StrictlyUnder(p, SourceDir(root, projectName)) && MatchesPy(BaseName(p))
    requires BaseName(p) !in ExpectedSrcFiles(ctx)
    ensures !Conforms(fs, root, projectName, ctx)
  {
    FoundByRGlob(fs, root, projectName, p);
    assert !SourcesAllowed(fs, SourceDir(root, projectName), ExpectedSrcFiles(ctx));
  }

  /** A stray `extra.py` anywhere in the package fails the check. */
  lemma StraySourceFileRejected(fs: FileSystem, root: string, projectName: string, ctx: Context, p: string)
    requires p in fs && StrictlyUnder(p, SourceDir(root, projectName)) && BaseName(p) == "extra.py"
    ensures !Conforms(fs, root, projectName, ctx)
  {
    ExtraPyNotExpected(ctx);
    DisallowedSourceRejected(fs, root, projectName, ctx, p);
  }

  lemma ExtraPyNotExpected(ctx: Context)
    ensures MatchesPy("extra.py") && "extra.py" !in ExpectedSrcFiles(ctx)
  {
    assert "extra.py"[5..] == ".py";
    SrcFileNameLengths(ctx);
    assert |"extra.py"| == 8;
  }

  /** With pydantic-settings off, a `settings.py` in the package fails the check. */
  lemma SettingsWithoutPydanticRejected(fs: FileSystem, root: string, projectName: string, ctx: Context, p: string)
    requires !UsePydanticSettings(ctx)
    requires p in fs && StrictlyUnder(p, SourceDir(root, projectName)) && BaseName(p) == SettingsFile
    ensures !Conforms(fs, root, projectName, ctx)
  {
    assert SettingsFile[8..] == ".py";
    SrcFilesShape(ctx);
    DisallowedSourceRejected(fs, root, projectName, ctx, p);
  }
}
