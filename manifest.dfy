/**
 * The expected manifest of a generated project (`generate_expected_manifest`)
 * and the list of source-file names allowed in its package
 * (`generate_expected_src_files`).
 */
module Manifest {
  import opened CookiecutterContext

  /** Which `Path` test an entry names: `is_dir` or `is_file`. */
  datatype Kind = IsDir | IsFile

  /** A `(test, relative path)` pair of the manifest. */
  datatype Entry = Entry(kind: Kind, path: string)

  /** `BASE_MANIFEST`: what every generated project holds, hooks included. */
  const BaseManifest: seq<Entry> := [
    Entry(IsDir, ".git"),
    Entry(IsDir, ".github"),
    Entry(IsDir, ".github/ISSUE_TEMPLATE"),
    Entry(IsDir, ".github/workflows"),
    Entry(IsDir, ".venv"),
    Entry(IsDir, "src"),
    Entry(IsDir, "tests"),
    Entry(IsFile, ".envrc"),
    Entry(IsFile, ".github/ISSUE_TEMPLATE/1_bug_report.yaml"),
    Entry(IsFile, ".github/ISSUE_TEMPLATE/2_feature_request.yaml"),
    Entry(IsFile, ".github/ISSUE_TEMPLATE/3_question.yaml"),
    Entry(IsFile, ".github/ISSUE_TEMPLATE/config.yaml"),
    Entry(IsFile, ".github/PULL_REQUEST_TEMPLATE.md"),
    Entry(IsFile, ".github/dependabot.yaml"),
    Entry(IsFile, ".github/workflows/README.md"),
    Entry(IsFile, ".github/workflows/release.yaml"),
    Entry(IsFile, ".gitignore"),
    Entry(IsFile, "README.md"),
    Entry(IsFile, "pyproject.toml"),
    Entry(IsFile, "uv.lock")
  ]

  /** The paths that only the post-generation hooks create. */
  const HookFiles: set<string> := {".git", ".venv", "uv.lock"}

  /** The entries re-added when the hooks are taken to have run. */
  const HookEntries: seq<Entry> := [
    Entry(IsDir, ".git"),
    Entry(IsDir, ".venv"),
    Entry(IsFile, "uv.lock")
  ]

  const LicenseEntry: Entry := Entry(IsFile, "LICENSE")

  /** `BASE_MANIFEST` without the hook-created paths, in its own order. */
  const UnhookedBase: seq<Entry> := [
    Entry(IsDir, ".github"),
    Entry(IsDir, ".github/ISSUE_TEMPLATE"),
    Entry(IsDir, ".github/workflows"),
    Entry(IsDir, "src"),
    Entry(IsDir, "tests"),
    Entry(IsFile, ".envrc"),
    Entry(IsFile, ".github/ISSUE_TEMPLATE/1_bug_report.yaml"),
    Entry(IsFile, ".github/ISSUE_TEMPLATE/2_feature_request.yaml"),
    Entry(IsFile, ".github/ISSUE_TEMPLATE/3_question.yaml"),
    Entry(IsFile, ".github/ISSUE_TEMPLATE/config.yaml"),
    Entry(IsFile, ".github/PULL_REQUEST_TEMPLATE.md"),
    Entry(IsFile, ".github/dependabot.yaml"),
    Entry(IsFile, ".github/workflows/README.md"),
    Entry(IsFile, ".github/workflows/release.yaml"),
    Entry(IsFile, ".gitignore"),
    Entry(IsFile, "README.md"),
    Entry(IsFile, "pyproject.toml")
  ]

  /** `BASE_SRC`: the source files every generated package holds. */
  const BaseSrc: seq<string> := ["__init__.py", "__main__.py", "self_subcommand.py"]

  const SettingsFile: string := "settings.py"

  /** No path occurs in two entries. */
  predicate DistinctPaths(m: seq<Entry>) {
    forall i, j :: 0 <= i < j < |m| ==> m[i].path != m[j].path
  }

  /** Some entry of `m` has path `p`. */
  predicate HasPath(m: seq<Entry>, p: string) {
    exists e :: e in m && e.path == p
  }

  /** The entries of `s` whose path is not hook-created, in the order of `s`. */
  function WithoutHookFiles(s: seq<Entry>): (r: seq<Entry>)
    ensures |r| <= |s|
  {
    if s == [] then []
    else WithoutHookFiles(s[..|s| - 1]) + (if s[|s| - 1].path in HookFiles then [] else [s[|s| - 1]])
  }

  /**
   * The manifest `generate_expected_manifest` builds for `ctx`: the non-hook
   * rows of `BASE_MANIFEST` (see UnhookedBaseIsFiltered), then LICENSE when a
   * license is chosen, then the hook entries when the hooks ran.
   */
  function ExpectedManifest(ctx: Context): seq<Entry> {
    UnhookedBase
      + (if LicenseIncluded(ctx) then [LicenseEntry] else [])
      + (if HooksRan(ctx) then HookEntries else [])
  }

  /** The source-file names `generate_expected_src_files` lists for `ctx`. */
  function ExpectedSrcFiles(ctx: Context): seq<string> {
    BaseSrc + if UsePydanticSettings(ctx) then [SettingsFile] else []
  }

  /** Builds the manifest as the helper does: a filtering loop, then two appends. */
  method GenerateExpectedManifest(ctx: Context) returns (manifest: seq<Entry>)
    ensures manifest == ExpectedManifest(ctx)
  {
    manifest := [];
    for i := 0 to |BaseManifest|
      invariant manifest == WithoutHookFiles(BaseManifest[..i])
    {
      var entry := BaseManifest[i];
      WithoutHookFilesStep(BaseManifest, i);
      if entry.path !in HookFiles {
        manifest := manifest + [entry];
      }
    }
    assert BaseManifest[..|BaseManifest|] == BaseManifest;
    UnhookedBaseIsFiltered();
    if License(ctx) != NoLicense {
      manifest := manifest + [Entry(IsFile, "LICENSE")];
    }
    if HooksRan(ctx) {
      manifest := manifest + [Entry(IsDir, ".git"), Entry(IsDir, ".venv"), Entry(IsFile, "uv.lock")];
    }
  }

  /** Copies `BASE_SRC` and appends `settings.py` when pydantic-settings is on. */
  method GenerateExpectedSrcFiles(ctx: Context) returns (srcFiles: seq<string>)
    ensures srcFiles == ExpectedSrcFiles(ctx)
  {
    srcFiles := BaseSrc;
    if UsePydanticSettings(ctx) {
      srcFiles := srcFiles + [SettingsFile];
    }
  }

  // ---------------------------------------------------------------------
  // Properties of the expected manifest
  // ---------------------------------------------------------------------

  /** A position of an entry with path `p`. */
  ghost function PathIndex(m: seq<Entry>, p: string): (k: nat)
    requires HasPath(m, p)
    ensures k < |m| && m[k].path == p
  {
    var e :| e in m && e.path == p;
    var k :| 0 <= k < |m| && m[k] == e;
    k
  }

  /** The filter keeps exactly the entries of `s` whose path is not hook-created. */
  lemma {:induction false} WithoutHookFilesMembers(s: seq<Entry>)
    ensures forall e :: e in WithoutHookFiles(s) <==> e in s && e.path !in HookFiles
  {
    if s != [] {
      var init := s[..|s| - 1];
      WithoutHookFilesMembers(init);
      assert s == init + [s[|s| - 1]];
    }
  }

  /** One filtering step: the prefix of length `k + 1` adds row `k` unless it is a hook path. */
  lemma WithoutHookFilesStep(s: seq<Entry>, k: nat)
    requires k < |s|
    ensures WithoutHookFiles(s[..k + 1]) ==
      WithoutHookFiles(s[..k]) + (if s[k].path in HookFiles then [] else [s[k]])
  {
    assert s[..k + 1][..k] == s[..k];
  }

  /**
   * How many of the first `k` rows of `BASE_MANIFEST` are not hook paths.
   * Proof scaffolding: the hook rows 0, 4 and 19 are those of the literal
   * table above (BaseManifestHookRows).
   */
  function UnhookedCount(k: nat): nat {
    k - (if k > 0 then 1 else 0) - (if k > 4 then 1 else 0) - (if k > 19 then 1 else 0)
  }

  /** The hook paths are rows 0, 4 and 19 of `BASE_MANIFEST`. */
  lemma BaseManifestHookRows()
    ensures |BaseManifest| == 20 && |UnhookedBase| == 17
    ensures forall k :: 0 <= k < |BaseManifest| ==>
      (BaseManifest[k].path in HookFiles <==> k == 0 || k == 4 || k == 19)
  {
  }

  /** Every other row of `BASE_MANIFEST` lands at row `UnhookedCount(k)` once filtered. */
  lemma BaseManifestKeptRows()
    ensures forall k :: 0 <= k < |BaseManifest| && k != 0 && k != 4 && k != 19 ==>
      UnhookedCount(k) < |UnhookedBase| && BaseManifest[k] == UnhookedBase[UnhookedCount(k)]
  {
  }

  /** Filtering `BASE_MANIFEST` keeps exactly the 17 non-hook entries, in order. */
  lemma UnhookedBaseIsFiltered()
    ensures WithoutHookFiles(BaseManifest) == UnhookedBase
  {
    BaseManifestHookRows();
    BaseManifestKeptRows();
    FilteredPrefix(BaseManifest, UnhookedBase, 20);
    assert BaseManifest[..20] == BaseManifest;
    assert UnhookedBase[..17] == UnhookedBase;
  }

  /**
   * When the hook rows of `s` sit at positions 0, 4 and 19 and every other
   * row `j` is row `UnhookedCount(j)` of `t`, filtering the first `k` rows
   * of `s` yields the first `UnhookedCount(k)` rows of `t`.
   */
  lemma {:induction false} FilteredPrefix(s: seq<Entry>, t: seq<Entry>, k: nat)
    requires k <= |s|
    requires forall j :: 0 <= j < |s| ==> (s[j].path in HookFiles <==> j == 0 || j == 4 || j == 19)
    requires forall j :: 0 <= j < |s| && s[j].path !in HookFiles ==>
      UnhookedCount(j) < |t| && s[j] == t[UnhookedCount(j)]
    ensures UnhookedCount(k) <= |t|
    ensures WithoutHookFiles(s[..k]) == t[..UnhookedCount(k)]
  {
    if k > 0 {
      FilteredPrefix(s, t, k - 1);
      WithoutHookFilesStep(s, k - 1);
      var c := UnhookedCount(k - 1);
      if s[k - 1].path !in HookFiles {
        assert t[..c] + [t[c]] == t[..c + 1];
      }
    }
  }

  /** Row `i` of the filtered base shares its path with no later row. */
  lemma UnhookedBaseRowDistinct(i: nat)
    requires i < |UnhookedBase|
    ensures forall j :: i < j < |UnhookedBase| ==> UnhookedBase[i].path != UnhookedBase[j].path
  {
  }

  /** The filtered base lists no path twice. */
  lemma UnhookedBaseDistinct()
    ensures DistinctPaths(UnhookedBase)
  {
    forall i | 0 <= i < |UnhookedBase| {
      UnhookedBaseRowDistinct(i);
    }
  }

  /** No path of the filtered base is LICENSE or a hook path. */
  lemma UnhookedBaseReserved()
    ensures forall k :: 0 <= k < |UnhookedBase| ==>
      UnhookedBase[k].path != LicenseEntry.path && UnhookedBase[k].path !in HookFiles
  {
  }

  /** The first 17 entries are the non-hook part of `BASE_MANIFEST`, whatever the context. */
  lemma ManifestPrefix(ctx: Context)
    ensures |ExpectedManifest(ctx)| >= 17
    ensures ExpectedManifest(ctx)[..17] == UnhookedBase
    ensures forall e :: e in ExpectedManifest(ctx)[..17] <==> e in BaseManifest && e.path !in HookFiles
  {
    UnhookedBaseIsFiltered();
    WithoutHookFilesMembers(BaseManifest);
  }

  /** 17 entries, one more with a license, three more when the hooks ran. */
  lemma ManifestLength(ctx: Context)
    ensures |ExpectedManifest(ctx)| ==
      17 + (if LicenseIncluded(ctx) then 1 else 0) + (if HooksRan(ctx) then 3 else 0)
  {
  }

  /** No path is listed twice, although the hook paths come from two places. */
  lemma ManifestDistinct(ctx: Context)
    ensures DistinctPaths(ExpectedManifest(ctx))
  {
    UnhookedBaseDistinct();
    UnhookedBaseReserved();
    var m := ExpectedManifest(ctx);
    var n := |UnhookedBase|;
    var l := if LicenseIncluded(ctx) then 1 else 0;
    forall i, j | 0 <= i < j < |m| ensures m[i].path != m[j].path {
      if j < n {
        assert m[i] == UnhookedBase[i] && m[j] == UnhookedBase[j];
      } else if i < n {
        assert m[i] == UnhookedBase[i];
        assert m[j] == LicenseEntry || m[j] == HookEntries[j - n - l];
      } else if i < n + l {
        assert m[i] == LicenseEntry && m[j] == HookEntries[j - n - l];
      } else {
        assert m[i] == HookEntries[i - n - l] && m[j] == HookEntries[j - n - l];
      }
    }
  }

  /** Where an entry with a given path can sit in the manifest. */
  lemma ManifestPathAt(ctx: Context, k: nat)
    requires k < |ExpectedManifest(ctx)|
    ensures var e := ExpectedManifest(ctx)[k];
      (k < 17 && e == UnhookedBase[k])
      || (k == 17 && LicenseIncluded(ctx) && e == LicenseEntry)
      || (HooksRan(ctx) && |ExpectedManifest(ctx)| - 3 <= k
          && e == HookEntries[k - (|ExpectedManifest(ctx)| - 3)])
  {
  }

  /** `("is_file", "LICENSE")` is listed exactly when `license` is not "no-license". */
  lemma LicenseEntryIff(ctx: Context)
    ensures LicenseEntry in ExpectedManifest(ctx) <==> LicenseIncluded(ctx)
    ensures HasPath(ExpectedManifest(ctx), "LICENSE") <==> LicenseIncluded(ctx)
    ensures LicenseIncluded(ctx) <==> ctx.license.Some? && ctx.license.value != NoLicense
  {
    var m := ExpectedManifest(ctx);
    LicensePathOnlyIfIncluded(ctx);
    if LicenseEntry in m {
      assert HasPath(m, "LICENSE");
    }
    if LicenseIncluded(ctx) {
      assert m[17] == LicenseEntry;
    }
  }

  /** A LICENSE path is listed only when a license was chosen. */
  lemma LicensePathOnlyIfIncluded(ctx: Context)
    ensures HasPath(ExpectedManifest(ctx), "LICENSE") ==> LicenseIncluded(ctx)
  {
    var m := ExpectedManifest(ctx);
    if HasPath(m, "LICENSE") {
      var k := PathIndex(m, "LICENSE");
      ManifestPathAt(ctx, k);
      UnhookedBaseReserved();
    }
  }

  /** A hook path is listed only when the hooks ran. */
  lemma HookPathOnlyIfRan(ctx: Context, p: string)
    ensures p in HookFiles && HasPath(ExpectedManifest(ctx), p) ==> HooksRan(ctx)
  {
    var m := ExpectedManifest(ctx);
    if p in HookFiles && HasPath(m, p) {
      var k := PathIndex(m, p);
      ManifestPathAt(ctx, k);
      UnhookedBaseReserved();
    }
  }

  /** When the hooks ran, the last three entries are the hook entries. */
  lemma HookEntriesIfRan(ctx: Context)
    requires HooksRan(ctx)
    ensures forall e :: e in HookEntries ==> e in ExpectedManifest(ctx)
  {
    var m := ExpectedManifest(ctx);
    var off := |m| - 3;
    assert m[off] == HookEntries[0] && m[off + 1] == HookEntries[1] && m[off + 2] == HookEntries[2];
  }

  /** The three hook entries are listed exactly when the hooks ran (default: they did). */
  lemma HookEntriesIff(ctx: Context)
    ensures forall e :: e in HookEntries ==> (e in ExpectedManifest(ctx) <==> HooksRan(ctx))
    ensures forall p :: p in HookFiles ==> (HasPath(ExpectedManifest(ctx), p) <==> HooksRan(ctx))
    ensures ctx.hooksRan.None? ==> HooksRan(ctx)
  {
    var m := ExpectedManifest(ctx);
    if HooksRan(ctx) {
      HookEntriesIfRan(ctx);
      forall p | p in HookFiles ensures HasPath(m, p) {
        var e := if p == ".git" then HookEntries[0] else if p == ".venv" then HookEntries[1] else HookEntries[2];
        assert e in m && e.path == p;
      }
    } else {
      forall p | p in HookFiles ensures !HasPath(m, p) {
        HookPathOnlyIfRan(ctx, p);
      }
      forall e | e in HookEntries ensures e !in m {
        HookPathOnlyIfRan(ctx, e.path);
      }
    }
  }

  /** Each re-added hook entry is, kind and path, its `BASE_MANIFEST` original. */
  lemma HookEntriesMatchBase()
    ensures forall k :: 0 <= k < |BaseManifest| && BaseManifest[k].path in HookFiles ==>
      BaseManifest[k] in HookEntries
    ensures forall h :: h in HookEntries ==> h in BaseManifest && h.path in HookFiles
  {
    assert HookEntries == [BaseManifest[0], BaseManifest[4], BaseManifest[19]];
  }

  /** The default context `{}`: 20 entries, `.git` and `src` present, no LICENSE. */
  lemma DefaultManifest()
    ensures |ExpectedManifest(Empty)| == 20
    ensures Entry(IsDir, ".git") in ExpectedManifest(Empty)
    ensures Entry(IsDir, "src") in ExpectedManifest(Empty)
    ensures !HasPath(ExpectedManifest(Empty), "LICENSE")
  {
    var m := ExpectedManifest(Empty);
    assert m[3] == Entry(IsDir, "src");
    assert m[17] == Entry(IsDir, ".git");
    LicensePathOnlyIfIncluded(Empty);
  }

  // ---------------------------------------------------------------------
  // Properties of the expected source-file list
  // ---------------------------------------------------------------------

  /**
   * Every expected source name is 11 or 18 characters long. Proof
   * scaffolding read off the literal names, so that a name of another
   * length is seen to be disallowed without comparing strings.
   */
  lemma SrcFileNameLengths(ctx: Context)
    ensures forall k :: 0 <= k < |ExpectedSrcFiles(ctx)| ==>
      |ExpectedSrcFiles(ctx)[k]| == 11 || |ExpectedSrcFiles(ctx)[k]| == 18
  {
    var s := ExpectedSrcFiles(ctx);
    assert s[..3] == BaseSrc;
  }

  /**
   * `BASE_SRC` first, in order; `settings.py` is the only name that can be
   * added, and it is added exactly when pydantic-settings is on (default: on).
   */
  lemma SrcFilesShape(ctx: Context)
    ensures |ExpectedSrcFiles(ctx)| == if UsePydanticSettings(ctx) then 4 else 3
    ensures ExpectedSrcFiles(ctx)[..3] == BaseSrc
    ensures SettingsFile in ExpectedSrcFiles(ctx) <==> UsePydanticSettings(ctx)
    ensures forall f :: f in ExpectedSrcFiles(ctx) ==> f in BaseSrc || f == SettingsFile
    ensures ctx.usePydanticSettings.None? ==> UsePydanticSettings(ctx)
  {
    var s := ExpectedSrcFiles(ctx);
    if UsePydanticSettings(ctx) {
      assert s[3] == SettingsFile;
    }
  }

  /** None of the allowed source names contains a slash: each is a base name. */
  lemma SrcFilesAreBaseNames(ctx: Context)
    ensures forall f :: f in ExpectedSrcFiles(ctx) ==> '/' !in f
  {
  }
}
