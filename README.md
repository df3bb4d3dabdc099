# Expected-manifest helpers of agentic-project-cookiecutter, in Dafny

agentic-project-cookiecutter is a cookiecutter template for command-line
tool projects. Its test suite renders the template and checks the rendered
tree with the helpers of `tests/conftest.py`. This project models those helpers
and proves properties of them:

- `generate_expected_manifest` derives, from the cookiecutter context, the
  ordered list of `(is_dir | is_file, relative path)` entries a generated
  project must hold. It starts from `BASE_MANIFEST` without the three paths
  that only the post-generation hooks create (`.git`, `.venv`, `uv.lock`). It
  adds `LICENSE` when a license is chosen. It re-adds the hook entries when the
  hooks ran.
- `generate_expected_src_files` lists the allowed source-file names of the
  generated package: `BASE_SRC`, plus `settings.py` when pydantic-settings is on.
- `check_project_contents` checks a tree. The root must be a directory. Every
  manifest entry must exist with its kind. Every file entry must be non-empty.
  Every `*.py` path found recursively under `src/<project_name>` must have an
  allowed name.
- The `template_root` fixture walks up the parent directories to the nearest
  one named `agentic-project-cookiecutter`. It raises `RuntimeError` on
  reaching `/`.

Files and modules:

- `wrappers.dfy` (`Wrappers`): `Option`, `Result`, `Outcome`.
- `context.dfy` (`CookiecutterContext`): the context and its `dict.get`
  lookups with their defaults.
- `manifest.dfy` (`Manifest`): `BASE_MANIFEST`, `BASE_SRC`, both generators as
  loop methods, the reference functions `ExpectedManifest` and
  `ExpectedSrcFiles`, and the lemmas about them.
- `project_check.dfy` (`ProjectCheck`): the abstract filesystem,
  `check_project_contents`, and what it accepts and rejects.
- `template_root.dfy` (`TemplateRoot`): the ancestor search.

How the model represents the source:

- **Context.** A record holding one `Option` per key the helpers read
  (`license`, `_hooks_ran`, `use_pydantic_settings`). `None` is an absent key.
  The defaults of the `.get` calls apply: `"no-license"`, `True`, `True`. Keys
  the helpers never read are not represented. `check_project_contents` reads a
  `None` context as `{}`.
- **Filesystem.** A map from absolute slash-separated path to a node: a
  directory, or a file with its size in bytes. A path that is not a key does
  not exist. `Path(d) / r` is `d + "/" + r`; `Path.name` is the text after the
  last slash. `src.rglob("*.py")` is the set of keys strictly below `src` whose
  name ends in `.py`. As with `rglob`, these may be nodes of either kind.
- **Raising.** The check either passes or fails at the first assertion that
  does not hold, in source order: root exists, root is a directory, then per
  manifest entry existence, kind and size, then the source names. `rglob`
  yields paths in no specified order. So when several source files are
  unexpected, the model reports any one of them.
- **Paths for the ancestor search.** A sequence of components below `/`.
  `[]` is `/`, and the parent drops the last component.

Three points about the code that the model follows:

- The hook paths are dropped from `BASE_MANIFEST` before they are re-added, so
  no de-duplication is needed. `ManifestDistinct` proves that no path occurs
  twice.
- There is no step that fills in defaults. Each lookup is a `dict.get` with a
  default.
- The helpers build lists, not sets, and so does the model.

## Model

| member | source | states |
|---|---|---|
| `Manifest.GenerateExpectedManifest` | tests/conftest.py:38-63 | The filtering loop over `BASE_MANIFEST`, then the LICENSE and hook appends, yields exactly `ExpectedManifest(ctx)`. The loop invariant is that the list so far is the non-hook filter of the rows seen. |
| `Manifest.WithoutHookFilesMembers` | tests/conftest.py:43-48 | The filter keeps an entry exactly when it is in the input and its path is not one of `.git`, `.venv`, `uv.lock`. |
| `Manifest.UnhookedBaseIsFiltered` | tests/conftest.py:12-33 | Filtering `BASE_MANIFEST` gives the 17 non-hook entries in their original order. |
| `Manifest.UnhookedBaseDistinct` | tests/conftest.py:12-33 | The 17 non-hook entries of `BASE_MANIFEST` have pairwise distinct paths. |
| `Manifest.UnhookedBaseReserved` | tests/conftest.py:12-33 | None of those 17 paths is LICENSE or a hook path. |
| `Manifest.ManifestPrefix` | tests/conftest.py:45-48 | For every context, the first 17 entries are the non-hook `BASE_MANIFEST` entries in order. They are exactly the `BASE_MANIFEST` entries whose path is not hook-created. |
| `Manifest.ManifestLength` | tests/conftest.py:38-63 | The length is 17, plus 1 when a license is included, plus 3 when the hooks ran. |
| `Manifest.ManifestDistinct` | tests/conftest.py:43-61 | No path occurs twice in the manifest, although the hook paths appear in `BASE_MANIFEST` and again in the appended list. |
| `Manifest.ManifestPathAt` | tests/conftest.py:46-61 | Each position of the manifest holds a filtered base entry (positions below 17), the LICENSE entry (position 17), or one of the three hook entries (the last three). |
| `Manifest.LicenseEntryIff` | tests/conftest.py:50-51 | `("is_file", "LICENSE")` is listed, and any entry with path LICENSE is listed, exactly when `license` is present and differs from "no-license". Any other string, `""` included, adds it. |
| `Manifest.LicensePathOnlyIfIncluded` | tests/conftest.py:50-51 | An entry with the path LICENSE is listed only when a license was chosen. |
| `Manifest.HookPathOnlyIfRan` | tests/conftest.py:43-48 | A hook path is listed only if the hooks ran. Its `BASE_MANIFEST` occurrence is always filtered out. |
| `Manifest.HookEntriesIfRan` | tests/conftest.py:54-61 | When the hooks ran, all three hook entries are listed. |
| `Manifest.HookEntriesIff` | tests/conftest.py:54-61 | The hook entries, and the hook paths, are listed exactly when `_hooks_ran` holds. An absent `_hooks_ran` counts as true. |
| `Manifest.HookEntriesMatchBase` | tests/conftest.py:12-33 | Every hook row of `BASE_MANIFEST` equals a re-added hook entry, kind included. Every re-added entry is a `BASE_MANIFEST` row with a hook path. |
| `Manifest.DefaultManifest` | tests/conftest.py:38-63 | For `{}` the manifest has 20 entries. It contains `.git` and `src` as directories and no LICENSE. |
| `Manifest.GenerateExpectedSrcFiles` | tests/conftest.py:66-74 | Copying `BASE_SRC` and conditionally appending yields exactly `ExpectedSrcFiles(ctx)`. |
| `Manifest.SrcFilesShape` | tests/conftest.py:66-74 | `BASE_SRC` comes first, in order. `settings.py` is the only name that can be added, and it is present exactly when `use_pydantic_settings` holds (absent counts as true). So the length is 4 or 3. |
| `Manifest.SrcFilesAreBaseNames` | tests/conftest.py:35 | No allowed source name contains a slash. |
| `ProjectCheck.BaseName` | tests/conftest.py:106 | `Path.name` is the longest slash-free suffix of the path. |
| `ProjectCheck.EntryFailure` | tests/conftest.py:96-102 | An entry trips no assertion exactly when its path exists, has the expected kind and, for files, a size above 0. A missing path is reported as missing, and an empty file as empty. |
| `ProjectCheck.CheckManifestEntries` | tests/conftest.py:95-102 | The manifest loop finds no failure exactly when every entry holds. Otherwise it reports the failure of the first entry that does not hold. |
| `ProjectCheck.CheckSourceNames` | tests/conftest.py:104-106 | The `rglob` loop finds no failure exactly when every `*.py` path below the package has an allowed name. Otherwise it reports such a path whose name is not allowed. |
| `ProjectCheck.CheckProjectContents` | tests/conftest.py:77-108 | Each outcome means what the first failing assertion means. A pass means that the root is a directory, every manifest entry holds and every package `*.py` name is allowed. A missing root means the root is absent. A non-directory root means it exists but is no directory. An entry failure, after a directory root, is the failure of the first entry that does not hold. An unexpected-source failure, after the whole manifest held, names a found `*.py` path with a disallowed name. `None` acts as `{}`. |
| `ProjectCheck.VerdictDecides` | tests/conftest.py:84-108 | From those meanings: the check passes exactly when the tree is accepted. It fails at the root exactly when the root is missing, or exists and is no directory. |
| `ProjectCheck.BaseNameJoin` | tests/conftest.py:104-106 | The name of `dir / f` is `f` when `f` holds no slash. |
| `ProjectCheck.ManifestOutsidePackage` | tests/conftest.py:12-33 | No manifest path starts with `src/`, so none lies inside the package directory. |
| `ProjectCheck.ProjectTreeAccepted` | tests/conftest.py:95-106 | For any manifest with distinct paths outside `src/` and any slash-free names, the tree holding exactly those entries, the package directory and one non-empty file per name is accepted. |
| `ProjectCheck.RenderedTreeConforms` | tests/conftest.py:77-108 | For every context, a tree holding the manifest's entries (files non-empty), the package directory and the expected source files passes the check. |
| `ProjectCheck.EmptyManifestFileRejected` | tests/conftest.py:101-102 | A zero-byte file at a manifest file entry makes the check fail, although the path exists. That entry's own failure is the empty-file failure. |
| `ProjectCheck.EmptyFileReported` | tests/conftest.py:95-102 | When the root is a directory and every earlier entry holds, a zero-byte file at a file entry is the failure the check reports. |
| `ProjectCheck.EmptiedReadmeReported` | tests/conftest.py:95-102 | In a correctly rendered project whose `README.md` is emptied, the check reports the empty-file failure of `README.md`, for every context. |
| `ProjectCheck.EmptyReadmeRejected` | tests/conftest.py:101-102 | A zero-byte `README.md` fails the check. |
| `ProjectCheck.DisallowedSourceRejected` | tests/conftest.py:104-106 | Any `*.py` path strictly below `src/<project_name>` whose name is not an expected source name fails the check. |
| `ProjectCheck.StraySourceFileRejected` | tests/conftest.py:104-106 | An `extra.py` anywhere below `src/<project_name>` fails the check. |
| `ProjectCheck.SettingsWithoutPydanticRejected` | tests/conftest.py:71-72 | With pydantic-settings off, a `settings.py` in the package fails the check. |
| `TemplateRoot.FindTemplateRoot` | tests/conftest.py:116-125 | On success the result is an ancestor-or-self of the start path. Its last component is `agentic-project-cookiecutter`, and no deeper component is. It fails, with the RuntimeError message, exactly when no component is that name; `/` itself is never tested. The loop ends because each step drops one component. |

## Left out

- The `cookiecutter` `bake` call in `generated_template_path` is not modelled: it is a call into the external template engine.
- Reading `cookiecutter.json` and the fixtures built on it (`cookiecutter_json_path`, `cookiecutter_json_contents`, `cookiecutter_package_name`) are not modelled: they are file I/O and single dictionary lookups.
- The pytest fixture machinery (session scope, `tmp_path_factory`) and the constant `cookiecutter_extra_context` dictionary are not modelled: they are test plumbing and data without behaviour.
- Real filesystem semantics are not modelled. This covers symbolic links and their cycles, path normalisation (`.`, `..`, trailing slashes), node kinds other than directory and regular file, and a tree whose intermediate directories are missing. The filesystem is an abstract map.
- An empty or absolute `project_name` is not modelled as Python treats it. In Python, `Path(r) / "src" / ""` is `r/src`, so `rglob` would scan all of `src`, and an absolute name replaces the path. In the model, `SourceDir(r, "")` is the text `r/src/`, and a path below it must start with `r/src//`, so the model scans nothing. An absolute name is appended as plain text.
- Drive-letter paths are not modelled. On Windows, `Path.cwd()` has a drive, and `Path("C:/").parent` is `Path("C:/")`, which never equals `Path("/")`. So the loop at tests/conftest.py:118-121 does not end when no ancestor has the template's name. `FindTemplateRoot` works on component sequences below `/`, has no drive, and always ends.
- Python truthiness of context values that are neither strings nor booleans is not modelled. `license` is a string, and the two flags are booleans.
- Assertions disabled by `python -O` are not modelled. The check always fails on the first false assertion.
- The assertion messages are not modelled beyond the failing path, its expected kind, and the RuntimeError text of `template_root`.
- That `BASE_MANIFEST` and `BASE_SRC` are never modified holds by construction: they are constants, and Dafny sequences are values. So the copy in `generate_expected_src_files` needs no separate model.
- The current working directory is a parameter of `FindTemplateRoot`, not a read of the process state.
