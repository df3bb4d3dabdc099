/**
 * The `template_root` fixture: walk up from the working directory to the
 * nearest directory named after the project, failing at the filesystem root.
 */
module TemplateRoot {
  import opened Wrappers

  /** An absolute path as its components below `/`; `[]` is `/` itself. */
  type Path = seq<string>

  /** `_PROJECT`: the name of the template's own checkout directory. */
  const Project: string := "agentic-project-cookiecutter"

  /** The message of the `RuntimeError` raised when no such directory exists. */
  const NotFoundMessage: string := "Could not find the " + Project + " root directory."

  /** `p` is an ancestor-or-self of `q`. */
  predicate IsPrefix(p: Path, q: Path) {
    |p| <= |q| && q[..|p|] == p
  }

  /**
   * The fixture's `while p != root` loop with `p = p.parent`. On success the
   * result is the nearest ancestor-or-self of `cwd` named `_PROJECT`; `/`
   * itself is never tested. Otherwise no component of `cwd` is `_PROJECT`.
   */
  method FindTemplateRoot(cwd: Path) returns (r: Result<Path, string>)
    ensures r.Ok? ==>
      IsPrefix(r.value, cwd) && |r.value| > 0 && r.value[|r.value| - 1] == Project
      && forall k :: |r.value| <= k < |cwd| ==> cwd[k] != Project
    ensures r.Err? <==> forall k :: 0 <= k < |cwd| ==> cwd[k] != Project
    ensures r.Err? ==> r.error == NotFoundMessage
  {
    var p := cwd;
    while p != []
      invariant IsPrefix(p, cwd)
      invariant forall k :: |p| <= k < |cwd| ==> cwd[k] != Project
      decreases |p|
    {
      if p[|p| - 1] == Project {
        assert cwd[|p| - 1] == p[|p| - 1];
        return Ok(p);
      }
      assert cwd[|p| - 1] == p[|p| - 1];
      p := p[..|p| - 1];
    }
    return Err(NotFoundMessage);
  }

  /** The result of a successful search is determined: no two paths meet its postcondition. */
  lemma NearestIsUnique(cwd: Path, a: Path, b: Path)
    requires IsPrefix(a, cwd) && |a| > 0 && a[|a| - 1] == Project
    requires forall k :: |a| <= k < |cwd| ==> cwd[k] != Project
    requires IsPrefix(b, cwd) && |b| > 0 && b[|b| - 1] == Project
    requires forall k :: |b| <= k < |cwd| ==> cwd[k] != Project
    ensures a == b
  {
  }
}
