/**
 * The cookiecutter context as the test helpers read it: a dictionary whose
 * entries `license`, `_hooks_ran` and `use_pydantic_settings` decide what a
 * generated project must contain. Every lookup is a `dict.get` with a default.
 */
module CookiecutterContext {
  import opened Wrappers

  /**
   * The three keys the helpers look up; `None` means the key is absent.
   * Other keys of the dictionary are never read, so they are not represented.
   */
  datatype Context = Context(
    license: Option<string>,
    hooksRan: Option<bool>,
    usePydanticSettings: Option<bool>)

  /** The empty dictionary `{}`. */
  const Empty: Context := Context(None, None, None)

  /** The license choice that means "ship no LICENSE file", also the default. */
  const NoLicense: string := "no-license"

  /** `context.get("license", "no-license")` */
  function License(ctx: Context): string {
    ctx.license.GetOr(NoLicense)
  }

  /** `context.get("license", "no-license") != "no-license"` */
  predicate LicenseIncluded(ctx: Context) {
    License(ctx) != NoLicense
  }

  /** `context.get("_hooks_ran", True)` */
  predicate HooksRan(ctx: Context) {
    ctx.hooksRan.GetOr(true)
  }

  /** `context.get("use_pydantic_settings", True)` */
  predicate UsePydanticSettings(ctx: Context) {
    ctx.usePydanticSettings.GetOr(true)
  }

  /** `check_project_contents` replaces a missing (None) context by `{}`. */
  function ContextOrEmpty(ctx: Option<Context>): Context {
    ctx.GetOr(Empty)
  }
}
