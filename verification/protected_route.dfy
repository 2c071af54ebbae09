/**
 * The admin route guard of src/components/ProtectedRoute.tsx: render the
 * children, or send the visitor back to the home page.
 */
module ProtectedRoute {
  import opened Wrappers

  /** The key the `?key=` query parameter must carry. */
  const ExpectedKey := "admin123"

  /** The page the guard redirects to. */
  const HomePath := "/"

  /** Render the protected children, or `<Navigate to=... replace />`. */
  datatype RouteOutcome = RenderChildren | Redirect(to: string, replace: bool)

  /** A JavaScript string that is neither missing nor empty. */
  predicate Truthy(s: Option<string>) {
    s.Some? && s.value != ""
  }

  /**
   * `adminKey` is the component's optional prop; `providedKey` is the `key`
   * query parameter (`None` when the URL has none).
   */
  function Guard(adminKey: Option<string>, providedKey: Option<string>): (r: RouteOutcome)
    ensures r == RenderChildren <==> !Truthy(adminKey) || providedKey == Some(ExpectedKey)
    ensures r.Redirect? <==> Truthy(adminKey) && providedKey != Some(ExpectedKey)
    ensures r.Redirect? ==> r.to == HomePath && r.replace
  {
    if Truthy(adminKey) && providedKey != Some(ExpectedKey) then Redirect(HomePath, true)
    else RenderChildren
  }

  /** Only whether `adminKey` is set matters, never its value. */
  lemma AdminKeyValueIgnored(a1: string, a2: string, providedKey: Option<string>)
    requires a1 != "" && a2 != ""
    ensures Guard(Some(a1), providedKey) == Guard(Some(a2), providedKey)
  {
  }

  /** An unguarded route (no or empty `adminKey`) renders whatever key is given. */
  lemma UnguardedAlwaysRenders(adminKey: Option<string>, providedKey: Option<string>)
    requires adminKey.None? || adminKey == Some("")
    ensures Guard(adminKey, providedKey) == RenderChildren
  {
  }
}
