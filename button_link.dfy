/**
 * The target of a `ButtonLink` anchor in portfolio.tsx:
 * `target ?? (href?.startsWith("#") ? "_self" : "_blank")`.
 */
module ButtonLink {
  import opened Wrappers
  import PublicPath

  /** `s.startsWith(prefix)`. */
  predicate StartsWith(s: string, prefix: string) {
    prefix <= s
  }

  /** An explicit target (anything but `undefined`/`null`) is used as it is;
      otherwise in-page anchors open in place and all other links in a new tab. */
  function LinkTarget(href: string, target: Option<string>): (r: string)
    ensures target.Some? ==> r == target.value
    ensures target.None? ==> r == "_self" || r == "_blank"
    ensures target.None? ==> (r == "_self" <==> |href| > 0 && href[0] == '#')
  {
    match target
    case Some(t) => t
    case None => if StartsWith(href, "#") then "_self" else "_blank"
  }

  /** A link to a public asset, such as the CV, opens in a new tab unless told otherwise. */
  lemma PublicAssetOpensNewTab(path: string)
    ensures LinkTarget(PublicPath.FromPublic(path), None) == "_blank"
  {
  }

  /** The hero's "#projects" button stays on the page. */
  lemma InPageAnchorStays()
    ensures LinkTarget("#projects", None) == "_self"
  {
  }
}
