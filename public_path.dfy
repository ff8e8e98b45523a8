/**
 * Public-asset path normalisation (`fromPublic` in portfolio.tsx): every
 * leading '/' of the path is removed (the regular expression `^\/+`
 * replaced by the empty string) and exactly one '/' is put in front.
 */
module PublicPath {

  /** The local CV document, `LINKS.cv`, built from this relative path. */
  const CvAsset: string := "cv/MiguelLaCruz_CV.pdf"

  /** What `s.replace(/^\/+/, "")` yields: `s` without its leading run of '/'. */
  function StripLeadingSlashes(s: string): (r: string)
    ensures |r| <= |s|
    ensures r == s[|s| - |r|..]
    ensures forall i :: 0 <= i < |s| - |r| ==> s[i] == '/'
    ensures |r| > 0 ==> r[0] != '/'
    decreases |s|
  {
    if |s| > 0 && s[0] == '/' then StripLeadingSlashes(s[1..]) else s
  }

  /** `fromPublic(path)`: the path rooted at the public asset directory. */
  function FromPublic(path: string): (r: string)
    ensures |r| >= 1 && r[0] == '/'
    ensures |r| >= 2 ==> r[1] != '/'
    ensures |r| <= |path| + 1
    ensures r[1..] == path[|path| + 1 - |r|..]
    ensures forall i :: 0 <= i < |path| + 1 - |r| ==> path[i] == '/'
  {
    "/" + StripLeadingSlashes(path)
  }

  /** The leading run of slashes is unique: any split of `s` into slashes
      followed by a part that does not start with '/' is the one that
      `StripLeadingSlashes` finds. */
  lemma StripIsUnique(s: string, k: nat)
    requires k <= |s|
    requires forall i :: 0 <= i < k ==> s[i] == '/'
    requires k == |s| || s[k] != '/'
    ensures StripLeadingSlashes(s) == s[k..]
  {
  }

  /** A path that already has no leading '/' gets exactly one. */
  lemma FromPublicOfRelative(path: string)
    requires |path| == 0 || path[0] != '/'
    ensures FromPublic(path) == "/" + path
  {
    StripIsUnique(path, 0);
  }

  /** Extra leading slashes make no difference. */
  lemma FromPublicIgnoresLeadingSlash(path: string)
    ensures FromPublic("/" + path) == FromPublic(path)
  {
    assert ("/" + path)[1..] == path;
  }

  /** Normalising twice changes nothing. */
  lemma FromPublicIdempotent(path: string)
    ensures FromPublic(FromPublic(path)) == FromPublic(path)
  {
    var r := FromPublic(path);
    FromPublicIgnoresLeadingSlash(r[1..]);
    assert r == "/" + r[1..];
    FromPublicOfRelative(r[1..]);
  }

  /** The development self-test's expectation: `LINKS.cv` starts with "/cv/". */
  lemma CvLinkIsLocal()
    ensures "/cv/" <= FromPublic(CvAsset)
  {
    FromPublicOfRelative(CvAsset);
  }
}
