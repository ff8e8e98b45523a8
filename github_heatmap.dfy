/**
 * The GitHub contribution heatmap of portfolio.tsx: resolving a renderable
 * component from the `react-github-calendar` package, whatever its export
 * shape (`resolveGitHubCalendarComponent`), and deciding between that
 * component and a plain link (`GithubHeatmap`).
 */
module GithubHeatmap {
  import opened Wrappers

  /** A JavaScript value, as far as resolution can tell values apart. The
      `props` of a function or object are the properties a read or an `in`
      test can see on it, its own and those inherited from its prototypes. */
  datatype Value =
    | Absent                          // `undefined`, also a missing property
    | Falsy                           // `null`, `false`, `0`, `-0`, `0n`, `NaN`, ""
    | Func(props: map<string, Value>) // a function
    | Obj(props: map<string, Value>)  // a non-null object
    | Other                           // a truthy primitive (number, string, `true`, symbol)

  /** The value JavaScript's `||` and `&&` treat as true. */
  predicate Truthy(v: Value) {
    !v.Absent? && !v.Falsy?
  }

  /** Property read `v.key`; a primitive has none of the keys probed here. */
  function Get(v: Value, key: string): Value {
    match v
    case Func(p) => if key in p then p[key] else Absent
    case Obj(p) => if key in p then p[key] else Absent
    case _ => Absent
  }

  /** `a || b`. */
  function Or(a: Value, b: Value): Value {
    if Truthy(a) then a else b
  }

  /** `a && b`. */
  function And(a: Value, b: Value): Value {
    if Truthy(a) then b else a
  }

  /** The plausibility test `isValid`: a function, or a non-null object with a
      `$$typeof` or `render` key (whatever that key holds). A value passing it
      is never falsy, so it is never confused with the `null` fallback. */
  predicate IsComponent(v: Value)
    ensures IsComponent(v) ==> Truthy(v)
  {
    v.Func? || (v.Obj? && ("$$typeof" in v.props || "render" in v.props))
  }

  /** `resolveGitHubCalendarComponent()` applied to the imported package. */
  function Resolve(pkg: Value): (r: Option<Value>)
    ensures r.Some? ==> IsComponent(r.value)
  {
    var comp := Or(And(pkg, Or(Get(pkg, "default"),
                               Or(Get(pkg, "GitHubCalendar"),
                                  Or(Get(pkg, "Calendar"), pkg)))),
                   Falsy);
    if IsComponent(comp) then Some(comp) else None
  }

  /** The probe order: the three export slots, then the package itself. */
  function Candidates(pkg: Value): seq<Value> {
    [Get(pkg, "default"), Get(pkg, "GitHubCalendar"), Get(pkg, "Calendar"), pkg]
  }

  /** The first truthy value of a list, if there is one. */
  function FirstTruthy(vs: seq<Value>): (r: Option<Value>)
    ensures r.None? <==> forall i :: 0 <= i < |vs| ==> !Truthy(vs[i])
    ensures r.Some? ==> exists i :: 0 <= i < |vs| && vs[i] == r.value && Truthy(vs[i])
                                    && forall j :: 0 <= j < i ==> !Truthy(vs[j])
  {
    if |vs| == 0 then None
    else if Truthy(vs[0]) then Some(vs[0])
    else
      var r := FirstTruthy(vs[1..]);
      assert forall i :: 1 <= i < |vs| ==> vs[i] == vs[1..][i - 1];
      r
  }

  /** Resolution as a reference definition: take the first truthy candidate
      and keep it only if it looks like a component. */
  function ResolveSpec(pkg: Value): Option<Value> {
    match FirstTruthy(Candidates(pkg))
    case Some(c) => if IsComponent(c) then Some(c) else None
    case None => None
  }

  /** The chain of `&&` and `||` in the source is that reference definition. */
  lemma ResolveMatchesSpec(pkg: Value)
    ensures Resolve(pkg) == ResolveSpec(pkg)
  {
    // FirstTruthy unrolled over the four candidates, one slot at a time
    var a, b, c := Get(pkg, "default"), Get(pkg, "GitHubCalendar"), Get(pkg, "Calendar");
    var cs := Candidates(pkg);
    assert cs[1..] == [b, c, pkg] && [b, c, pkg][1..] == [c, pkg];
    assert [c, pkg][1..] == [pkg] && [pkg][1..] == [];
    if Truthy(a) {
      assert FirstTruthy(cs) == Some(a);
    } else if Truthy(b) {
      assert FirstTruthy(cs) == FirstTruthy([b, c, pkg]) == Some(b);
    } else if Truthy(c) {
      assert FirstTruthy(cs) == FirstTruthy([b, c, pkg]) == FirstTruthy([c, pkg]) == Some(c);
    } else {
      assert FirstTruthy(cs) == FirstTruthy([b, c, pkg]) == FirstTruthy([c, pkg]) == FirstTruthy([pkg]);
    }
  }

  /** A package whose default export is a function resolves to that function. */
  lemma DefaultFunctionWins(pkg: Value, props: map<string, Value>)
    requires pkg.Obj? && "default" in pkg.props && pkg.props["default"] == Func(props)
    ensures Resolve(pkg) == Some(Func(props))
  {
  }

  /** The first truthy slot decides: a truthy `default` that is no component
      gives `null`, even when a later slot holds a valid component. */
  lemma FirstTruthySlotDecides(pkg: Value)
    requires Truthy(Get(pkg, "default")) && !IsComponent(Get(pkg, "default"))
    ensures Resolve(pkg) == None
  {
  }

  /** A namespace of plain data (no truthy export slot, no component marker)
      resolves to `null`. */
  lemma PlainNamespaceUnavailable(pkg: Value)
    requires pkg.Obj?
    requires !Truthy(Get(pkg, "default")) && !Truthy(Get(pkg, "GitHubCalendar"))
             && !Truthy(Get(pkg, "Calendar"))
    requires "$$typeof" !in pkg.props && "render" !in pkg.props
    ensures Resolve(pkg) == None
  {
  }

  /** A package that is itself a component (for instance a CommonJS
      `module.exports = function`) with no truthy slot resolves to itself. */
  lemma PackageItselfAsComponent(pkg: Value)
    requires IsComponent(pkg)
    requires !Truthy(Get(pkg, "default")) && !Truthy(Get(pkg, "GitHubCalendar"))
             && !Truthy(Get(pkg, "Calendar"))
    ensures Resolve(pkg) == Some(pkg)
  {
  }

  /** The characters `String.prototype.trim` removes: ECMAScript WhiteSpace
      and LineTerminator code points. */
  predicate IsJsWhitespace(c: char) {
    c == '\t' || c == '\n' || c == '\U{B}' || c == '\U{C}' || c == '\r' || c == ' '
    || c == '\U{A0}' || c == '\U{1680}' || ('\U{2000}' <= c <= '\U{200A}')
    || c == '\U{2028}' || c == '\U{2029}' || c == '\U{202F}' || c == '\U{205F}'
    || c == '\U{3000}' || c == '\U{FEFF}'
  }

  /** `s` without its leading whitespace. */
  function TrimStart(s: string): (r: string)
    ensures |r| <= |s| && r == s[|s| - |r|..]
    ensures forall i :: 0 <= i < |s| - |r| ==> IsJsWhitespace(s[i])
    ensures |r| > 0 ==> !IsJsWhitespace(r[0])
    decreases |s|
  {
    if |s| > 0 && IsJsWhitespace(s[0]) then TrimStart(s[1..]) else s
  }

  /** `s` without its trailing whitespace. */
  function TrimEnd(s: string): (r: string)
    ensures |r| <= |s| && r == s[..|r|]
    ensures forall i :: |r| <= i < |s| ==> IsJsWhitespace(s[i])
    ensures |r| > 0 ==> !IsJsWhitespace(r[|r| - 1])
    decreases |s|
  {
    if |s| > 0 && IsJsWhitespace(s[|s| - 1]) then TrimEnd(s[..|s| - 1]) else s
  }

  /** `s.trim()`: empty exactly when `s` is made of whitespace only, and
      otherwise starting and ending with a non-whitespace character. */
  function Trim(s: string): (r: string)
    ensures |r| == 0 <==> forall i :: 0 <= i < |s| ==> IsJsWhitespace(s[i])
    ensures |r| > 0 ==> !IsJsWhitespace(r[0]) && !IsJsWhitespace(r[|r| - 1])
  {
    TrimEnd(TrimStart(s))
  }

  /** The guard of `GithubHeatmap`: the calendar renders only once mounted,
      with a resolved component and a username that is a string with a
      non-whitespace character; every other case renders the GitHub link. */
  function RendersCalendar(mounted: bool, comp: Option<Value>, username: Option<string>): (r: bool)
    ensures r <==> mounted && comp.Some? && username.Some?
                   && exists i :: 0 <= i < |username.value| && !IsJsWhitespace(username.value[i])
  {
    match username
    case None => false
    case Some(name) =>
      !(!mounted || comp.None? || |Trim(name)| == 0)
  }

  /** The account whose activity the page shows, `USERNAME`. */
  const Username: string := "Mlcruz9"

  /** The heatmap's state: the component resolved once per page (`useMemo`)
      and whether the first effect has run (`mounted`). */
  class Heatmap {
    const username: Option<string>
    const comp: Option<Value>
    var mounted: bool

    /** No invalid component is ever kept. */
    ghost predicate Valid()
      reads this
    {
      comp.Some? ==> IsComponent(comp.value)
    }

    constructor (username: Option<string>, pkg: Value)
      ensures Valid()
      ensures this.username == username && comp == Resolve(pkg) && !mounted
      ensures !ShowsCalendar()
    {
      this.username := username;
      comp := Resolve(pkg);
      mounted := false;
    }

    /** The effect `setMounted(true)`. */
    method Mount()
      requires Valid()
      modifies this
      ensures Valid() && mounted
      ensures ShowsCalendar() <==> RendersCalendar(true, comp, username)
    {
      mounted := true;
    }

    /** Whether the calendar component renders instead of the fallback link;
        when it does, what renders is a plausible component. */
    predicate ShowsCalendar()
      reads this
      ensures ShowsCalendar() ==> mounted && comp.Some? && username.Some?
      ensures ShowsCalendar() && Valid() ==> IsComponent(comp.value)
    {
      RendersCalendar(mounted, comp, username)
    }
  }

  /** On the page, once mounted, the calendar renders exactly when the
      package yields a component: the username is never blank. */
  lemma PageHeatmapDependsOnlyOnPackage(pkg: Value)
    ensures RendersCalendar(true, Resolve(pkg), Some(Username)) <==> Resolve(pkg).Some?
  {
  }
}
