/**
 * The scroll-driven background of the portfolio page (`clamp` and the
 * `onScroll` handler of `PortfolioMiguel` in portfolio.tsx). JavaScript
 * numbers are modelled as exact reals.
 */
module ScrollBackground {

  /** `Math.max` on two numbers. */
  function Max(a: real, b: real): (r: real)
    ensures r >= a && r >= b && (r == a || r == b)
  {
    if a >= b then a else b
  }

  /** `Math.min` on two numbers. */
  function Min(a: real, b: real): (r: real)
    ensures r <= a && r <= b && (r == a || r == b)
  {
    if a <= b then a else b
  }

  /** `clamp(n, a, b)`, written as `Math.max(a, Math.min(b, n))`. */
  function Clamp(n: real, a: real, b: real): (r: real)
    ensures a <= b ==> a <= r <= b
    ensures a <= n <= b ==> r == n
    ensures a <= b && n <= a ==> r == a
    ensures a <= b && b <= n ==> r == b
    // with inverted bounds the outer Math.max wins
    ensures b < a ==> r == a
  {
    Max(a, Min(b, n))
  }

  /** The denominator `Math.max(1, scrollHeight - innerHeight)`. */
  function ScrollRange(scrollHeight: real, innerHeight: real): (h: real)
    ensures h >= 1.0
    ensures h >= scrollHeight - innerHeight
    ensures h == 1.0 || h == scrollHeight - innerHeight
  {
    Max(1.0, scrollHeight - innerHeight)
  }

  /** The scroll progress `p = clamp(y / h, 0, 1)`. */
  function Progress(y: real, scrollHeight: real, innerHeight: real): (p: real)
    ensures 0.0 <= p <= 1.0
    ensures y <= 0.0 ==> p == 0.0
    ensures y >= ScrollRange(scrollHeight, innerHeight) ==> p == 1.0
    ensures 0.0 <= y <= ScrollRange(scrollHeight, innerHeight) ==>
              p * ScrollRange(scrollHeight, innerHeight) == y
  {
    var h := ScrollRange(scrollHeight, innerHeight);
    QuotientBounds(y, h);
    Clamp(y / h, 0.0, 1.0)
  }

  /** Where `y / h` lies relative to 0 and 1, for a denominator `h >= 1`. */
  lemma QuotientBounds(y: real, h: real)
    requires h >= 1.0
    ensures y <= 0.0 ==> y / h <= 0.0
    ensures 0.0 <= y ==> 0.0 <= y / h
    ensures y >= h ==> y / h >= 1.0
    ensures y <= h ==> y / h <= 1.0
    ensures (y / h) * h == y
  {
  }

  /** `pos = 30 + p * 28`, the background position offset. */
  function Position(p: real): (pos: real)
    ensures 0.0 <= p <= 1.0 ==> 30.0 <= pos <= 58.0
  {
    30.0 + p * 28.0
  }

  /** `tint = 0.94 - p * 0.12`, the overlay tint. */
  function Tint(p: real): (tint: real)
    ensures 0.0 <= p <= 1.0 ==> 0.82 <= tint <= 0.94
  {
    0.94 - p * 0.12
  }

  /** The second colour stop of the gradient uses `bgTint - 0.08`. */
  function GradientEndTint(tint: real): (t: real)
    ensures 0.82 <= tint <= 0.94 ==> 0.74 <= t <= 0.86
  {
    tint - 0.08
  }

  /** Top and bottom of the page give the extreme parameters. */
  lemma ProgressEndpoints()
    ensures Position(0.0) == 30.0 && Tint(0.0) == 0.94
    ensures Position(1.0) == 58.0 && Tint(1.0) == 0.82
  {
  }

  /** For a fixed page geometry, scrolling further never decreases progress. */
  lemma ProgressMonotone(y1: real, y2: real, scrollHeight: real, innerHeight: real)
    requires y1 <= y2
    ensures Progress(y1, scrollHeight, innerHeight) <= Progress(y2, scrollHeight, innerHeight)
  {
    var h := ScrollRange(scrollHeight, innerHeight);
    var q1, q2 := y1 / h, y2 / h;
    QuotientBounds(y1, h);
    QuotientBounds(y2, h);
    assert q1 <= q2;
  }

  /** So the position offset rises and the tint falls as the page scrolls down. */
  lemma ParametersMonotone(y1: real, y2: real, scrollHeight: real, innerHeight: real)
    requires y1 <= y2
    ensures Position(Progress(y1, scrollHeight, innerHeight))
            <= Position(Progress(y2, scrollHeight, innerHeight))
    ensures Tint(Progress(y1, scrollHeight, innerHeight))
            >= Tint(Progress(y2, scrollHeight, innerHeight))
  {
    ProgressMonotone(y1, y2, scrollHeight, innerHeight);
  }

  /** The two scenarios of a 100-pixel scroll range: top and bottom. */
  lemma HundredPixelRange(scrollHeight: real, innerHeight: real)
    requires scrollHeight - innerHeight == 100.0
    ensures Position(Progress(0.0, scrollHeight, innerHeight)) == 30.0
    ensures Tint(Progress(0.0, scrollHeight, innerHeight)) == 0.94
    ensures Position(Progress(100.0, scrollHeight, innerHeight)) == 58.0
    ensures Tint(Progress(100.0, scrollHeight, innerHeight)) == 0.82
  {
  }

  /** When the content is no taller than the viewport the range is floored at
      one pixel, so any offset of at least one pixel reads as the bottom. */
  lemma ShortContent(y: real, scrollHeight: real, innerHeight: real)
    requires scrollHeight <= innerHeight + 1.0
    ensures ScrollRange(scrollHeight, innerHeight) == 1.0
    ensures y >= 1.0 ==> Progress(y, scrollHeight, innerHeight) == 1.0
    ensures 0.0 <= y <= 1.0 ==> Progress(y, scrollHeight, innerHeight) == y
  {
  }

  /** The page component's state: the active navigation section and the two
      background parameters written by `onScroll`. */
  class Portfolio {
    var active: string
    var bgPos: real
    var bgTint: real

    /** Both background parameters stay in their ranges. */
    ghost predicate Valid()
      reads this
    {
      30.0 <= bgPos <= 58.0 && 0.82 <= bgTint <= 0.94
    }

    /** `useState("projects")`, `useState(30)` and `useState(0.92)`. */
    constructor ()
      ensures Valid()
      ensures active == "projects" && bgPos == 30.0 && bgTint == 0.92
    {
      active := "projects";
      bgPos := 30.0;
      bgTint := 0.92;
    }

    /** `onScroll`: any geometry, including a negative offset, an offset past
        the end or content shorter than the viewport, leaves the state valid. */
    method OnScroll(scrollY: real, scrollHeight: real, innerHeight: real)
      modifies this
      ensures Valid()
      ensures bgPos == Position(Progress(scrollY, scrollHeight, innerHeight))
      ensures bgTint == Tint(Progress(scrollY, scrollHeight, innerHeight))
      ensures active == old(active)
    {
      var h := Max(1.0, scrollHeight - innerHeight);
      var p := Clamp(scrollY / h, 0.0, 1.0);
      var pos := 30.0 + p * 28.0;
      var tint := 0.94 - p * 0.12;
      bgPos := pos;
      bgTint := tint;
    }

    /** A navigation link click, `setActive(it.id)`. */
    method SelectSection(id: string)
      requires Valid()
      modifies this
      ensures Valid()
      ensures active == id && bgPos == old(bgPos) && bgTint == old(bgTint)
    {
      active := id;
    }

    /** The lower gradient tint computed from the current state. */
    function BackgroundEndTint(): (t: real)
      reads this
      ensures Valid() ==> 0.74 <= t <= 0.86
    {
      GradientEndTint(bgTint)
    }
  }
}
