# Verified model of the portfolio page logic

The repository is a single React page, `portfolio.tsx`, that renders a personal portfolio.
Almost all of it is markup and literal content. This project models the few pieces that compute something:

- **Public asset paths** (`PublicPath`). `fromPublic` removes every leading `/` of a path and puts exactly one `/` in front.
- **Scroll-driven background** (`ScrollBackground`). `onScroll` floors the scrollable height at 1 and clamps the progress `y / h` into `[0, 1]`. It then writes a position offset `30 + 28p` and an overlay tint `0.94 - 0.12p` into the page state. The page state is the class `Portfolio`. It also holds the active navigation section.
- **Project card media** (`PreviewMedia`). A card shows its GIF while hovered, if it has one, and its image otherwise. With no usable source it shows a placeholder. The hover flag lives in the class `PreviewCard`.
- **Link targets** (`ButtonLink`). An explicit `target` wins. Otherwise an `href` starting with `#` opens in place (`_self`) and any other `href` opens a new tab (`_blank`).
- **GitHub heatmap** (`GithubHeatmap`). The component is found in the `react-github-calendar` package by probing `default`, `GitHubCalendar`, `Calendar` and then the package itself. The first truthy candidate is kept only if it is a function, or an object with a `$$typeof` or `render` key. The heatmap falls back to a link unless the page is mounted, a component was resolved and the username is a non-blank string. `Heatmap` holds the `mounted` flag and the resolved component.

Modelling choices:

- JavaScript values that only matter by their truthiness are modelled with that truthiness. For the media props, an absent prop and the empty string `""` are both "not present". This follows `hovered && gif` and `src ? ... : ...` at portfolio.tsx:366 and 381.
- A JavaScript value is a `Value`: `Absent` (undefined), `Falsy` (null, false, 0, -0, 0n, NaN, ""), `Func`, `Obj` (a non-null object) or `Other` (a truthy primitive). The `props` of a function or object are the properties a read (`anyPkg.default`) or an `in` test (`"render" in Comp`) can see on it, its own and those inherited from its prototypes. Because functions and objects carry properties, the package itself can be a candidate. `key in obj` is key presence, even when the key holds `undefined`.
- A username that is not a string is `None`. `trim()` removes ECMAScript WhiteSpace and LineTerminator code points.
- Scroll geometry (`scrollY`, `scrollHeight`, `innerHeight`) is given to `OnScroll` as parameters, as exact reals.

Two facts about the code shape the model:

- `image` is optional in `PreviewMediaProps` (portfolio.tsx:38), so the selected source can be absent.
- The page keeps the last result in state, starting from `(30, 0.92)` (portfolio.tsx:750-751). That pair is not on the derived curve, since `p = 0` gives tint 0.94, but it lies inside the bounds. So the bounds are an invariant of the state from construction onward.

## Model

| member | source | states |
|---|---|---|
| PublicPath.StripLeadingSlashes | portfolio.tsx:86 | the result is a suffix of the input, everything removed is `/`, and the result does not start with `/` |
| PublicPath.FromPublic | portfolio.tsx:86 | the result starts with exactly one `/`, followed by the input minus a leading run of slashes |
| PublicPath.StripIsUnique | portfolio.tsx:86 | any split into leading slashes and a rest not starting with `/` is the one the regular expression removes |
| PublicPath.FromPublicOfRelative | portfolio.tsx:86 | a path not starting with `/` just gets `/` prepended |
| PublicPath.FromPublicIgnoresLeadingSlash | portfolio.tsx:86 | an extra leading `/` does not change the result |
| PublicPath.FromPublicIdempotent | portfolio.tsx:86 | normalising twice gives the same path as normalising once |
| PublicPath.CvLinkIsLocal | portfolio.tsx:736-739 | `LINKS.cv`, built from `cv/MiguelLaCruz_CV.pdf`, starts with `/cv/` |
| ScrollBackground.Clamp | portfolio.tsx:266-268 | with `a <= b` the result lies in `[a, b]`, equals `n` when `n` is already there and is the nearer end otherwise; with `b < a` it is `a` |
| ScrollBackground.ScrollRange | portfolio.tsx:758 | the denominator is at least 1 and at least `scrollHeight - innerHeight`, and it is one of the two |
| ScrollBackground.Progress | portfolio.tsx:757-759 | progress lies in `[0, 1]`, is 0 at or above the top, 1 at or past the end, and `p * h == y` in between |
| ScrollBackground.QuotientBounds | portfolio.tsx:759 | for `h >= 1`, `y / h` sits on the same side of 0 and 1 as `y` sits of 0 and `h` |
| ScrollBackground.Position | portfolio.tsx:762 | progress in `[0, 1]` gives a position offset in `[30, 58]` |
| ScrollBackground.Tint | portfolio.tsx:764 | progress in `[0, 1]` gives a tint in `[0.82, 0.94]` |
| ScrollBackground.GradientEndTint | portfolio.tsx:782 | a tint in `[0.82, 0.94]` gives a second gradient stop in `[0.74, 0.86]` |
| ScrollBackground.ProgressEndpoints | portfolio.tsx:762-764 | progress 0 gives (30, 0.94) and progress 1 gives (58, 0.82) |
| ScrollBackground.ProgressMonotone | portfolio.tsx:757-759 | for fixed geometry, a larger scroll offset never gives smaller progress |
| ScrollBackground.ParametersMonotone | portfolio.tsx:756-764 | for fixed geometry the position offset is non-decreasing and the tint non-increasing in the scroll offset |
| ScrollBackground.HundredPixelRange | portfolio.tsx:756-764 | with a 100-pixel range, offset 0 gives (30, 0.94) and offset 100 gives (58, 0.82) |
| ScrollBackground.ShortContent | portfolio.tsx:758-759 | content no taller than the viewport plus one pixel gives range 1: offsets of 1 or more read as the bottom |
| ScrollBackground.Portfolio.constructor | portfolio.tsx:746-751 | the state starts as ("projects", 30, 0.92), which is inside the bounds |
| ScrollBackground.Portfolio.OnScroll | portfolio.tsx:756-768 | for any geometry the new position and tint are the derived values of the new progress, they stay in bounds, and the active section is unchanged |
| ScrollBackground.Portfolio.SelectSection | portfolio.tsx:634 | a navigation click sets the active section and leaves the background state as it was |
| ScrollBackground.Portfolio.BackgroundEndTint | portfolio.tsx:775-782 | in a valid state the gradient's second stop lies in `[0.74, 0.86]` |
| PreviewMedia.SelectSource | portfolio.tsx:366 | the source is the image or the GIF; it is the GIF when hovered with a GIF, and the image when not hovered or when there is no GIF, so hover has no effect without one |
| PreviewMedia.GifShownIffHovered | portfolio.tsx:366 | with a GIF different from the image, the GIF shows exactly while hovered |
| PreviewMedia.ShowsPlaceholder | portfolio.tsx:381-411 | the placeholder renders exactly when the image is not usable and no GIF is active |
| PreviewMedia.HoverCaption | portfolio.tsx:426 | the caption reads "Hover: GIF" exactly when a GIF is present, and "Hover: zoom" otherwise |
| PreviewMedia.PreviewCard.constructor | portfolio.tsx:364-365 | a card starts not hovered, showing its image |
| PreviewMedia.PreviewCard.Source | portfolio.tsx:366 | a usable source is displayed exactly when the image is usable or the card is hovered over a usable GIF |
| PreviewMedia.PreviewCard.MouseEnter | portfolio.tsx:370 | after mouse-enter the card is hovered and shows its GIF if present, else its image |
| PreviewMedia.PreviewCard.MouseLeave | portfolio.tsx:371 | after mouse-leave the card is not hovered and shows its image |
| ButtonLink.LinkTarget | portfolio.tsx:311 | a supplied target is returned unchanged; otherwise the target is `_self` exactly when `href` starts with `#`, and `_blank` otherwise |
| ButtonLink.PublicAssetOpensNewTab | portfolio.tsx:904 | a link to a public asset such as the CV opens in a new tab when no target is given |
| ButtonLink.InPageAnchorStays | portfolio.tsx:874 | the hero's `#projects` button opens in place |
| GithubHeatmap.IsComponent | portfolio.tsx:661-663 | the `typeof`/`in` test `isValid`: a function, or a non-null object with a `$$typeof` or `render` key; a value passing it is truthy, and `Resolve` guarantees only such values are returned |
| GithubHeatmap.Resolve | portfolio.tsx:656-666 | a resolved value is always a function or an object with a `$$typeof` or `render` key, never an invalid value |
| GithubHeatmap.FirstTruthy | portfolio.tsx:659 | the result is absent exactly when no candidate is truthy; otherwise it is the truthy candidate with no truthy one before it |
| GithubHeatmap.ResolveMatchesSpec | portfolio.tsx:656-666 | the chain of `&&`/`||` equals "first truthy of default, GitHubCalendar, Calendar, package, kept only if it is a component" |
| GithubHeatmap.DefaultFunctionWins | portfolio.tsx:659-665 | a default export that is a function is the resolved component |
| GithubHeatmap.FirstTruthySlotDecides | portfolio.tsx:659-665 | a truthy default export that is no component gives null, even when a later slot is valid |
| GithubHeatmap.PlainNamespaceUnavailable | portfolio.tsx:656-666 | a namespace object with no truthy export slot and no component marker gives null |
| GithubHeatmap.PackageItselfAsComponent | portfolio.tsx:659-665 | a package that is itself a component, with no truthy slot, resolves to itself |
| GithubHeatmap.TrimStart | portfolio.tsx:677 | the result is a suffix, everything removed is whitespace, and it does not start with whitespace |
| GithubHeatmap.TrimEnd | portfolio.tsx:677 | the result is a prefix, everything removed is whitespace, and it does not end with whitespace |
| GithubHeatmap.Trim | portfolio.tsx:677 | `trim()` is empty exactly when every character is whitespace; otherwise it starts and ends with a non-whitespace character |
| GithubHeatmap.RendersCalendar | portfolio.tsx:677-690 | the calendar renders exactly when mounted, a component was resolved and the username is a string with a non-whitespace character; otherwise the fallback link renders |
| GithubHeatmap.Heatmap.constructor | portfolio.tsx:668-675 | the component is resolved once, nothing invalid is kept, and before mounting only the fallback renders |
| GithubHeatmap.Heatmap.Mount | portfolio.tsx:671-673 | after the mount effect the calendar renders exactly when the guard holds for a mounted page |
| GithubHeatmap.Heatmap.ShowsCalendar | portfolio.tsx:677 | rendering the calendar implies mounted, a resolved component and a string username; what renders is a plausible component |
| GithubHeatmap.PageHeatmapDependsOnlyOnPackage | portfolio.tsx:1077 | for the page's username `Mlcruz9`, once mounted, the calendar renders exactly when the package yields a component |

## Left out

- JSX markup, inline styles and framer-motion animation props, including the hover zoom scale at portfolio.tsx:387: presentation with no stated behaviour.
- Registering and removing the window scroll listener, React hooks wiring (`useEffect`, `useMemo`) and reading DOM geometry. The geometry is a parameter of `OnScroll`; `Heatmap.Mount` stands for the mount effect.
- IEEE floating point: the arithmetic is exact over reals. In JavaScript the edges of the bounds may differ in the last bit. Non-finite scroll geometry is not modelled. `scrollY || 0` turns a `NaN` offset into 0, but a `NaN` `scrollHeight` or `innerHeight` makes `Math.max(1, NaN)` NaN (portfolio.tsx:758), and then `p`, `bgPos` and `bgTint` are NaN too.
- `runDevSelfTests` environment checks and `console.assert`. Only its `/cv/` expectation is kept, as `CvLinkIsLocal`.
- The rendering done by `react-github-calendar` itself, and JavaScript's full dynamic typing. These are abstracted into `Value`.
- Static content tables (`PROJECTS`, `TOOLBOX`, `EXPERIENCE`, `LINKS`, `DEPLOYS`), the current year, and the active-section highlight styling of `TopNav`.
