/**
 * Media selection of a project card (`PreviewMedia` in portfolio.tsx): the
 * card shows its GIF while hovered, when it has one, and its image otherwise;
 * with no usable source it shows a placeholder.
 */
module PreviewMedia {
  import opened Wrappers

  /** JavaScript truthiness of an optional string prop: `undefined` and "" are falsy. */
  predicate Present(s: Option<string>) {
    s.Some? && s.value != ""
  }

  /** `src = hovered && gif ? gif : image`: the displayed source is one of
      the two props; it is the GIF whenever the card is hovered and has a GIF,
      and the image when it is not hovered or has no GIF. */
  function SelectSource(image: Option<string>, gif: Option<string>, hovered: bool): (src: Option<string>)
    ensures src == image || src == gif
    ensures hovered && Present(gif) ==> src == gif
    ensures !hovered ==> src == image
    // hovering has no effect on a card without a GIF
    ensures !Present(gif) ==> src == image
  {
    if hovered && Present(gif) then gif else image
  }

  /** `src ? <img> : <placeholder>`: the placeholder renders exactly when
      neither the image nor an active GIF is usable. */
  predicate ShowsPlaceholder(image: Option<string>, gif: Option<string>, hovered: bool)
    ensures ShowsPlaceholder(image, gif, hovered) <==> !Present(image) && !(hovered && Present(gif))
  {
    !Present(SelectSource(image, gif, hovered))
  }

  /** The caption under the media, `gif ? "Hover: GIF" : "Hover: zoom"`. */
  function HoverCaption(gif: Option<string>): (caption: string)
    ensures caption == "Hover: GIF" <==> Present(gif)
    ensures caption == "Hover: GIF" || caption == "Hover: zoom"
  {
    if Present(gif) then "Hover: GIF" else "Hover: zoom"
  }

  /** With a GIF distinct from the image, the GIF shows exactly while hovered. */
  lemma GifShownIffHovered(image: Option<string>, gif: Option<string>, hovered: bool)
    requires Present(gif) && gif != image
    ensures SelectSource(image, gif, hovered) == gif <==> hovered
  {
  }

  /** The card's hover state; the two props are fixed for its lifetime. */
  class PreviewCard {
    const image: Option<string>
    const gif: Option<string>
    var hovered: bool

    /** `useState(false)`. */
    constructor (image: Option<string>, gif: Option<string>)
      ensures this.image == image && this.gif == gif && !hovered
      ensures Source() == image
    {
      this.image := image;
      this.gif := gif;
      hovered := false;
    }

    /** The source currently displayed; a usable one exists exactly when the
        image is usable or the card is hovered over a usable GIF. */
    function Source(): (src: Option<string>)
      reads this
      ensures Present(src) <==> Present(image) || (hovered && Present(gif))
    {
      SelectSource(image, gif, hovered)
    }

    /** `onMouseEnter`: `setHovered(true)`. */
    method MouseEnter()
      modifies this
      ensures hovered
      ensures Source() == if Present(gif) then gif else image
    {
      hovered := true;
    }

    /** `onMouseLeave`: `setHovered(false)`. */
    method MouseLeave()
      modifies this
      ensures !hovered
      ensures Source() == image
    {
      hovered := false;
    }
  }
}
