/**
 * The single floating tooltip of the content script (content.js):
 * `showTooltip` fills it, measures it, places it beside the hovered cell so
 * that it stays in the window, and reveals it; `hideTooltip` only drops the
 * `visible` class.
 *
 * Pixel geometry is modelled with integers. The anchor cell's bounding box,
 * the window size and the size the browser measures for the filled tooltip
 * are inputs.
 */
module TooltipPlacement {
  import opened Wrappers

  /** The parts of `element.getBoundingClientRect()` that placement reads. */
  datatype Rect = Rect(left: int, top: int, bottom: int)

  /** `tooltip.style.visibility`: not yet set, 'hidden' or 'visible'. */
  datatype Visibility = Unset | Hidden | Visible

  /** The width the stylesheet gives the tooltip and the one placement resets it to. */
  const DefaultWidth: int := 300
  /** Horizontal gap between the tooltip and the anchor or the window edge. */
  const SideGap: int := 10
  /** Vertical gap between the tooltip and the anchor. */
  const VerticalGap: int := 5

  /** The three horizontal layouts `showTooltip` chooses between. */
  datatype Side = RightAligned | FlippedLeft | Banner

  function ChooseSide(anchorLeft: int, tooltipWidth: int, windowWidth: int): Side {
    if anchorLeft + tooltipWidth + SideGap > windowWidth then
      if anchorLeft - tooltipWidth - SideGap > 0 then FlippedLeft else Banner
    else
      RightAligned
  }

  /**
   * The new `style.left` and `style.width`: aligned with the anchor's left
   * edge at the default width; else ending 10px left of the anchor with the
   * width left as it was; else a banner 10px from both window edges.
   */
  function PlaceHorizontally(anchorLeft: int, tooltipWidth: int, windowWidth: int, currentWidth: int): (int, int) {
    match ChooseSide(anchorLeft, tooltipWidth, windowWidth)
    case RightAligned => (anchorLeft, DefaultWidth)
    case FlippedLeft => (anchorLeft - tooltipWidth - SideGap, currentWidth)
    case Banner => (SideGap, windowWidth - 2 * SideGap)
  }

  /** The new `style.top`: 5px below the anchor when the tooltip fits there, else ending 5px above it. */
  function PlaceVertically(anchor: Rect, tooltipHeight: int, windowHeight: int): int {
    if anchor.bottom + tooltipHeight + VerticalGap > windowHeight then
      anchor.top - tooltipHeight - VerticalGap
    else
      anchor.bottom + VerticalGap
  }

  /**
   * With the anchor's left edge inside the window, the tooltip starts inside
   * the window; the measured box keeps 10px clear of the right edge, unless
   * the tooltip becomes a banner, which keeps 10px clear of both edges.
   */
  lemma HorizontalStaysInWindow(anchorLeft: int, tooltipWidth: int, windowWidth: int, currentWidth: int)
    requires 0 <= anchorLeft <= windowWidth && tooltipWidth >= 0
    ensures PlaceHorizontally(anchorLeft, tooltipWidth, windowWidth, currentWidth).0 >= 0
    ensures ChooseSide(anchorLeft, tooltipWidth, windowWidth) != Banner ==>
              PlaceHorizontally(anchorLeft, tooltipWidth, windowWidth, currentWidth).0 + tooltipWidth
                <= windowWidth - SideGap
    ensures ChooseSide(anchorLeft, tooltipWidth, windowWidth) == Banner ==>
              var (left, width) := PlaceHorizontally(anchorLeft, tooltipWidth, windowWidth, currentWidth);
              left == SideGap && left + width == windowWidth - SideGap
  {
  }

  /** A tooltip flipped to the left ends 10px before the anchor, so it never covers the cell. */
  lemma FlippedLeftClearsAnchor(anchorLeft: int, tooltipWidth: int, windowWidth: int, currentWidth: int)
    requires ChooseSide(anchorLeft, tooltipWidth, windowWidth) == FlippedLeft
    ensures var (left, width) := PlaceHorizontally(anchorLeft, tooltipWidth, windowWidth, currentWidth);
            left > 0 && left + tooltipWidth + SideGap == anchorLeft && width == currentWidth
  {
  }

  /**
   * A window narrower than the measured tooltip plus one gap leaves no room on
   * either side of an anchor inside it: the full-width banner is chosen.
   */
  lemma NarrowWindowForcesBanner(anchorLeft: int, tooltipWidth: int, windowWidth: int)
    requires 0 <= anchorLeft <= windowWidth && windowWidth < tooltipWidth + SideGap
    ensures ChooseSide(anchorLeft, tooltipWidth, windowWidth) == Banner
  {
  }

  /**
   * Placed below, the tooltip ends inside the window; placed above, it ends
   * 5px above the anchor's top edge.
   */
  lemma VerticalPlacement(anchor: Rect, tooltipHeight: int, windowHeight: int)
    ensures var top := PlaceVertically(anchor, tooltipHeight, windowHeight);
            (top == anchor.bottom + VerticalGap && top + tooltipHeight <= windowHeight)
            || (top + tooltipHeight + VerticalGap == anchor.top
                && anchor.bottom + tooltipHeight + VerticalGap > windowHeight)
  {
  }

  /** There is no third vertical fallback: a tall tooltip over a cell near the top leaves the window. */
  lemma AbovePlacementCanLeaveWindow()
    ensures PlaceVertically(Rect(0, 10, 30), 100, 100) < 0
  {
  }

  /** The shared tooltip element. */
  class Tooltip {
    var content: string        // innerHTML
    var left: Option<int>      // style.left in px
    var top: Option<int>       // style.top in px
    var width: int             // the width in px, from the stylesheet until style.width is set
    var visibility: Visibility // style.visibility
    var shown: bool            // classList contains 'visible'

    /** The element as the content script creates it. */
    constructor ()
      ensures content == "" && left == None && top == None && width == DefaultWidth
      ensures visibility == Unset && !shown
    {
      content := "";
      left := None;
      top := None;
      width := DefaultWidth;
      visibility := Unset;
      shown := false;
    }

    /**
     * `showTooltip(element, content)`: `measuredWidth` and `measuredHeight`
     * are what the browser reports for the tooltip once it holds the new
     * content, with the class added and the visibility hidden.
     */
    method Show(anchor: Rect, html: string, windowWidth: int, windowHeight: int,
                measuredWidth: int, measuredHeight: int)
      modifies this
      ensures content == html && shown && visibility == Visible
      ensures var (l, w) := PlaceHorizontally(anchor.left, measuredWidth, windowWidth, old(width));
              left == Some(l) && width == w
      ensures top == Some(PlaceVertically(anchor, measuredHeight, windowHeight))
    {
      content := html;
      visibility := Hidden;
      shown := true;
      if anchor.left + measuredWidth + SideGap > windowWidth {
        if anchor.left - measuredWidth - SideGap > 0 {
          left := Some(anchor.left - measuredWidth - SideGap);
        } else {
          left := Some(SideGap);
          width := windowWidth - 2 * SideGap;
        }
      } else {
        left := Some(anchor.left);
        width := DefaultWidth;
      }
      if anchor.bottom + measuredHeight + VerticalGap > windowHeight {
        top := Some(anchor.top - measuredHeight - VerticalGap);
      } else {
        top := Some(anchor.bottom + VerticalGap);
      }
      visibility := Visible;
    }

    /** `hideTooltip()`: drops the class; content, position, width and style.visibility stay. */
    method Hide()
      modifies this
      ensures !shown
      ensures content == old(content) && left == old(left) && top == old(top)
      ensures width == old(width) && visibility == old(visibility)
    {
      shown := false;
    }
  }

  /** Hovering a cell and leaving it: the tooltip keeps what it showed, only hidden. */
  method HoverAndLeave(tip: Tooltip, anchor: Rect, html: string, windowWidth: int, windowHeight: int,
                       measuredWidth: int, measuredHeight: int)
    modifies tip
    ensures !tip.shown && tip.content == html && tip.visibility == Visible
    ensures var (l, w) := PlaceHorizontally(anchor.left, measuredWidth, windowWidth, old(tip.width));
            tip.left == Some(l) && tip.width == w
    ensures tip.top == Some(PlaceVertically(anchor, measuredHeight, windowHeight))
  {
    tip.Show(anchor, html, windowWidth, windowHeight, measuredWidth, measuredHeight);
    tip.Hide();
  }
}
