/**
 The frame computation of the aligned image view: where the inner image
 view goes, given the container's bounds, the resolved content size and the
 alignment mask. The frame starts centred; Left (else Right) overrides the
 horizontal origin and Top (else Bottom) the vertical one. The frame is the
 one before the host library's rounding to whole points.
 */
module Layout {
  import opened Geometry
  import opened AlignmentMask

  /** The content centred in the bounds size. The bounds origin is not
      taken into account. */
  function CenteredFrame(bounds: Rect, content: Size): (r: Rect)
    ensures r.size == content
    ensures r.origin.x == bounds.size.width - (r.origin.x + content.width)
    ensures r.origin.y == bounds.size.height - (r.origin.y + content.height)
  {
    Rect(Point((bounds.size.width - content.width) / 2.0,
               (bounds.size.height - content.height) / 2.0),
         content)
  }

  /** The frame of the inner image view before rounding. */
  function LayoutFrame(bounds: Rect, content: Size, alignment: Mask): (r: Rect)
    ensures r.size == content
    ensures Contains(alignment, LeftFlag) ==> r.origin.x == 0.0
    ensures !Contains(alignment, LeftFlag) && Contains(alignment, RightFlag) ==>
              r.origin.x + r.size.width == MaxX(bounds)
    ensures !Contains(alignment, LeftFlag) && !Contains(alignment, RightFlag) ==>
              r.origin.x == bounds.size.width - (r.origin.x + r.size.width)
    ensures Contains(alignment, TopFlag) ==> r.origin.y == 0.0
    ensures !Contains(alignment, TopFlag) && Contains(alignment, BottomFlag) ==>
              r.origin.y + r.size.height == MaxY(bounds)
    ensures !Contains(alignment, TopFlag) && !Contains(alignment, BottomFlag) ==>
              r.origin.y == bounds.size.height - (r.origin.y + r.size.height)
  {
    var centered := CenteredFrame(bounds, content);
    var x :=
      if Contains(alignment, LeftFlag) then 0.0
      else if Contains(alignment, RightFlag) then MaxX(bounds) - content.width
      else centered.origin.x;
    var y :=
      if Contains(alignment, TopFlag) then 0.0
      else if Contains(alignment, BottomFlag) then MaxY(bounds) - content.height
      else centered.origin.y;
    Rect(Point(x, y), content)
  }

  /** Each axis depends only on its own two flags: masks that agree on Left
      and Right give the same horizontal origin, and masks that agree on Top
      and Bottom give the same vertical origin, whatever their other bits. */
  lemma AxesAreIndependent(bounds: Rect, content: Size, a: Mask, b: Mask)
    ensures (Left in Edges(a) <==> Left in Edges(b)) && (Right in Edges(a) <==> Right in Edges(b)) ==>
              LayoutFrame(bounds, content, a).origin.x == LayoutFrame(bounds, content, b).origin.x
    ensures (Top in Edges(a) <==> Top in Edges(b)) && (Bottom in Edges(a) <==> Bottom in Edges(b)) ==>
              LayoutFrame(bounds, content, a).origin.y == LayoutFrame(bounds, content, b).origin.y
  {
  }

  /** The corner constants pin both axes, and Center pins neither. */
  lemma CornersPinBothAxes(bounds: Rect, content: Size)
    ensures LayoutFrame(bounds, content, TopLeft).origin == Point(0.0, 0.0)
    ensures LayoutFrame(bounds, content, BottomRight).origin ==
              Point(MaxX(bounds) - content.width, MaxY(bounds) - content.height)
    ensures LayoutFrame(bounds, content, Center) == CenteredFrame(bounds, content)
  {
  }

  /** Content exactly as wide as the bounds lands at the same horizontal
      origin whether the mask says Left, Right or neither only when the
      bounds origin is 0: the Right rule measures from the bounds' right edge,
      the other two from 0. */
  lemma PinnedOriginsAgreeOnlyAtZeroOrigin(bounds: Rect, content: Size)
    requires bounds.size.width >= 0.0 && content.width == bounds.size.width
    ensures var left := LayoutFrame(bounds, content, LeftFlag).origin.x;
            var right := LayoutFrame(bounds, content, RightFlag).origin.x;
            var center := LayoutFrame(bounds, content, Center).origin.x;
            left == center && (left == right <==> bounds.origin.x == 0.0)
  {
  }
}
