/**
 The aligned image view as a value: the inputs of the layout (bounds,
 image, content mode, scaling, alignment), the last frame given to the inner
 image view, and a count of layout updates. Setting the alignment updates
 the layout only when the value changes; the four per-edge properties read
 and write one flag of the alignment through that setter.
 */
module AlignedView {
  import opened Geometry
  import opened AlignmentMask
  import opened Layout
  import CS = ContentSize

  datatype View = View(
    bounds: Rect,
    image: CS.Image,
    contentMode: CS.ContentMode,
    scaling: CS.Scaling,
    alignment: Mask,
    frame: Rect,
    layouts: nat)

  /** A view whose image, if its content mode scales it, has positive
      width and height. */
  predicate Valid(v: View)
  {
    CS.ValidImage(v.image, v.contentMode)
  }

  /** The content size the view's current inputs resolve to. */
  function ContentSizeOf(v: View): Size
    requires Valid(v)
  {
    CS.RealContentSize(v.bounds.size, v.image, v.contentMode, v.scaling)
  }

  /** `updateLayout`: the inner frame is recomputed from the current inputs
      and one layout update is counted; nothing else changes. */
  function UpdateLayout(v: View): (r: View)
    requires Valid(v)
    ensures r.layouts == v.layouts + 1
    ensures r.frame.size == ContentSizeOf(v)
    ensures r.frame == LayoutFrame(v.bounds, ContentSizeOf(v), v.alignment)
    ensures r.(frame := v.frame, layouts := v.layouts) == v
  {
    v.(frame := LayoutFrame(v.bounds, ContentSizeOf(v), v.alignment), layouts := v.layouts + 1)
  }

  /** The `alignment` setter: the new mask is stored, and the layout is
      updated exactly once if it differs from the old one and not at all
      otherwise. */
  function SetAlignment(v: View, a: Mask): (r: View)
    requires Valid(v)
    ensures Valid(r) && r.alignment == a
    ensures a == v.alignment ==> r == v
    ensures a != v.alignment ==>
              && r.layouts == v.layouts + 1
              && r.frame == LayoutFrame(v.bounds, ContentSizeOf(v), a)
    ensures r.(alignment := v.alignment, frame := v.frame, layouts := v.layouts) == v
  {
    var stored := v.(alignment := a);
    if a != v.alignment then UpdateLayout(stored) else stored
  }

  /** The getter of the per-edge properties (`alignTop`, `alignLeft`,
      `alignRight`, `alignBottom`): whether the alignment names the edge. */
  function Align(v: View, e: Edge): (b: bool)
    ensures b <==> e in Edges(v.alignment)
  {
    ContainsFlagIsMembership(v.alignment, e);
    Contains(v.alignment, Flag(e))
  }

  /** The setter of the per-edge properties: true inserts the edge's flag,
      false removes it, and the result goes through the `alignment` setter.
      Afterwards the getter returns the value set, every other bit of the
      mask is unchanged, and the layout was updated, with the new mask,
      exactly when the edge's flag flipped; the other inputs are untouched. */
  function SetAlign(v: View, e: Edge, value: bool): (r: View)
    requires Valid(v)
    ensures Valid(r)
    ensures Align(r, e) == value
    ensures forall i :: i !in Flag(e).bits ==> (i in r.alignment.bits <==> i in v.alignment.bits)
    ensures r.layouts == if Align(v, e) == value then v.layouts else v.layouts + 1
    ensures Align(v, e) == value ==> r == v
    ensures Align(v, e) != value ==> r.frame == LayoutFrame(v.bounds, ContentSizeOf(v), r.alignment)
    ensures r.(alignment := v.alignment, frame := v.frame, layouts := v.layouts) == v
  {
    var a := if value then Insert(v.alignment, Flag(e)) else Remove(v.alignment, Flag(e));
    ChangedExactlyWhenFlipped(v.alignment, e, value);
    SetAlignment(v, a)
  }

  lemma ChangedExactlyWhenFlipped(m: Mask, e: Edge, value: bool)
    ensures var a := if value then Insert(m, Flag(e)) else Remove(m, Flag(e));
            a == m <==> Contains(m, Flag(e)) == value
  {
  }

  /** Setting an edge to the value it already has changes nothing at all. */
  lemma SetAlignToCurrentIsNoOp(v: View, e: Edge)
    requires Valid(v)
    ensures SetAlign(v, e, Align(v, e)) == v
  {
  }

  /** Flipping an edge and flipping it back restores the alignment, and
      costs two layout updates. */
  lemma FlipTwiceRestoresAlignment(v: View, e: Edge)
    requires Valid(v)
    ensures var w := SetAlign(SetAlign(v, e, !Align(v, e)), e, Align(v, e));
            w.alignment == v.alignment && w.layouts == v.layouts + 2
  {
  }

  /** Assigning the same alignment twice updates the layout at most once. */
  lemma SetAlignmentTwiceIsOnce(v: View, a: Mask)
    requires Valid(v)
    ensures SetAlignment(SetAlignment(v, a), a) == SetAlignment(v, a)
  {
  }

  /** Two layout updates in a row with unchanged inputs give the same
      frame. */
  lemma UpdateLayoutIsIdempotent(v: View)
    requires Valid(v)
    ensures UpdateLayout(UpdateLayout(v)).frame == UpdateLayout(v).frame
  {
  }
}
