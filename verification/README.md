# UIImageViewAligned placement geometry, in Dafny

This project models `UIImageViewAligned`, an image view that can pin its image to any combination of its edges. It has an inner image view, and all of its logic is deciding where that inner view goes.

The model has four parts:

- **Alignment mask** (`AlignmentMask`, in `mask.dfy`). This is the `UIImageViewAlignmentMask` option set.
  - A raw value is modelled as the set of its one-bit positions, so bit 0 is the raw value 1 and bit 3 is the raw value 8.
  - The option-set operations `insert`, `remove` and `contains` are union, difference and subset on those bits.
  - The named flags are `Left` = 1, `Right` = 2, `Top` = 4 and `Bottom` = 8. `Center` is 0, and the four corner constants are unions of two flags.
  - `Edges` views a mask as a set of edges. This is the abstraction the lemmas relate the bit operations to.
- **Content-size resolver** (`ContentSize`, in `content_size.dfy`). This is `realContentSize`.
  - Its inputs are the bounds size, the optional image size, the content mode and the `UIImageViewScaling` option.
  - Its output is the size of the inner view.
  - `CGFloat` is idealised as `real`.
- **Frame computation** (`Layout`, in `layout.dfy`). This is the part of `updateLayout` that comes before `.integral`.
  - The frame starts centred in the bounds size.
  - Left overrides the horizontal origin; otherwise Right does. Top overrides the vertical origin; otherwise Bottom does.
  - The bounds origin is carried, because the Right and Bottom rules use `bounds.maxX` and `bounds.maxY`. `MaxX` and `MaxY` (in `geometry.dfy`) standardise the rectangle the way the host graphics library does.
- **View value** (`AlignedView`, in `aligned_view.dfy`). This is a small state record. It holds the layout inputs, the last inner frame and a count of layout updates. It models:
  - the `alignment` setter, which relays out only when the value changes;
  - the four per-edge inspectable properties (`alignTop`, `alignLeft`, `alignRight`, `alignBottom`). `Align(v, e)` and `SetAlign(v, e, b)` model all four, one `Edge` per property.

## Behaviour of the code as written

The model follows the code in every case below.

- **Scaling option.** `.up` is documented as "enable upscaling", and `.none` as "disable scaling". The code resets the scale to 1 when the scale is above 1 and the option is `.up`, or when it is below 1 and the option is `.down`. So `Up` forbids upscaling, `Down` forbids downscaling, and `None` restricts nothing. `ClampScale` and `AspectRespectsScalingDirection` state this.
- **Stretch mode (`scaleToFill`).** The code decides on the horizontal scale alone, then resets both axes to 1. `StretchDecidesOnWidthOnly` states this for all inputs, and `StretchUpExample` shows a vertical upscale under `Up`, and an image kept at its own size although only its height would have shrunk.
- **Ties.** Left wins over Right, and Top wins over Bottom, because those are checked first.
- **Bounds origin.** The centred origin and the Left/Top origins ignore the bounds origin, but the Right/Bottom origins include it through `maxX`/`maxY`. `PinnedOriginsAgreeOnlyAtZeroOrigin` states the consequence.
- **Division by zero.** The code divides by the image's width and height without a guard, so in the three scaling content modes positive image dimensions are a precondition (`ValidImage`).

## Model

| member | source | states |
|---|---|---|
| AlignmentMask.Flag | UIImageViewAligned.swift:17-24 | each edge's flag is a single bit among the low four |
| AlignmentMask.FlagsAreDisjoint | UIImageViewAligned.swift:17-24 | two edges' flags share no bit exactly when the edges differ |
| AlignmentMask.LowRawValue | UIImageViewAligned.swift:16-24 | the integer value of the four meaningful bits lies in 0..15 |
| AlignmentMask.ConstantsAreUnions | UIImageViewAligned.swift:15-32 | Center names no edge and has raw value 0; the flags have raw values 1, 2, 4 and 8; each corner names exactly its two edges (raw values 5, 6, 9, 10) |
| AlignmentMask.EveryMaskContainsCenter | UIImageViewAligned.swift:16 | `contains(.Center)` holds for every mask, because Center is the empty mask |
| AlignmentMask.Union | UIImageViewAligned.swift:26-32 | the union contains both operands and has no bit that neither operand has |
| AlignmentMask.Insert | UIImageViewAligned.swift:265 | after `insert` the mask contains the member, and every bit outside the member is unchanged |
| AlignmentMask.Remove | UIImageViewAligned.swift:267 | after `remove` no bit of the member is set, and every bit outside the member is unchanged |
| AlignmentMask.ContainsFlagIsMembership | UIImageViewAligned.swift:271-273 | a mask contains an edge's flag exactly when the edge is in the mask's edge set |
| AlignmentMask.ContainsIsSubset | UIImageViewAligned.swift:11-13 | on masks made of the four flags, `contains` is the subset relation on edge sets, and mask equality is equality of edge sets |
| AlignmentMask.RawValueDeterminesMask | UIImageViewAligned.swift:66 | on masks made of the four flags, two masks are equal exactly when their raw values are equal, which is the comparison the setter makes |
| AlignmentMask.InsertAddsEdge | UIImageViewAligned.swift:265 | inserting an edge's flag adds exactly that edge to the edge set |
| AlignmentMask.RemoveDropsEdge | UIImageViewAligned.swift:267 | removing an edge's flag takes exactly that edge out of the edge set |
| ContentSize.ClampScale | UIImageViewAligned.swift:233-235 | with `.up` the scale is capped at 1; with `.down` it is raised to at least 1; with `.none` it is unchanged |
| ContentSize.RealContentSize | UIImageViewAligned.swift:219-261 | no image gives the bounds size; aspect modes keep the image's aspect ratio; stretch gives the image size if the horizontal scale is forbidden and the bounds size otherwise; every other mode gives the image size whatever the scaling, with no requirement on the image |
| ContentSize.FitScaleIsLargestFitting | UIImageViewAligned.swift:240 | a uniformly scaled image fits in the bounds exactly when its scale is at most the aspect-fit scale |
| ContentSize.FillScaleIsSmallestCovering | UIImageViewAligned.swift:231 | a uniformly scaled image covers the bounds exactly when its scale is at least the aspect-fill scale |
| ContentSize.AspectFitFits | UIImageViewAligned.swift:239-246 | with `.none`, aspect fit fits inside the bounds, touches them on one axis, and is at least as wide as any uniformly scaled image that fits |
| ContentSize.AspectFillCovers | UIImageViewAligned.swift:230-237 | with `.none`, aspect fill covers the bounds, matches them on one axis, and is no wider than any uniformly scaled image that covers them |
| ContentSize.AspectKeepsImageSizeExactly | UIImageViewAligned.swift:230-246 | an aspect mode shows the image at its own size exactly when the natural scale is 1 or the scaling option forbids that scale |
| ContentSize.AspectRespectsScalingDirection | UIImageViewAligned.swift:231-246 | in an aspect mode, `.up` never makes the image larger than its own size and `.down` never makes it smaller |
| ContentSize.AspectFitUpFitsBoundsAndImage | UIImageViewAligned.swift:239-246 | with `.up`, aspect fit fits in the bounds and within the image's own size, and is at least as wide as any uniformly scaled image fitting both |
| ContentSize.AspectFillDownCoversBoundsAndImage | UIImageViewAligned.swift:230-237 | with `.down`, aspect fill covers the bounds and the image's own size, and is no wider than any uniformly scaled image covering both |
| ContentSize.AspectClampAgainstUnrestricted | UIImageViewAligned.swift:230-246 | in an aspect mode, `.up` gives the `.none` result when it is no larger than the image and the image size otherwise; `.down` gives the `.none` result when it is no smaller than the image and the image size otherwise |
| ContentSize.StretchUnrestrictedGivesBounds | UIImageViewAligned.swift:248-254 | with `.none`, stretching gives exactly the bounds size for every image, each axis scaled on its own |
| ContentSize.StretchDecidesOnWidthOnly | UIImageViewAligned.swift:248-254 | stretching keeps the image size exactly when the horizontal scale is forbidden or the bounds already equal the image size, so bounds of equal width are treated alike whatever their heights |
| ContentSize.StretchUpExample | UIImageViewAligned.swift:249-252 | with `.up`, stretching a 100×100 image gives 50×200 in 50×200 bounds (vertical upscale allowed), and gives 100×100 in 200×50 bounds |
| Geometry.MaxX | UIImageViewAligned.swift:197 | `maxX` is the larger of the rectangle's two horizontal edges |
| Geometry.MaxY | UIImageViewAligned.swift:203 | `maxY` is the larger of the rectangle's two vertical edges |
| Layout.CenteredFrame | UIImageViewAligned.swift:189-192 | the starting frame has the content size and equal margins on both sides of each axis, measured from 0 to the bounds size |
| Layout.LayoutFrame | UIImageViewAligned.swift:186-204 | frame size is the content size; Left gives x = 0, else Right puts the right edge at `bounds.maxX`, else the frame is centred horizontally; Top, Bottom and `maxY` do the same vertically |
| Layout.AxesAreIndependent | UIImageViewAligned.swift:194-204 | masks that agree on Left and Right give the same x, and masks that agree on Top and Bottom give the same y, whatever their other bits |
| Layout.CornersPinBothAxes | UIImageViewAligned.swift:194-204 | TopLeft puts the origin at (0, 0); BottomRight puts the frame's far corner at (`maxX`, `maxY`); Center leaves the centred frame |
| Layout.PinnedOriginsAgreeOnlyAtZeroOrigin | UIImageViewAligned.swift:189-197 | for content exactly as wide as the bounds, Left and centred give the same x, and Right agrees with them exactly when the bounds origin x is 0 |
| AlignedView.UpdateLayout | UIImageViewAligned.swift:186-206 | the inner frame becomes the frame computed from the current inputs, its size is the resolved content size, one layout update is counted, and nothing else changes |
| AlignedView.UpdateLayoutIsIdempotent | UIImageViewAligned.swift:186-206 | two layout updates in a row with unchanged inputs give the same frame |
| AlignedView.SetAlignment | UIImageViewAligned.swift:64-70 | the new mask is stored; an equal mask leaves the view unchanged, with no relayout; a different mask causes exactly one relayout, computed with the new mask |
| AlignedView.SetAlignmentTwiceIsOnce | UIImageViewAligned.swift:64-70 | assigning the same mask a second time changes nothing |
| AlignedView.Align | UIImageViewAligned.swift:271-273 | an edge property reads true exactly when the edge is in the alignment's edge set |
| AlignedView.SetAlign | UIImageViewAligned.swift:263-269 | after setting an edge property its getter returns the value set and every other bit of the mask is unchanged; if the flag did not flip the view is unchanged, otherwise exactly one relayout computes the frame with the new mask; bounds, image, content mode and scaling are never changed |
| AlignedView.ChangedExactlyWhenFlipped | UIImageViewAligned.swift:263-269 | inserting or removing an edge's flag changes the mask exactly when the flag's membership differs from the value set |
| AlignedView.SetAlignToCurrentIsNoOp | UIImageViewAligned.swift:263-269 | setting an edge property to its current value leaves the view unchanged |
| AlignedView.FlipTwiceRestoresAlignment | UIImageViewAligned.swift:263-269 | flipping an edge property and then flipping it back restores the alignment, with two relayouts |

## Left out

- `CGRect.integral` (UIImageViewAligned.swift:206): the host library rounds the frame to whole points with a rule this repository does not show. The model stops at the rectangle before rounding, and that rectangle is what the view record stores as its frame.
- `layer.contents = nil` (UIImageViewAligned.swift:209, 280, 289, 294): this clears a cached layer snapshot, a side effect of the host framework with nothing to state about the geometry.
- The initialisers, `commonInit` and the swap of `image` with `super.image` (UIImageViewAligned.swift:155-184): these build the view hierarchy.
- `layoutSubviews` (UIImageViewAligned.swift:212-215): it calls the host framework's `super.layoutSubviews()` and then `updateLayout`. Only the second call is modelled, by `UpdateLayout`; the framework's own layout pass and when it happens are not.
- The `image` forwarding and its `setNeedsLayout` (UIImageViewAligned.swift:72-80): these delegate to the inner view and request a deferred layout pass.
- The `isHighlighted` forwarding (UIImageViewAligned.swift:277-285), and `didMoveToSuperview` and `didMoveToWindow`: these are framework plumbing.
- Floating-point behaviour of `CGFloat`: NaN, infinity, rounding and overflow are not modelled. A zero image dimension would divide by zero, giving infinity or NaN in the source, so `ValidImage` (positive image width and height whenever the content mode is one of the three scaling modes) is a precondition of `RealContentSize`. In the other modes the source computes the quotients but never uses them, so the model does not compute them.
- The `(inserted:memberAfterInsert:)` result of `insert` and the optional result of `remove`: the source discards them (UIImageViewAligned.swift:265, 267), so only the new mask is modelled.
- Raw values beyond bit 3: any 64-bit raw value is representable as a bit set, but `LowRawValue` converts only the four meaningful bits to an integer.
- The content mode is the host's enumeration, listed in full. Only its three scaling cases are distinguished; every other case behaves alike.
- Package.swift: it is the build manifest and contains no logic.
