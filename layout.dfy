/** The spacer table behind `View.push(_ layout:)`: for each `Layout`, which
    of the four spacers around the view are shown. A spacer pushes the view
    away from its side, so a view anchored to the top has a spacer below it. */
module Layouts {

  datatype Layout =
    | Center | Top | Bottom | Leading | Trailing
    | TopLeading | TopTrailing | BottomLeading | BottomTrailing
    | HorizontalCenter | VerticalCenter

  /** A spacer above the view: never for a view anchored to the top. */
  predicate TopSpacer(l: Layout)
    ensures l in {Top, TopLeading, TopTrailing} ==> !TopSpacer(l)
    ensures l in {Bottom, BottomLeading, BottomTrailing} ==> TopSpacer(l)
  {
    l in {Center, VerticalCenter, Bottom, BottomLeading, BottomTrailing}
  }

  /** A spacer below the view: never for a view anchored to the bottom. */
  predicate BottomSpacer(l: Layout)
    ensures l in {Bottom, BottomLeading, BottomTrailing} ==> !BottomSpacer(l)
    ensures l in {Top, TopLeading, TopTrailing} ==> BottomSpacer(l)
  {
    l in {Center, VerticalCenter, Top, TopLeading, TopTrailing}
  }

  /** A spacer before the view: never for a view anchored to the leading
      edge. */
  predicate LeadingSpacer(l: Layout)
    ensures l in {Leading, TopLeading, BottomLeading} ==> !LeadingSpacer(l)
    ensures l in {Trailing, TopTrailing, BottomTrailing} ==> LeadingSpacer(l)
  {
    l in {Center, HorizontalCenter, Trailing, TopTrailing, BottomTrailing}
  }

  /** A spacer after the view: never for a view anchored to the trailing
      edge. */
  predicate TrailingSpacer(l: Layout)
    ensures l in {Trailing, TopTrailing, BottomTrailing} ==> !TrailingSpacer(l)
    ensures l in {Leading, TopLeading, BottomLeading} ==> TrailingSpacer(l)
  {
    l in {Center, HorizontalCenter, Leading, TopLeading, BottomLeading}
  }

  /** The layout reflected top to bottom. */
  function FlipVertical(l: Layout): Layout
  {
    match l
    case Top => Bottom
    case Bottom => Top
    case TopLeading => BottomLeading
    case BottomLeading => TopLeading
    case TopTrailing => BottomTrailing
    case BottomTrailing => TopTrailing
    case _ => l
  }

  /** The layout reflected leading to trailing. */
  function FlipHorizontal(l: Layout): Layout
  {
    match l
    case Leading => Trailing
    case Trailing => Leading
    case TopLeading => TopTrailing
    case TopTrailing => TopLeading
    case BottomLeading => BottomTrailing
    case BottomTrailing => BottomLeading
    case _ => l
  }

  lemma CenterHasAllSpacers()
    ensures TopSpacer(Center) && BottomSpacer(Center) && LeadingSpacer(Center) && TrailingSpacer(Center)
  {
  }

  /** Both vertical spacers: exactly the vertically centred layouts. */
  lemma VerticallyCentred(l: Layout)
    ensures TopSpacer(l) && BottomSpacer(l) <==> l == Center || l == VerticalCenter
  {
  }

  /** Both horizontal spacers: exactly the horizontally centred layouts. */
  lemma HorizontallyCentred(l: Layout)
    ensures LeadingSpacer(l) && TrailingSpacer(l) <==> l == Center || l == HorizontalCenter
  {
  }

  /** With no spacer on an axis the stack centres the view on that axis:
      the edge-only layouts and the single-axis centres. */
  lemma NoSpacerOnAxis(l: Layout)
    ensures !TopSpacer(l) && !BottomSpacer(l) <==> l in {Leading, Trailing, HorizontalCenter}
    ensures !LeadingSpacer(l) && !TrailingSpacer(l) <==> l in {Top, Bottom, VerticalCenter}
  {
  }

  /** A view anchored to an edge has the spacer on the opposite side only. */
  lemma AnchoredLayouts(l: Layout)
    ensures l in {Top, TopLeading, TopTrailing} ==> BottomSpacer(l) && !TopSpacer(l)
    ensures l in {Bottom, BottomLeading, BottomTrailing} ==> TopSpacer(l) && !BottomSpacer(l)
    ensures l in {Leading, TopLeading, BottomLeading} ==> TrailingSpacer(l) && !LeadingSpacer(l)
    ensures l in {Trailing, TopTrailing, BottomTrailing} ==> LeadingSpacer(l) && !TrailingSpacer(l)
  {
  }

  lemma FlipsAreInvolutions(l: Layout)
    ensures FlipVertical(FlipVertical(l)) == l
    ensures FlipHorizontal(FlipHorizontal(l)) == l
    ensures FlipVertical(FlipHorizontal(l)) == FlipHorizontal(FlipVertical(l))
  {
  }

  /** Reflecting top to bottom swaps the vertical spacers and keeps the
      horizontal ones; reflecting leading to trailing does the converse. */
  lemma MirrorSymmetry(l: Layout)
    ensures TopSpacer(FlipVertical(l)) == BottomSpacer(l)
    ensures BottomSpacer(FlipVertical(l)) == TopSpacer(l)
    ensures LeadingSpacer(FlipVertical(l)) == LeadingSpacer(l)
    ensures TrailingSpacer(FlipVertical(l)) == TrailingSpacer(l)
    ensures LeadingSpacer(FlipHorizontal(l)) == TrailingSpacer(l)
    ensures TrailingSpacer(FlipHorizontal(l)) == LeadingSpacer(l)
    ensures TopSpacer(FlipHorizontal(l)) == TopSpacer(l)
    ensures BottomSpacer(FlipHorizontal(l)) == BottomSpacer(l)
  {
  }
}
