/**
 * Bounding rectangles of the play area and of the catcher, in pixels, as the
 * page reports them. The page is not modelled: every operation that needs a
 * rectangle takes it as a parameter, and `None` stands for an element that is
 * not there to be measured.
 */
module Geometry {
  datatype Rect = Rect(left: real, top: real, width: real, height: real) {
    function Right(): real { left + width }
    function Bottom(): real { top + height }
  }
}
