/**
 * The viewport scroller of src/ui.rs (`adjust_offset`): given the selected
 * row, the current scroll offset, the viewport height, the scroll margin and
 * the list length, it returns the offset of the first visible row.
 * The arguments are `usize`, and the source's saturating operations are
 * written out against that width.
 */
module Viewport {

  const USIZE_MODULUS: int := 0x1_0000_0000_0000_0000
  type Usize = x: int | 0 <= x < USIZE_MODULUS

  /** `usize::saturating_sub`. */
  function SatSub(a: Usize, b: Usize): Usize {
    if a >= b then a - b else 0
  }

  /** `usize::saturating_add`. */
  function SatAdd(a: Usize, b: Usize): Usize {
    if a + b < USIZE_MODULUS then a + b else USIZE_MODULUS - 1
  }

  function Min(a: Usize, b: Usize): Usize {
    if a <= b then a else b
  }

  /**
   * `adjust_offset`. An empty viewport or list scrolls to the top; otherwise
   * the result never scrolls past the last full page and, when the selected
   * row exists, keeps it visible.
   */
  function AdjustOffset(selected: Usize, currentOffset: Usize, viewport: Usize, scrolloff: Usize, len: Usize): (r: Usize)
    ensures viewport == 0 || len == 0 ==> r == 0
    ensures r <= SatSub(len, viewport)
    ensures viewport > 0 && selected < len ==> r <= selected < r + viewport
  {
    if viewport == 0 || len == 0 then 0
    else
      var maxOffset := SatSub(len, viewport);
      var margin := Min(scrolloff, SatSub(viewport, 1));
      var offset := Min(currentOffset, maxOffset);
      var offset' :=
        if selected < SatAdd(offset, margin) then SatSub(selected, margin)
        else
          var upper := SatSub(SatAdd(offset, SatSub(viewport, 1)), margin);
          if selected > upper then SatSub(SatAdd(selected, margin + 1), viewport) else offset;
      Min(offset', maxOffset)
  }

  /**
   * The margin is honoured where the list allows it: when the viewport is
   * taller than twice the margin, then unless the window is pinned to the
   * top or the bottom of the list, at least `scrolloff` rows stay visible
   * above and below the selection.
   */
  lemma AdjustOffsetKeepsMargin(selected: Usize, currentOffset: Usize, viewport: Usize, scrolloff: Usize, len: Usize)
    requires 2 * scrolloff < viewport && selected < len
    ensures var r := AdjustOffset(selected, currentOffset, viewport, scrolloff, len);
      && (r == 0 || r + scrolloff <= selected)
      && (r == SatSub(len, viewport) || selected + scrolloff < r + viewport)
  {
  }

  /**
   * Scrolling is stable when the viewport is taller than twice the margin:
   * adjusting an offset that was just adjusted changes nothing.
   */
  lemma AdjustOffsetIdempotent(selected: Usize, currentOffset: Usize, viewport: Usize, scrolloff: Usize, len: Usize)
    requires 2 * scrolloff < viewport && selected < len
    ensures var r := AdjustOffset(selected, currentOffset, viewport, scrolloff, len);
      AdjustOffset(selected, r, viewport, scrolloff, len) == r
  {
  }
}
