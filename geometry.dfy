// The geometric collaborators of the recognition core: rectangles, column
// segments and blobs (a rectangle with its bitmap). Only the parts the core
// uses are modelled.

module Geometry {
  import opened Common

  /** An axis-aligned rectangle given by its inclusive bounds. */
  datatype Rect = Rect(left: int, top: int, right: int, bottom: int)
  {
    predicate Valid() { left <= right && top <= bottom }

    function Width(): int { right - left + 1 }

    function Height(): int { bottom - top + 1 }

    function HCenter(): int { Div(left + right, 2) }

    function VCenter(): int { Div(top + bottom, 2) }

    function Size(): int { Width() * Height() }

    /** This rectangle comes first in reading order along a line. */
    predicate HPrecedes(other: Rect) { HCenter() < other.HCenter() }

    /** The column ranges of the two rectangles meet. */
    predicate HOverlaps(other: Rect) { left <= other.right && other.left <= right }

    /** The smallest rectangle holding both (`add_rectangle`). */
    function Union(other: Rect): Rect
    {
      Rect(if left <= other.left then left else other.left,
           if top <= other.top then top else other.top,
           if right >= other.right then right else other.right,
           if bottom >= other.bottom then bottom else other.bottom)
    }
  }

  /** A run of columns (or rows); `left > right` means empty. */
  datatype Csegment = Csegment(left: int, right: int)
  {
    predicate Valid() { left <= right }

    function Size(): nat { if left <= right then right - left + 1 else 0 }

    predicate Includes(x: int) { left <= x <= right }

    /** Both segments are non-empty and share at least one position. */
    predicate Overlaps(other: Csegment)
    {
      Valid() && other.Valid() && right >= other.left && left <= other.right
    }
  }

  /** The segment a default-constructed `Csegment` holds. */
  const EmptySegment: Csegment := Csegment(1, 0)

  /** A blob: its bounding rectangle and one row of bits per pixel row. */
  datatype Blob = Blob(rect: Rect, bits: seq<seq<bool>>)
  {
    predicate WellFormed()
    {
      rect.Valid() && |bits| == rect.Height() &&
      forall r :: 0 <= r < |bits| ==> |bits[r]| == rect.Width()
    }

    function Size(): int { rect.Size() }

    predicate InRows(row: int) { rect.top <= row <= rect.bottom }

    predicate InCols(col: int) { rect.left <= col <= rect.right }

    /** True if the pixel at (row, col) is black. */
    predicate GetBit(row: int, col: int)
      requires WellFormed() && InRows(row) && InCols(col)
    {
      bits[row - rect.top][col - rect.left]
    }

    /** The number of black pixels. */
    function Area(): nat
    {
      CountRows(bits)
    }
  }

  function CountBits(row: seq<bool>): nat
  {
    if row == [] then 0 else (if row[0] then 1 else 0) + CountBits(row[1..])
  }

  function CountRows(rows: seq<seq<bool>>): nat
  {
    if rows == [] then 0 else CountBits(rows[0]) + CountRows(rows[1..])
  }
}
