/** Line ranges as resource references carry them. */
module Ranges {
  datatype LineRange = LineRange(start: int, end: int)

  predicate RangesIntersect(a: LineRange, b: LineRange) {
    a.start <= b.end && b.start <= a.end
  }
}
