/** Values shared by the annotation state machine and the list projection:
    the in-progress rectangle, a committed annotation and the tag domain
    offered by the tag selector. Pixel coordinates are integers and playback
    times are whole milliseconds. */
module Types {

  /** A value that may be missing: JavaScript's `null` (the playback time
      before the first time update, the rectangle between drags) and
      `undefined` (the extents of a rectangle that was never dragged). */
  datatype Option<T> = None | Some(value: T)

  /** The in-progress rectangle. A pointer-down creates it with the anchor
      in both `startX`/`startY` and `x`/`y` and without extents; a drag adds
      signed extents measured from the anchor. */
  datatype Rect = Rect(
    startX: int,
    startY: int,
    x: int,
    y: int,
    width: Option<int>,
    height: Option<int>)

  /** A committed annotation as it is appended to the list. `time` is the
      playback position in milliseconds, or None when no time update was
      seen before the commit. */
  datatype Annotation = Annotation(
    tag: string,
    time: Option<nat>,
    x: int,
    y: int,
    width: Option<int>,
    height: Option<int>)

  /** The labels the tag selector offers, in display order. */
  const PredefinedTags: seq<string> := ["Car", "Tree", "Building"]

  /** A value the tag selector can produce: its empty placeholder option or
      one of the predefined labels. */
  predicate IsSelectableTag(tag: string)
  {
    tag == "" || tag in PredefinedTags
  }
}
