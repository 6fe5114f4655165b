/** The annotation manager component: the state its handlers update in
    place and the handlers themselves. Each handler is specified by the
    matching transition of module Transitions, and also states its new
    state field by field. The bounding box of the video and whether the
    video element is mounted are passed in by the caller. */
module Manager {
  import opened Types
  import T = Transitions
  import L = Listing

  class AnnotationManager {
    var drawing: bool
    var rect: Option<Rect>
    var currentTag: string
    var currentTime: Option<nat>
    /** The page's annotation list; a commit replaces it with a longer one. */
    var annotations: seq<Annotation>

    /** The component state as a value. */
    function Snapshot(): T.State
      reads this
    {
      T.State(drawing, rect, currentTag, currentTime, annotations)
    }

    predicate Valid()
      reads this
    {
      T.Valid(Snapshot())
    }

    /** Mounting: no tag, not drawing, no rectangle, no time seen yet. */
    constructor (annotations: seq<Annotation>)
      ensures Valid()
      ensures Snapshot() == T.Initial(annotations)
      ensures !drawing && rect.None? && currentTag == "" && currentTime.None?
      ensures this.annotations == annotations
    {
      drawing := false;
      rect := None;
      currentTag := "";
      currentTime := None;
      this.annotations := annotations;
    }

    /** The tag selector's change handler. */
    method SetTag(tag: string)
      requires Valid() && IsSelectableTag(tag)
      modifies this
      ensures Valid()
      ensures Snapshot() == T.SetTag(old(Snapshot()), tag)
      ensures currentTag == tag
      ensures drawing == old(drawing) && rect == old(rect)
      ensures currentTime == old(currentTime) && annotations == old(annotations)
    {
      currentTag := tag;
    }

    /** Pointer-down on the drawing area. */
    method MouseDown(clientX: int, clientY: int, left: int, top: int, videoPresent: bool)
      requires Valid()
      modifies this
      ensures Valid()
      ensures Snapshot() == T.MouseDown(old(Snapshot()), T.Pointer(clientX, clientY, left, top), videoPresent)
      ensures !videoPresent ==> unchanged(this)
      ensures videoPresent ==>
                && drawing
                && rect == Some(Rect(clientX - left, clientY - top, clientX - left, clientY - top, None, None))
      ensures currentTag == old(currentTag) && currentTime == old(currentTime)
      ensures annotations == old(annotations)
    {
      if !videoPresent {
        return;
      }
      var startX := clientX - left;
      var startY := clientY - top;
      drawing := true;
      rect := Some(Rect(startX, startY, startX, startY, None, None));
    }

    /** Pointer-move on the drawing area. */
    method MouseMove(clientX: int, clientY: int, left: int, top: int, videoPresent: bool)
      requires Valid()
      modifies this
      ensures Valid()
      ensures Snapshot() == T.MouseMove(old(Snapshot()), T.Pointer(clientX, clientY, left, top), videoPresent)
      ensures !old(drawing) || !videoPresent ==> unchanged(this)
      ensures old(drawing) && videoPresent ==>
                && rect.Some?
                && rect.value.startX == old(rect).value.startX
                && rect.value.startY == old(rect).value.startY
                && rect.value.x == old(rect).value.x && rect.value.y == old(rect).value.y
                && rect.value.width == Some(clientX - left - old(rect).value.startX)
                && rect.value.height == Some(clientY - top - old(rect).value.startY)
      ensures drawing == old(drawing) && currentTag == old(currentTag)
      ensures currentTime == old(currentTime) && annotations == old(annotations)
    {
      if !drawing || !videoPresent {
        return;
      }
      var x := clientX - left;
      var y := clientY - top;
      var prev := rect.value;
      rect := Some(prev.(width := Some(x - prev.startX), height := Some(y - prev.startY)));
    }

    /** Pointer-up on the drawing area and the "Save Annotation" button. */
    method MouseUp()
      requires Valid()
      modifies this
      ensures Valid()
      ensures Snapshot() == T.MouseUp(old(Snapshot()))
      ensures old(rect).None? || old(currentTag) == "" ==> unchanged(this)
      ensures old(rect).Some? && old(currentTag) != "" ==>
                && annotations == old(annotations) + [Annotation(old(currentTag), old(currentTime),
                     old(rect).value.startX, old(rect).value.startY, old(rect).value.width, old(rect).value.height)]
                && rect.None? && !drawing
                && L.Project(annotations)
                   == L.Project(old(annotations)) + [L.ListItem(|old(annotations)|, L.ItemText(annotations[|annotations| - 1]))]
      ensures currentTag == old(currentTag) && currentTime == old(currentTime)
    {
      if rect.None? || currentTag == "" {
        return;
      }
      var r := rect.value;
      var entry := Annotation(currentTag, currentTime, r.startX, r.startY, r.width, r.height);
      L.ProjectAppend(annotations, entry);
      annotations := annotations + [entry];
      rect := None;
      drawing := false;
    }

    /** The video's time-update handler. */
    method TimeUpdate(videoPresent: bool, position: nat)
      requires Valid()
      modifies this
      ensures Valid()
      ensures Snapshot() == T.TimeUpdate(old(Snapshot()), videoPresent, position)
      ensures currentTime == if videoPresent then Some(position) else old(currentTime)
      ensures drawing == old(drawing) && rect == old(rect) && currentTag == old(currentTag)
      ensures annotations == old(annotations)
    {
      if videoPresent {
        currentTime := Some(position);
      }
    }
  }

  /** A client: a drag from (`x0`, `y0`) to (`x1`, `y1`) over a video at
      (`left`, `top`), then the mouse-up and the save button both firing,
      appends one annotation, not two. */
  method ReleaseThenSave(m: AnnotationManager, tag: string, x0: int, y0: int, x1: int, y1: int, left: int, top: int)
    requires m.Valid() && tag in PredefinedTags
    modifies m
    ensures m.Valid()
    ensures m.annotations
            == old(m.annotations) + [Annotation(tag, old(m.currentTime), x0 - left, y0 - top, Some(x1 - x0), Some(y1 - y0))]
  {
    m.SetTag(tag);
    m.MouseDown(x0, y0, left, top, true);
    m.MouseMove(x1, y1, left, top, true);
    m.MouseUp();
    m.MouseUp();
  }
}
