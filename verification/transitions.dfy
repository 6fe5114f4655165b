/** The annotation-drawing state machine as pure transitions over a state
    value: what each event handler of the annotation manager does to the
    component state, the event sequences a user produces, and the
    properties of those sequences (drag geometry, time binding, no double
    commit, the list only grows). The class in module Manager performs the
    same transitions in place and is specified by these functions. */
module Transitions {
  import opened Types

  /** The component state the handlers read and write. `annotations` is the
      list owned by the page and replaced on every commit. */
  datatype State = State(
    drawing: bool,
    rect: Option<Rect>,
    currentTag: string,
    currentTime: Option<nat>,
    annotations: seq<Annotation>)

  /** A pointer position in viewport coordinates together with the top-left
      corner of the video's bounding box at that moment. */
  datatype Pointer = Pointer(clientX: int, clientY: int, left: int, top: int)
  {
    /** The position relative to the video's top-left corner. */
    function OffsetX(): int { clientX - left }
    function OffsetY(): int { clientY - top }
  }

  /** The inputs the component reacts to. `videoPresent` says whether the
      video element is mounted when the handler runs. `PointerUp` stands for
      both the mouse-up on the drawing area and the "Save Annotation" button,
      which run the same handler. */
  datatype Event =
    | TagSelected(tag: string)
    | PointerDown(at: Pointer, videoPresent: bool)
    | PointerMove(at: Pointer, videoPresent: bool)
    | PointerUp
    | TimeUpdated(videoPresent: bool, position: nat)

  /** An event the page can deliver: the tag selector only emits its options. */
  predicate WellFormed(e: Event)
  {
    e.TagSelected? ==> IsSelectableTag(e.tag)
  }

  predicate AllWellFormed(evs: seq<Event>)
  {
    forall i | 0 <= i < |evs| :: WellFormed(evs[i])
  }

  /** The invariant every reachable state keeps: a rectangle exists exactly
      while drawing, its `x`/`y` stay at the anchor, its two extents appear
      together, and the selected tag is one the selector offers. */
  predicate Valid(s: State)
  {
    && (s.drawing <==> s.rect.Some?)
    && (s.rect.Some? ==>
          var r := s.rect.value;
          r.x == r.startX && r.y == r.startY && (r.width.Some? <==> r.height.Some?))
    && IsSelectableTag(s.currentTag)
  }

  /** The state when the component mounts over the page's annotation list. */
  function Initial(annotations: seq<Annotation>): (s: State)
    ensures Valid(s)
    ensures s.annotations == annotations
    ensures !s.drawing && s.currentTag == "" && s.currentTime.None?
  {
    State(false, None, "", None, annotations)
  }

  /** The tag selector's change handler. */
  function SetTag(s: State, tag: string): (t: State)
    requires IsSelectableTag(tag)
    ensures Valid(s) ==> Valid(t)
    ensures t.currentTag == tag
    ensures t.(currentTag := s.currentTag) == s
  {
    s.(currentTag := tag)
  }

  /** Pointer-down: without a video nothing happens; otherwise a new
      rectangle is anchored at the pointer, relative to the video, with no
      extents yet, and drawing starts. Tag, time and list are untouched. */
  function MouseDown(s: State, p: Pointer, videoPresent: bool): (t: State)
    ensures !videoPresent ==> t == s
    ensures videoPresent ==> t.drawing && t.rect.Some?
    ensures videoPresent ==> t.rect.value == Rect(p.OffsetX(), p.OffsetY(), p.OffsetX(), p.OffsetY(), None, None)
    ensures t.currentTag == s.currentTag && t.currentTime == s.currentTime && t.annotations == s.annotations
    ensures Valid(s) ==> Valid(t)
  {
    if !videoPresent then s
    else
      var startX, startY := p.OffsetX(), p.OffsetY();
      s.(drawing := true, rect := Some(Rect(startX, startY, startX, startY, None, None)))
  }

  /** Pointer-move: when not drawing or without a video nothing happens;
      otherwise the extents become the pointer's offset from the anchor,
      signed and unclamped, replacing any earlier extents. */
  function MouseMove(s: State, p: Pointer, videoPresent: bool): (t: State)
    requires Valid(s)
    ensures Valid(t)
    ensures !s.drawing || !videoPresent ==> t == s
    ensures s.drawing && videoPresent ==>
              var r := s.rect.value;
              t.rect == Some(r.(width := Some(p.OffsetX() - r.startX), height := Some(p.OffsetY() - r.startY)))
    ensures t.drawing == s.drawing && t.currentTag == s.currentTag
    ensures t.currentTime == s.currentTime && t.annotations == s.annotations
  {
    if !s.drawing || !videoPresent then s
    else
      var x, y := p.OffsetX(), p.OffsetY();
      var prev := s.rect.value;
      s.(rect := Some(prev.(width := Some(x - prev.startX), height := Some(y - prev.startY))))
  }

  /** The annotation a commit appends: the selected tag, the latest observed
      time, the anchor as the corner and the extents as they stand. */
  function Draft(s: State): Annotation
    requires s.rect.Some?
  {
    var r := s.rect.value;
    Annotation(s.currentTag, s.currentTime, r.startX, r.startY, r.width, r.height)
  }

  /** Whether a commit goes ahead: only the rectangle and the tag are
      checked, not the time. */
  predicate CanCommit(s: State)
  {
    s.rect.Some? && s.currentTag != ""
  }

  /** Pointer-up and the save button. When the guard fails the state is
      exactly as before, drawing and rectangle included. Otherwise exactly
      one annotation is appended after the existing ones and the machine
      returns to idle; tag and time stay. */
  function MouseUp(s: State): (t: State)
    ensures t == s <==> !CanCommit(s)
    ensures CanCommit(s) ==>
              && t.annotations == s.annotations + [Draft(s)]
              && t.rect.None? && !t.drawing
              && t.currentTag == s.currentTag && t.currentTime == s.currentTime
    ensures Valid(s) ==> Valid(t)
  {
    if !CanCommit(s) then s
    else
      s.(annotations := s.annotations + [Draft(s)], rect := None, drawing := false)
  }

  /** The video's time-update handler: records the playback position when
      the video is mounted. */
  function TimeUpdate(s: State, videoPresent: bool, position: nat): (t: State)
    ensures t.currentTime == if videoPresent then Some(position) else s.currentTime
    ensures t.(currentTime := s.currentTime) == s
    ensures Valid(s) ==> Valid(t)
  {
    if videoPresent then s.(currentTime := Some(position)) else s
  }

  /** One event, dispatched to its handler. */
  function Apply(s: State, e: Event): (t: State)
    requires Valid(s) && WellFormed(e)
    ensures Valid(t)
  {
    match e
    case TagSelected(tag) => SetTag(s, tag)
    case PointerDown(p, v) => MouseDown(s, p, v)
    case PointerMove(p, v) => MouseMove(s, p, v)
    case PointerUp => MouseUp(s)
    case TimeUpdated(v, position) => TimeUpdate(s, v, position)
  }

  /** A sequence of events, applied in arrival order. */
  function Run(s: State, evs: seq<Event>): (t: State)
    requires Valid(s) && AllWellFormed(evs)
    ensures Valid(t)
    decreases |evs|
  {
    if evs == [] then s else Run(Apply(s, evs[0]), evs[1..])
  }

  lemma RunCons(s: State, e: Event, evs: seq<Event>)
    requires Valid(s) && WellFormed(e) && AllWellFormed(evs)
    ensures AllWellFormed([e] + evs)
    ensures Run(s, [e] + evs) == Run(Apply(s, e), evs)
  {
    assert ([e] + evs)[0] == e && ([e] + evs)[1..] == evs;
    assert AllWellFormed([e] + evs);
  }

  lemma {:induction false} RunSnoc(s: State, evs: seq<Event>, e: Event)
    requires Valid(s) && AllWellFormed(evs) && WellFormed(e)
    ensures AllWellFormed(evs + [e])
    ensures Run(s, evs + [e]) == Apply(Run(s, evs), e)
    decreases |evs|
  {
    assert AllWellFormed(evs + [e]);
    if evs == [] {
      assert [e][1..] == [];
    } else {
      assert (evs + [e])[1..] == evs[1..] + [e];
      RunSnoc(Apply(s, evs[0]), evs[1..], e);
    }
  }

  // ---------------------------------------------------------------------
  // Drag geometry

  /** The pointer of the last move in `evs` that found the video mounted. */
  function LatestDrag(evs: seq<Event>): Option<Pointer>
  {
    if evs == [] then None
    else
      var later := LatestDrag(evs[1..]);
      if later.Some? then later
      else if evs[0].PointerMove? && evs[0].videoPresent then Some(evs[0].at)
      else None
  }

  /** Events that can occur inside one drag: anything but a new pointer-down
      or a pointer-up. */
  predicate WithinDrag(evs: seq<Event>)
  {
    forall i | 0 <= i < |evs| :: !evs[i].PointerDown? && !evs[i].PointerUp?
  }

  /** During a drag the anchor never moves, and the extents are those of the
      latest move, measured from the anchor; without a move they stay. */
  lemma {:induction false} DragKeepsAnchor(s: State, evs: seq<Event>)
    requires Valid(s) && AllWellFormed(evs) && WithinDrag(evs)
    requires s.drawing
    ensures var t := Run(s, evs);
            && t.drawing
            && t.rect.value.startX == s.rect.value.startX
            && t.rect.value.startY == s.rect.value.startY
            && t.rect.value.width == (match LatestDrag(evs)
                                      case None => s.rect.value.width
                                      case Some(p) => Some(p.OffsetX() - s.rect.value.startX))
            && t.rect.value.height == (match LatestDrag(evs)
                                       case None => s.rect.value.height
                                       case Some(p) => Some(p.OffsetY() - s.rect.value.startY))
    decreases |evs|
  {
    if evs != [] {
      var u := Apply(s, evs[0]);
      assert AllWellFormed(evs[1..]) && WithinDrag(evs[1..]);
      DragKeepsAnchor(u, evs[1..]);
    }
  }

  /** A pointer-down with the video mounted followed by a drag leaves the
      rectangle anchored at the pointer-down position, with the extents of
      the latest move, sign included, or none when nothing moved. */
  lemma DragGeometry(s: State, p: Pointer, evs: seq<Event>)
    requires Valid(s) && AllWellFormed(evs) && WithinDrag(evs)
    ensures AllWellFormed([PointerDown(p, true)] + evs)
    ensures var t := Run(s, [PointerDown(p, true)] + evs);
            && t.drawing
            && t.rect.value.startX == p.OffsetX() && t.rect.value.startY == p.OffsetY()
            && t.rect.value.x == p.OffsetX() && t.rect.value.y == p.OffsetY()
            && t.rect.value.width == (match LatestDrag(evs)
                                      case None => None
                                      case Some(q) => Some(q.OffsetX() - p.OffsetX()))
            && t.rect.value.height == (match LatestDrag(evs)
                                       case None => None
                                       case Some(q) => Some(q.OffsetY() - p.OffsetY()))
  {
    var all := [PointerDown(p, true)] + evs;
    assert all[0] == PointerDown(p, true) && all[1..] == evs;
    assert AllWellFormed(all);
    DragKeepsAnchor(MouseDown(s, p, true), evs);
  }

  /** Moves replace the extents rather than add to them: only the last of
      two moves matters, and repeating a move changes nothing. */
  lemma MoveReplaces(s: State, p: Pointer, q: Pointer, v: bool)
    requires Valid(s)
    ensures MouseMove(MouseMove(s, p, v), q, v) == MouseMove(s, q, v)
    ensures MouseMove(MouseMove(s, p, v), p, v) == MouseMove(s, p, v)
  {
  }

  // ---------------------------------------------------------------------
  // Commit

  /** The mouse-up and the save button firing one after the other commit
      once: the first resets the machine, so the second is a no-op. */
  lemma NoDoubleCommit(s: State)
    ensures MouseUp(MouseUp(s)) == MouseUp(s)
  {
  }

  /** The same, over any history: a second pointer-up right after a first
      leaves the state of the first. */
  lemma NoDoubleCommitAfter(s: State, evs: seq<Event>)
    requires Valid(s) && AllWellFormed(evs)
    ensures AllWellFormed(evs + [PointerUp, PointerUp]) && AllWellFormed(evs + [PointerUp])
    ensures Run(s, evs + [PointerUp, PointerUp]) == Run(s, evs + [PointerUp])
  {
    RunSnoc(s, evs, PointerUp);
    RunSnoc(s, evs + [PointerUp], PointerUp);
    assert evs + [PointerUp] + [PointerUp] == evs + [PointerUp, PointerUp];
    NoDoubleCommit(Run(s, evs));
  }

  /** A click without a drag commits a rectangle without extents. */
  lemma ClickCommitsWithoutExtents(s: State, p: Pointer)
    requires s.currentTag != ""
    ensures MouseUp(MouseDown(s, p, true)).annotations
            == s.annotations + [Annotation(s.currentTag, s.currentTime, p.OffsetX(), p.OffsetY(), None, None)]
  {
  }

  // ---------------------------------------------------------------------
  // Time binding

  /** The position of the last time update in `evs` that found the video
      mounted. */
  function LatestPosition(evs: seq<Event>): Option<nat>
  {
    if evs == [] then None
    else
      var later := LatestPosition(evs[1..]);
      if later.Some? then later
      else if evs[0].TimeUpdated? && evs[0].videoPresent then Some(evs[0].position)
      else None
  }

  /** The recorded time is that of the latest time update, whatever else
      happened in between; without one it is the time held before. */
  lemma {:induction false} TimeBinding(s: State, evs: seq<Event>)
    requires Valid(s) && AllWellFormed(evs)
    ensures Run(s, evs).currentTime
            == if LatestPosition(evs).Some? then LatestPosition(evs) else s.currentTime
    decreases |evs|
  {
    if evs != [] {
      assert AllWellFormed(evs[1..]);
      TimeBinding(Apply(s, evs[0]), evs[1..]);
    }
  }

  /** A commit at the end of any history records the latest observed time,
      not the time at which the drag started. */
  lemma CommitRecordsLatestTime(s: State, evs: seq<Event>)
    requires Valid(s) && AllWellFormed(evs)
    requires CanCommit(Run(s, evs))
    ensures AllWellFormed(evs + [PointerUp])
    ensures var t := Run(s, evs + [PointerUp]);
            && |t.annotations| == |Run(s, evs).annotations| + 1
            && t.annotations[|t.annotations| - 1].time
               == if LatestPosition(evs).Some? then LatestPosition(evs) else s.currentTime
  {
    RunSnoc(s, evs, PointerUp);
    TimeBinding(s, evs);
  }

  // ---------------------------------------------------------------------
  // The annotation list

  /** The list only grows at its end: the entries present before any
      history are still there, in place, and every entry the history added
      carries one of the predefined tags. */
  lemma {:induction false} AnnotationsOnlyGrow(s: State, evs: seq<Event>)
    requires Valid(s) && AllWellFormed(evs)
    ensures var t := Run(s, evs);
            && |s.annotations| <= |t.annotations|
            && t.annotations[..|s.annotations|] == s.annotations
            && forall i | |s.annotations| <= i < |t.annotations| :: t.annotations[i].tag in PredefinedTags
    decreases |evs|
  {
    if evs != [] {
      var u := Apply(s, evs[0]);
      assert AllWellFormed(evs[1..]);
      AnnotationsOnlyGrow(u, evs[1..]);
      var t := Run(u, evs[1..]);
      assert t.annotations[..|u.annotations|][..|s.annotations|] == t.annotations[..|s.annotations|];
    }
  }

  /** A full gesture: select a tag, press at `p`, let the video advance to
      `position`, drag to `q` and release. Exactly one annotation is
      appended, with the selected tag, the position seen last, the press
      point as its corner and the signed drag as its extents. */
  lemma DrawAndCommit(s: State, tag: string, p: Pointer, position: nat, q: Pointer)
    requires Valid(s)
    requires tag in PredefinedTags
    ensures AllWellFormed([TagSelected(tag), PointerDown(p, true), TimeUpdated(true, position),
                           PointerMove(q, true), PointerUp])
    ensures Run(s, [TagSelected(tag), PointerDown(p, true), TimeUpdated(true, position),
                    PointerMove(q, true), PointerUp]).annotations
            == s.annotations + [Annotation(tag, Some(position), p.OffsetX(), p.OffsetY(),
                                           Some(q.OffsetX() - p.OffsetX()), Some(q.OffsetY() - p.OffsetY()))]
  {
    var e1, e2, e3, e4, e5 := TagSelected(tag), PointerDown(p, true), TimeUpdated(true, position),
                              PointerMove(q, true), PointerUp;
    var s1 := SetTag(s, tag);
    var s2 := MouseDown(s1, p, true);
    var s3 := TimeUpdate(s2, true, position);
    var s4 := MouseMove(s3, q, true);
    var s5 := MouseUp(s4);
    assert s4.currentTag == tag && s4.currentTime == Some(position);
    assert s4.rect == Some(Rect(p.OffsetX(), p.OffsetY(), p.OffsetX(), p.OffsetY(),
                                Some(q.OffsetX() - p.OffsetX()), Some(q.OffsetY() - p.OffsetY())));
    var evs := [e1, e2, e3, e4];
    assert evs + [e5] == [e1, e2, e3, e4, e5];
    assert Apply(s, evs[0]) == s1 && Apply(s1, evs[1]) == s2;
    assert Apply(s2, evs[2]) == s3 && Apply(s3, evs[3]) == s4;
    RunFiveSteps(s, evs, e5);
  }

  /** Running four events and then `e` is applying the five in turn. */
  lemma RunFiveSteps(s: State, evs: seq<Event>, e: Event)
    requires Valid(s) && |evs| == 4 && AllWellFormed(evs) && WellFormed(e)
    ensures AllWellFormed(evs + [e])
    ensures Run(s, evs + [e])
            == Apply(Apply(Apply(Apply(Apply(s, evs[0]), evs[1]), evs[2]), evs[3]), e)
  {
    RunSnoc(s, evs, e);
    var s1 := Apply(s, evs[0]);
    var s2 := Apply(s1, evs[1]);
    var s3 := Apply(s2, evs[2]);
    assert Run(s3, evs[3..]) == Apply(s3, evs[3]);
    assert Run(s2, evs[2..]) == Run(s3, evs[3..]);
    assert Run(s1, evs[1..]) == Run(s2, evs[2..]);
  }
}
