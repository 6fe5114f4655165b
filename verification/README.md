# Annotation drawing state machine of video-annotations

A Dafny model of the annotation manager component of the video-annotations
web application (`src/AnnotationManager.js`). The component lets a user pick
a tag, press and drag over a playing video to draw a rectangle, and release
(or press "Save Annotation") to append an annotation
`{tag, time, x, y, width, height}` to the page's list. The list under the
video shows each annotation as `<tag> at <HH:MM:SS> - Rectangle: (x, y, w, h)`.

The model has five modules:

- `Types` (`types.dfy`): the in-progress rectangle, the committed annotation,
  the three predefined tags and an `Option` for the source's `null` and
  `undefined` values.
- `Clock` (`clock.dfy`): the `HH:MM:SS` rendering of a playback position.
  This is the time-of-day part of the ISO string of `new Date(ms)`. It comes
  with a parser that inverts it, and lemmas for the round trip, the 24-hour
  wrap and the dropped milliseconds.
- `Listing` (`listing.dfy`): the list projection. It gives one item per
  annotation, in the same order and keyed by index. The item text renders
  numbers in decimal and absent extents as nothing.
- `Transitions` (`transitions.dfy`): each event handler as a pure
  transition on a state value. It adds the event sequences a user produces
  and lemmas over any such sequence: drag geometry, time binding, no double
  commit, and a list that only grows.
- `Manager` (`manager.dfy`): the component as a class. Its fields are
  `drawing`, `rect`, `currentTag`, `currentTime` and `annotations`. Its
  methods `SetTag`, `MouseDown`, `MouseMove`, `MouseUp` and `TimeUpdate`
  update those fields in place. Each method is specified by the matching
  transition and by its new fields.

Modelling choices:

- Pixel coordinates are integers.
- Playback positions are whole milliseconds (`nat`). `None` is the `null`
  the time holds before the first time update.
- The video's bounding-box offset (`left`, `top`) is a parameter of the
  pointer handlers. So is whether the video element is mounted.
- `SetTag` requires a tag the selector offers: `""` or one of the three
  predefined tags. The `<select>` that drives it can emit nothing else
  (lines 76-83).
- Every state the handlers can reach satisfies `Transitions.Valid`:
  - a rectangle exists exactly while drawing;
  - its `x`/`y` stay at the anchor;
  - its two extents appear together;
  - the tag is `""` or one of `Car`, `Tree`, `Building`.
- `MouseUp` checks only the rectangle and the tag, not the time. A failed
  commit does not reset `drawing` or `rect`: the state stays exactly as it
  was. A commit before any time update stores a `null` time, which the list
  shows as `00:00:00` (`null * 1000` is 0).

## Model

| member | source | states |
|---|---|---|
| `Clock.TwoDigits` | src/AnnotationManager.js:113 | each clock field is two decimal digits whose value is the field |
| `Clock.FormatTimestamp` | src/AnnotationManager.js:113 | the rendered time is eight characters, digits with `:` at positions 2 and 5 |
| `Clock.ClockFields` | src/AnnotationManager.js:113 | hours, minutes and seconds are those of the second of the UTC day, and together make it up |
| `Clock.ParseFormatted` | src/AnnotationManager.js:113 | parsing the rendered clock gives back exactly the second of the day |
| `Clock.FormatSameIff` | src/AnnotationManager.js:113 | two positions render alike if and only if they fall in the same second of the day |
| `Clock.FormatWrapsDaily` | src/AnnotationManager.js:113 | hours wrap at 24: a position one day later renders the same |
| `Clock.FormatFloorsToSeconds` | src/AnnotationManager.js:113 | milliseconds are dropped, not rounded |
| `Clock.FormatExamples` | src/AnnotationManager.js:113 | 3725 s renders as `01:02:05` and 0 as `00:00:00` |
| `Listing.NatText` | src/AnnotationManager.js:113 | a number in the item text is a non-empty string of digits without leading zeros |
| `Listing.ParseNatText` | src/AnnotationManager.js:113 | the decimal digits of a natural number read back as that number |
| `Listing.IntText` | src/AnnotationManager.js:113 | a coordinate in the item text is non-empty and made of digits and the minus sign only, so never a comma |
| `Listing.ParseIntText` | src/AnnotationManager.js:113 | every coordinate, negative ones included, reads back from the item text as itself |
| `Listing.TimeText` | src/AnnotationManager.js:113 | the clock of an item is eight characters, and a missing time shows as `00:00:00` |
| `Listing.Project` | src/AnnotationManager.js:111-115 | the rendered list has one item per annotation, in order, with key equal to the index |
| `Listing.ExtentText` | src/AnnotationManager.js:113 | an extent renders as nothing exactly when it is absent (React shows `undefined` as nothing), and never contains a comma |
| `Listing.ParseExtentText` | src/AnnotationManager.js:113 | a rendered extent, absent or present, reads back as itself |
| `Listing.ItemShowsTagAndTime` | src/AnnotationManager.js:113 | the text `ItemText` of an item starts with its tag and ` at `, and the next eight characters parse back to the second of the day of its time |
| `Listing.ParseRectangleText` | src/AnnotationManager.js:113 | the `x, y, width, height)` part (`RectangleText`) reads back as exactly the corner and the extents |
| `Listing.ItemShowsRectangle` | src/AnnotationManager.js:113 | in the text `ItemText` of an item, ` - Rectangle: (` follows the clock, and the rest reads back as the annotation's corner and extents |
| `Listing.ProjectAppend` | src/AnnotationManager.js:111-115 | appending an annotation appends exactly its item, keyed by the old length, and keeps every earlier item |
| `Listing.ProjectPrefix` | src/AnnotationManager.js:111-115 | the items of a prefix of the list are the prefix of the items |
| `Transitions.Initial` | src/AnnotationManager.js:7-10 | on mount the state is valid, with no tag, no drawing and no time, over the page's list |
| `Transitions.SetTag` | src/AnnotationManager.js:76 | the selected tag, `""` or one of `Types.PredefinedTags` (line 4), replaces the current one, everything else stays, and validity is kept |
| `Transitions.MouseDown` | src/AnnotationManager.js:26-35 | without a video nothing changes; otherwise drawing starts with the rectangle anchored at the pointer relative to the video, without extents |
| `Transitions.MouseMove` | src/AnnotationManager.js:37-49 | when not drawing or without a video nothing changes; otherwise the extents become the signed, unclamped offset of the pointer from the anchor, and nothing else changes |
| `Transitions.MouseUp` | src/AnnotationManager.js:51-65 | the state is unchanged if and only if the guard `CanCommit` (line 52: a rectangle and a non-empty tag) fails; otherwise exactly one `Draft` (lines 54-61: tag, time, anchor, extents) is appended at the end, and the rectangle and drawing are reset while tag and time stay |
| `Transitions.TimeUpdate` | src/AnnotationManager.js:67-71 | with a video the position becomes the current time, and nothing else changes |
| `Transitions.Apply` | src/AnnotationManager.js:84-96 | every delivered event keeps the state valid |
| `Transitions.Run` | src/AnnotationManager.js:84-96 | every sequence of delivered events keeps the state valid |
| `Transitions.DragKeepsAnchor` | src/AnnotationManager.js:37-49 | during a drag the anchor never moves, and the extents are those of the latest move with a video, or the earlier ones |
| `Transitions.DragGeometry` | src/AnnotationManager.js:26-49 | after a press and any drag, the rectangle sits at the press point, with extents equal to the latest pointer offset minus the press offset (sign kept), or none when nothing moved |
| `Transitions.MoveReplaces` | src/AnnotationManager.js:44-48 | of two moves only the last one counts, and repeating a move changes nothing |
| `Transitions.ClickCommitsWithoutExtents` | src/AnnotationManager.js:54-61 | a press released without a move commits an annotation with absent width and height |
| `Transitions.NoDoubleCommit` | src/AnnotationManager.js:51-65 | a second mouse-up right after the first changes nothing |
| `Transitions.NoDoubleCommitAfter` | src/AnnotationManager.js:84-90 | after any history, release followed by the save button ends in the same state as the release alone |
| `Transitions.TimeBinding` | src/AnnotationManager.js:67-71 | after any history the current time is that of the latest time update with a video, or the earlier time if there was none |
| `Transitions.CommitRecordsLatestTime` | src/AnnotationManager.js:56 | a commit at the end of any history appends one entry whose time is that of the latest time update, not the one at press time |
| `Transitions.AnnotationsOnlyGrow` | src/AnnotationManager.js:62 | over any history of the component's own events the earlier entries stay in place, and every entry added carries a tag of `Types.PredefinedTags` (line 4) |
| `Transitions.DrawAndCommit` | src/AnnotationManager.js:26-65 | selecting a tag, pressing, a time update, dragging and releasing appends exactly the expected annotation |
| `Manager.AnnotationManager.constructor` | src/AnnotationManager.js:7-10 | the fields start as `''`, `false`, `null`, `null`, with the page's list |
| `Manager.AnnotationManager.SetTag` | src/AnnotationManager.js:76 | only `currentTag` changes, as `Transitions.SetTag` says |
| `Manager.AnnotationManager.MouseDown` | src/AnnotationManager.js:26-35 | the fields change as `Transitions.MouseDown` says: nothing without a video, or drawing with a fresh anchored rectangle |
| `Manager.AnnotationManager.MouseMove` | src/AnnotationManager.js:37-49 | only the rectangle's extents change, as `Transitions.MouseMove` says |
| `Manager.AnnotationManager.MouseUp` | src/AnnotationManager.js:51-65 | the fields change as `Transitions.MouseUp` says, and the rendered list gains exactly the new item |
| `Manager.AnnotationManager.TimeUpdate` | src/AnnotationManager.js:67-71 | only `currentTime` changes, as `Transitions.TimeUpdate` says |
| `Manager.ReleaseThenSave` | src/AnnotationManager.js:84-90 | for any drag over the video, the mouse-up followed by the save button appends exactly one annotation, after the unchanged earlier entries: the tag, the current time, the press point relative to the video and the signed drag |

## Left out

- The canvas effect (`clearRect`/`strokeRect`, lines 14-24), `getBoundingClientRect` and the rendered markup are drawing and DOM I/O. The bounding-box offset and the presence of the video are inputs.
- `src/AnnotationPage.js` (fetching videos, URLs and annotations, and selecting the first video), `src/UploadPage.js` (file upload), `src/App.js` and `src/VideoPlayer.js` are not part of this model. They are network plumbing and component composition.
- The page's fetch can replace the annotation list under the component (src/AnnotationPage.js:56), and the component is not remounted when the video changes, so `drawing`, `rect`, tag and time carry over. `Transitions.AnnotationsOnlyGrow` and the other lemmas over event histories hold for the component's own events only.
- Floating point: the source's playback time is a float number of seconds and its coordinates are floats. The model uses whole milliseconds and integer pixels. NaN, negative times and the `RangeError` of `toISOString` are outside the model.
- `Clock.FormatTimestamp`: does not model positions at or after 253402300800000 ms (the year 10000). There `toISOString` switches to an extended year and the eight characters taken are no longer the time of day.
- React's batching of state updates and the handlers' captured state are not modelled. Each event sees the state the previous event left.
- `Transitions.MouseMove`: requires the state invariant. In the source a move while drawing always finds a rectangle. The model does not cover the unreachable case where `drawing` is set without one. There the state updater of lines 44-47 would throw a `TypeError` when it reads `startX` of `null`.
- Editing, deleting, colours, a remote store and stale responses do not exist in this component, so nothing models them.
