# Editor overlay of the plyr video player, modelled in Dafny

This project models the editing overlay that the SBGSports fork of plyr adds under a video. It covers five pieces:

- **Time utilities** (`src/js/utils/time.js`):
  - the hour, minute and second fields of a time;
  - `formatTime`, which renders `[-][H:]MM:SS`;
  - `matchTime`, the football-style match clock computed from sync points, e.g. `45+02:13`.
- **Media fragments** (`src/js/mediaFragment.js`):
  - the `t=<start>,<end>` range in the source's URL hash, read by the regular expression `t=[0-9]+(.([0-9]+))?,[0-9]+(.([0-9]+))?`, then split at the comma and read with `parseFloat`;
  - the shift from local time to media time.
- **Editor** (`src/js/plugins/editor/editor.js`):
  - the zoomable timeline, with its seek handle, five timestamp labels and a row of preview images;
  - the zoom rule;
  - the rule that scrolls the timeline so that it follows the handle;
  - seeking with the pointer;
  - entering and leaving the editor, and the `canplay` and `loadeddata` handlers.
- **Trim tool** (`src/js/plugins/editor/trim.js`):
  - a bar on the timeline with two thumbs, which selects a clip `[startTime, endTime]`;
  - the shaded regions outside the bar;
  - dragging a thumb;
  - sending playback back to the clip start when it leaves the clip.
- **Video markers** (`src/js/plugins/editor/markers.js`):
  - labelled points on the timeline that can be added, detached, selected and dragged.

## How it is modelled

- **Numbers.** Seconds and percentages are exact reals.
  - `Math.trunc`, `Math.round` and `Math.ceil` are written out in `Base`.
  - `Math.floor` is Dafny's `.Floor` on reals, used directly in `Time`.
  - JavaScript's `%` by 60, which truncates toward zero, is `Base.Rem60`.
  - `clamp` is `Base.Clamp`.
- **Conversions.** The two inline conversions the plugins repeat are written once each:
  - `clamp((100 / duration) * time, 0, 100)` is `Base.PercentOf`;
  - `duration * (percentage / 100)` is `Base.TimeAt`.
- **Strings.** Texts are `seq<char>`.
  - `formatTime` and `matchTime` produce strings.
  - Their contracts are stated by reading the text back: `Time.ParseClock` recovers the fields, and the leading zeros of `0${value}`.slice(-2) are proved to give two digits.
- **State.** Objects that the source updates in place are classes: `EditorView.Editor`, `TrimTool.Trim`, `VideoMarkers.Markers` and `MediaFragments.MediaFragment`. Their fields are the DOM state the code reads back:
  - `style.left` and `style.width` of the timeline, bar, shades and markers;
  - `hidden`;
  - the label texts, held in an `array<string>`;
  - the markers list.
- **Events and commands.** Events the plugins trigger are appended to a ghost log, `events`. Commands to the player (a new `currentTime`, `pause()`) are returned as results.
- **Geometry as inputs.** Bounding-rectangle geometry is passed in as a percentage of the timeline (`pointer`, `anchor`) or as a `Player.Layout`. This covers the pointer position, the handle's position in the window and the shift a scroll causes.
- **The player.** The player's fields (`duration`, `media.duration`, `currentTime`, `playing`) are a `Player.Media` value.
- **The regular expression.** `MediaFragments.Search` is the backtracking engine's leftmost, greedy match. `SearchSpec` and `FirstMatchSpec` prove it sound and complete against a declarative description of the pattern's language, `MatchesAt`.

Two details of the code are modelled as written, and lemmas show they do no harm:

- **The right-scroll guard.** setTimelineOffset tests `zoom - offset > 100` (`editor.js:544`). The right edge of the timeline is at `zoom + offset`. For every offset the timeline can have (`-(zoom - 100)` to `0`), the guard as written gives the same new offset as a test on the right edge. The two tests can disagree, but only where the lower limit `-(zoom - 100)` already stops the scroll. `EditorView.RightScrollGuardAgrees` proves this.
- **The wheel's early return.** The wheel branch of setZoom returns early when the new scale sits on the bound it moves away from (`editor.js:396`). With the scale kept in `[1, maxZoom]`, exact arithmetic never reaches that return. `EditorView.WheelNeverAtBound` proves this, and `SetZoom` calls it in place of the branch.

## Model

| member | source | states |
|---|---|---|
| Base.Clamp | src/js/mediaFragment.js:42-43 | The result lies in [lo, hi]; a value inside is kept; a value below or above gives the bound it passed. |
| Base.Trunc | src/js/utils/time.js:8-10 | Math.trunc rounds toward zero: for x ≥ 0 the result n satisfies 0 ≤ n ≤ x < n + 1; for x < 0 it satisfies n − 1 < x ≤ n ≤ 0. |
| Base.Round | src/js/plugins/editor/editor.js:241 | Math.round lies within half of x, halves going up. |
| Base.Ceil | src/js/plugins/editor/editor.js:298 | Math.ceil is the least integer at or above x. |
| Base.Rem60 | src/js/utils/time.js:10 | JavaScript's `% 60` has the sign of the dividend and magnitude below 60, and differs from the dividend by a whole multiple of 60. |
| Base.PercentOf | src/js/plugins/editor/markers.js:46 | The percentage of a time is on the timeline [0, 100]; inside the media it is exactly 100·time/duration; before 0 it is 0, past the end 100. |
| Base.TimeAt | src/js/plugins/editor/trim.js:66-73 | A percentage on the timeline gives a time within [0, duration]. |
| Base.PercentRoundTrip | src/js/plugins/editor/editor.js:473 | A time inside the media, turned into a percentage and back, is the same time. |
| Base.TimeAtRoundTrip | src/js/plugins/editor/editor.js:502-508 | A percentage on the timeline, turned into a time and back, is the same percentage. |
| Base.RoundMonotonic | src/js/plugins/editor/editor.js:241 | Math.round preserves order. |
| Base.TimeAtMonotonic | src/js/plugins/editor/trim.js:66-73 | A later percentage gives a later (or equal) time. |
| Strings.NatToDecimal | src/js/utils/time.js:30 | The template-literal text of a natural number is a non-empty run of digits, a single digit exactly when the number is below 10. |
| Strings.IntToDecimal | src/js/utils/time.js:22 | The text of a non-negative integer is all digits; that of a negative one is '-' followed by digits. |
| Strings.DecimalRoundTrip | src/js/utils/time.js:30 | Reading the decimal text of n back gives n. |
| Strings.DecimalNoLeadingZero | src/js/utils/time.js:30 | The decimal text of n starts with '0' only for n = 0. |
| Time.GetHours | src/js/utils/time.js:8 | The hours field of a non-negative time is in [0, 60); of a non-positive time in (-60, 0]. |
| Time.GetMinutes | src/js/utils/time.js:9 | The minutes field is in [0, 60) for a non-negative time, in (-60, 0] otherwise. |
| Time.GetSeconds | src/js/utils/time.js:10 | The seconds field is in [0, 60) for a non-negative time, in (-60, 0] otherwise. |
| Time.SecondsToMinutes | src/js/utils/time.js:12 | The whole minutes m satisfy 60m ≤ value < 60m + 60. |
| Time.FloorDiv60 | src/js/utils/time.js:8-9 | Dividing a non-negative time by 60 commutes with taking its whole part. |
| Time.TruncRem60 | src/js/utils/time.js:10 | For a non-negative time, trunc(x % 60) is the whole seconds modulo 60. |
| Time.WholeSecondsFields | src/js/utils/time.js:8-10 | The three fields of a non-negative time are those of its whole seconds: s mod 60, s div 60 mod 60, s div 3600 mod 60. |
| Time.Pad2 | src/js/utils/time.js:22 | `0${value}`.slice(-2) is always two numeral characters. |
| Time.Pad2Digits | src/js/utils/time.js:22 | A field in [0, 100) is shown as exactly its two zero-padded digits, which read back as the field. |
| Time.Pad2LastTwoDigits | src/js/utils/time.js:51-53 | A non-negative field shows only its tens and units digits, so minute 120 of the match clock reads `20`. |
| Time.ParseUnsignedLayout | src/js/utils/time.js:36 | `[H:]MM:SS` laid out from digit fields reads back as those fields. |
| Time.ParseClockLayout | src/js/utils/time.js:36 | `[-][H:]MM:SS` laid out from digit fields reads back as those fields, with the sign. |
| Time.FormatTimeFields | src/js/utils/time.js:15-37 | formatTime of a non-negative time reads back as: '-' exactly when inverted and the time is positive; an hours segment exactly when displayHours or the hours field is positive; then the minutes and seconds fields. |
| Time.FormatNotNumber | src/js/utils/time.js:17-19 | A value that is not a number is formatted as time 0: `00:00`, or `0:00:00` with hours. |
| Time.InvertedNeedsPositiveTime | src/js/utils/time.js:36 | For a time at or below 0, `inverted` changes nothing. |
| Time.NegativeTimeFields | src/js/utils/time.js:8-10 | Math.trunc and `%` keep the sign of their operand, so each field of a negative time is the negated field of its magnitude. |
| Time.FormatMinus75 | src/js/utils/time.js:22-36 | formatTime(-75) is `-1:15`: the minus sign comes from the minutes field -1, and the seconds field -15 loses its own to the two-character slice. |
| Time.FormatMinus15 | src/js/utils/time.js:22-36 | formatTime(-15) is `00:15`: the minutes field is 0 and no minus sign survives. |
| Time.InsertByTimeDesc | src/js/utils/time.js:40 | Inserting into a list sorted by descending time keeps it sorted and adds exactly the one element. |
| Time.SortByTimeDesc | src/js/utils/time.js:40 | The sort by `b.time - a.time` gives a list sorted by descending time and a permutation of the input. |
| Time.InsertStable | src/js/utils/time.js:40 | Inserting a point keeps, for every time, the points of that time in the order they had, the inserted point going first among its own time. |
| Time.SortByTimeDescStable | src/js/utils/time.js:40 | The sort is stable: for every time, the points of that time keep the caller's relative order. |
| Time.FirstAtOrBefore | src/js/utils/time.js:41 | `find(x => x.time <= time)`: every element before the index is later than `time`, and the element at it (if any) is not. |
| Time.ChooseSyncPoint | src/js/utils/time.js:40-41 | The chosen sync point is one of the inputs; it is the latest one at or before `time` when there is one, and the earliest of all otherwise. |
| Time.ChooseSyncPointTieBreak | src/js/utils/time.js:40-41 | Among the points sharing the chosen time, the one chosen is the first in the caller's order when some point is at or before `time`, and the last when every point is later. |
| Time.SortedPick | src/js/utils/time.js:41 | In a descending list, the first element at or before `time` is the latest such, and the last element is the earliest of all. |
| Time.TimeIntoPeriod | src/js/utils/time.js:42 | The elapsed time is never negative, and after the sync point it is exactly time − syncPoint.time. |
| Time.ClockAtFields | src/js/utils/time.js:44-49 | The clock's seconds are the elapsed whole seconds mod 60; added time shows exactly when the elapsed whole minutes reach the period's minutes, counting the minutes beyond; with a whole-minute start the minutes are start + elapsed. |
| Time.ClockBeforeFirstSyncPoint | src/js/utils/time.js:41-46 | Before every sync point the clock stands at the earliest point's start minute, 0 seconds. |
| Time.RenderClockShape | src/js/utils/time.js:53 | The rendered clock has a '+' exactly when it shows added time, is 5 or 8 characters long and ends in `:SS` with the seconds field. |
| Time.RenderClockFields | src/js/utils/time.js:51-53 | Read back: the text opens with the minutes' two characters; with added time a '+' and the added minutes' two characters follow, otherwise the ':'; it ends in the seconds' two characters; each non-negative field reads back as its value modulo 100. |
| Time.MatchTime | src/js/utils/time.js:39-54 | A clock is produced exactly when there are sync points. It carries a '+' exactly when the chosen period has run into added time, and is then 8 characters with the '+' third, else 5. Its first two digits read back as the clock's minutes modulo 100 when they are not negative, the two after the '+' as the added minutes modulo 100, and the last two, after a ':', as the seconds. |
| MediaFragments.DigitRunEnd | src/js/mediaFragment.js:26 | The run of digits from i ends at the first non-digit or the end of the text. |
| MediaFragments.NumberEndMatches | src/js/mediaFragment.js:26 | The engine's end for `[0-9]+(.([0-9]+))?` begun at a digit is a match of that sub-pattern. |
| MediaFragments.CommaAt | src/js/mediaFragment.js:26 | The comma the engine settles on follows `t=` and a number, and is followed by a digit. |
| MediaFragments.RunCovers | src/js/mediaFragment.js:26 | A greedy digit run reaches at least as far as any stretch of digits it starts. |
| MediaFragments.NumberLongest | src/js/mediaFragment.js:26 | No number begun at p reaches past the engine's greedy end for it. |
| MediaFragments.MatchAtSound | src/js/mediaFragment.js:26 | What the engine returns at a start position is a match of the whole pattern. |
| MediaFragments.MatchAtLongest | src/js/mediaFragment.js:26 | Every match of the pattern at a start position is found by the engine, which ends no earlier. |
| MediaFragments.SearchSpec | src/js/mediaFragment.js:26 | The search returns the leftmost start where the pattern matches (greedy end), and nothing only when there is no match from there on. |
| MediaFragments.FirstMatchSpec | src/js/mediaFragment.js:26-28 | The first match of the pattern in the hash is leftmost and greedy; there is none exactly when the pattern matches nowhere. |
| MediaFragments.FirstComma | src/js/mediaFragment.js:37 | The index of the first ',' (or the length when there is none). |
| MediaFragments.FirstCommaIs | src/js/mediaFragment.js:37 | Any comma with none before it is the first comma. |
| MediaFragments.Split | src/js/mediaFragment.js:37 | `split(',')` gives pieces without commas that join back into the text. |
| MediaFragments.SplitHeads | src/js/mediaFragment.js:37 | The first two pieces of a text with a comma are the text before the first comma and the text from it to the next. |
| MediaFragments.ParseFloat | src/js/mediaFragment.js:38-39 | parseFloat of a text beginning with a digit is non-negative. |
| MediaFragments.ParseFloatDigits | src/js/mediaFragment.js:38 | A run of digits reads as its decimal value. |
| MediaFragments.ParseFloatOfDecimal | src/js/mediaFragment.js:38 | The decimal text of a natural number reads back as that number. |
| MediaFragments.ParseFloatDecimal | src/js/mediaFragment.js:38 | `w.f` reads as w + f / 10^len(f). |
| MediaFragments.ParseFloatStopsAtSeparator | src/js/mediaFragment.js:38 | A separator other than '.', 'e' or 'E' after the whole digits ends the number. |
| MediaFragments.MatchedPieces | src/js/mediaFragment.js:37 | After `t=` the matched text holds a comma with digits on both sides, so split gives two numeric pieces. |
| MediaFragments.RangeIn | src/js/mediaFragment.js:37-39 | The range read from a match has a non-negative start, and start + length (the end) is non-negative. |
| MediaFragments.RangeOfSplit | src/js/mediaFragment.js:37-39 | For every match, `split(',')` of the text after `t=` gives at least two pieces, both starting with a digit, and the range is parseFloat of the first and parseFloat of the second minus the first; further pieces, as in `t=1,2,3`, are ignored. |
| MediaFragments.RangeOfPieces | src/js/mediaFragment.js:37-39 | For every match `t=<d1>,<d2>` whose comma-free pieces parseFloat reads as v1 and v2, the range is (v1, v2 − v1). |
| MediaFragments.TimesOfPieces | src/js/mediaFragment.js:37-39 | `<d1>,<d2>` with comma-free pieces that parseFloat reads as v1 and v2 splits at that comma and gives (v1, v2 − v1). |
| MediaFragments.ParseFloatDecimalText | src/js/mediaFragment.js:38-39 | The text `w` or `w.f` of digit runs is a comma-free piece that parseFloat reads as w + f / 10^len(f). |
| MediaFragments.FragmentRangeOfPieces | src/js/mediaFragment.js:25-39 | When the hash's first match is `t=<d1>,<d2>` with pieces read as v1 and v2, the fragment's range starts at v1 and lasts v2 − v1. |
| MediaFragments.FragmentRangeOfSplit | src/js/mediaFragment.js:25-39 | For every hash whose first match is found, the fragment's range is read from the first two comma-split pieces after its `t=` as in RangeOfSplit. |
| MediaFragments.FragmentRangeAstralSeparator | src/js/mediaFragment.js:25-26 | `t=1😀2,3` gives no range: the emoji is two UTF-16 code units, and `.` without the `u` flag matches only one. |
| MediaFragments.FragmentRangeFound | src/js/mediaFragment.js:26-28 | A hash yields a range exactly when the pattern matches somewhere in it. |
| MediaFragments.SearchMatchAt | src/js/mediaFragment.js:26 | What the search returns is the engine's match at that start. |
| MediaFragments.MediaFragment.constructor | src/js/mediaFragment.js:5-19 | A new fragment is inactive, starts at 0 and takes the media's duration. |
| MediaFragments.MediaFragment.GetMediaTime | src/js/mediaFragment.js:46-49 | Local time is shifted by startTime exactly while enabled and active, and left alone otherwise. |
| MediaFragments.MediaFragment.Load | src/js/mediaFragment.js:25-44 | No range: nothing changes; a custom duration: a warning and nothing changes; otherwise active with start and length clamped into [0, media duration]. |
| MediaFragments.MediaFragment.OnLoadedMetadata | src/js/mediaFragment.js:16-18 | Loads only when the player has a non-zero duration and the fragment is not active yet; otherwise nothing changes. |
| MediaFragments.MediaFragment.Destroy | src/js/mediaFragment.js:51-59 | When enabled: deactivates and asks for config.startTime to be reset; when disabled nothing changes. |
| MediaFragments.FragmentRangeTenToFifty | src/js/mediaFragment.js:26-39 | `t=10,50` gives the range starting at 10 and lasting 40 seconds. |
| MediaFragments.TenToFiftyScenario | src/js/mediaFragment.js:41-49 | With 120 s of media and `t=10,50`, the fragment loads start 10, duration 40, and maps local time 5 to 15. |
| VideoMarkers.Label | src/js/plugins/editor/markers.js:78 | The label is the id with each '_' turned into a space, character for character. |
| VideoMarkers.NewMarker | src/js/plugins/editor/markers.js:43-85 | A new marker is attached and labelled by Label(id); it sits on the timeline [0, 100], at 0 for a time before 0, at 100 for a time past the duration, and, for a time inside the media, at a position that converts back to that time. |
| VideoMarkers.Moved | src/js/plugins/editor/markers.js:145-160 | A dragged marker stays on the timeline, takes the pointer's position when it is on the timeline and the nearest end (0 or 100) when it is off it, keeps id, label and attachment, and its time converts back to its position. |
| VideoMarkers.MovedIdempotent | src/js/plugins/editor/markers.js:145-160 | Dragging twice to the same point is one drag; a later drag overrides an earlier one. |
| VideoMarkers.Markers.constructor | src/js/plugins/editor/markers.js:11-21 | No markers and none selected. |
| VideoMarkers.Markers.AddMarker | src/js/plugins/editor/markers.js:43-85 | Without a timeline nothing happens; otherwise the new marker is appended at `time || currentTime`, `markeradded` is reported and the plugin becomes active when enabled. |
| VideoMarkers.Markers.RemoveMarker | src/js/plugins/editor/markers.js:87-93 | Exactly the markers with the id are detached; the others are unchanged. |
| VideoMarkers.Markers.RemoveMarkers | src/js/plugins/editor/markers.js:95-99 | Every marker is detached and otherwise unchanged. |
| VideoMarkers.Markers.SetEditing | src/js/plugins/editor/markers.js:122-143 | A press selects the pressed marker; a release clears the selection and reports `markerchange` with the selected marker's id and time. |
| VideoMarkers.Markers.SetMarkerPosition | src/js/plugins/editor/markers.js:145-160 | With no marker selected nothing changes; otherwise only the selected marker moves, to the pointer. |
| EditorView.WheelDelta | src/js/plugins/editor/editor.js:392 | The wheel step is in [-1, 1], negative exactly for a downward wheel and positive exactly for an upward one. |
| EditorView.ZoomedScale | src/js/plugins/editor/editor.js:386-413 | The new scale is in [1, maxZoom]; a click steps it by one in the clicked direction (within the bounds); a slider value in range is taken as is. |
| EditorView.WheelNeverAtBound | src/js/plugins/editor/editor.js:390-398 | A wheel step from a scale in [1, maxZoom] never leaves the scale on the bound it moved away from, so the early return is never taken. |
| EditorView.PanOffset | src/js/plugins/editor/editor.js:418 | After zooming, the timeline's left offset keeps the whole window covered: in [-(scale·100 − 100), 0]. |
| EditorView.ZoomKeepsAnchor | src/js/plugins/editor/editor.js:415-418 | After the zoom, the point `anchor` percent along the timeline sits `anchor` percent along the window. That is where it was before only when the timeline had not been scrolled by setTimelineOffset since the last zoom. |
| EditorView.ScrolledOffset | src/js/plugins/editor/editor.js:525-573 | Past the upper threshold the timeline scrolls left (never past its right end); under the lower threshold of 10%, whether seeking or playing, it scrolls right (never past 0); otherwise it stays; a valid offset stays valid. |
| EditorView.RightScrollGuardAgrees | src/js/plugins/editor/editor.js:544 | For every valid offset, the guard as written gives the same new offset as a test on the timeline's right edge. |
| EditorView.TimestampLabels | src/js/plugins/editor/editor.js:226-251 | Five labels, the i-th showing formatTime of round(duration / 5 · i). |
| EditorView.TimestampsSpread | src/js/plugins/editor/editor.js:236-241 | The labels start at 0 and go forward in time, never past the rounded duration. |
| EditorView.ImageTimeInside | src/js/plugins/editor/editor.js:298-330 | Each preview image's time lies inside the media. |
| EditorView.PreviewImageTimes | src/js/plugins/editor/editor.js:292-346 | The count of 123px images is ceil(width / 123), just enough to cover the timeline; the i-th image is at i·step, inside the media. |
| EditorView.WriteTimestampLabels | src/js/plugins/editor/editor.js:262-269 | The label elements hold exactly the five timestamp texts. |
| EditorView.Editor.constructor | src/js/plugins/editor/editor.js:11-36 | Not loaded, not shown, not built, scale 1, no events. |
| EditorView.Editor.UpdateTimestamps | src/js/plugins/editor/editor.js:253-270 | Labels are rewritten for a new non-zero duration once built; otherwise nothing changes. |
| EditorView.Editor.SetVideoTimelineContent | src/js/plugins/editor/editor.js:292-346 | Image wrappers grow to the number needed and are never removed; the image row covers the timeline. |
| EditorView.Editor.SetTimelineOffset | src/js/plugins/editor/editor.js:525-573 | The timeline moves by the scroll rule, and while playing or seeking the handle follows the scroll, kept on the timeline. |
| EditorView.Editor.SetSeekPosition | src/js/plugins/editor/editor.js:468-488 | While active and not seeking the handle goes to the current time's percentage and the timeline scrolls to follow; otherwise nothing moves. |
| EditorView.Editor.CreateEditor | src/js/plugins/editor/editor.js:83-95 | Built exactly when the player is loaded: full-width, unscrolled timeline, labels for the duration, image row sized for the timeline's width, and the handle at the current time unless seeking; otherwise nothing changes. |
| EditorView.Editor.Enter | src/js/plugins/editor/editor.js:628-636 | An enabled, inactive editor is shown and reports `entereditor`; when loaded it is built on first entry, in the state createEditor leaves; otherwise nothing changes. |
| EditorView.Editor.Exit | src/js/plugins/editor/editor.js:639-647 | An enabled, shown editor is hidden and reports `exiteditor`; otherwise nothing changes. |
| EditorView.Editor.Toggle | src/js/plugins/editor/editor.js:650-656 | An enabled editor flips between active and inactive; a disabled one stays inactive. |
| EditorView.Editor.OnChange | src/js/plugins/editor/editor.js:600-607 | Reports `entereditor` when active and `exiteditor` otherwise, only when enabled. |
| EditorView.Editor.OnCanPlay | src/js/plugins/editor/editor.js:576-581 | The player is loaded and the editor is built exactly when it is shown, in the state createEditor leaves. |
| EditorView.Editor.OnLoadedData | src/js/plugins/editor/editor.js:585-590 | For a loaded, shown editor: the image wrappers grow to ceil(timeline width / 123) and never shrink, the image row is exactly that many 123px images wide, and the labels are rewritten for a new non-zero duration and kept otherwise. Otherwise nothing changes. |
| EditorView.Editor.SetZoom | src/js/plugins/editor/editor.js:378-427 | A zoom event sets the scale by ZoomedScale, the timeline width to scale·100 and its offset to PanOffset (the timeline still covers the window). It resizes the images: the row is ceil(width / 123) images of 123px, and the wrapper count grows to that number and never shrinks. Any other event changes nothing. The anchor, the handle's place on the timeline, lies in [0, 100]. |
| EditorView.Editor.SetSeekTime | src/js/plugins/editor/editor.js:490-522 | While active and seeking, a press or drag puts the handle at the pointer (on the timeline), returns the matching time inside the media and reports `seeked`; otherwise nothing happens. |
| EditorView.Editor.SetSeeking | src/js/plugins/editor/editor.js:429-454 | A press on the left trim thumb, any event on the right thumb or a marker, and a non-main button are ignored and change nothing. Otherwise a press starts seeking and a release stops it. While seeking and active, a press or drag puts the handle at the pointer kept on the timeline, returns the time there, inside the media, and reports `seeking` then `seeked`. Any other event that leaves it seeking reports only `seeking`; one that leaves it not seeking reports nothing. In these cases the handle stays and no time is returned. |
| TrimTool.InitialBar | src/js/plugins/editor/trim.js:116-125 | The bar starts at the current time's percentage and runs 20% further, cut off at 100; its start converts back to the current time. |
| TrimTool.Trim.constructor | src/js/plugins/editor/trim.js:14-30 | Not loaded, not trimming, no thumb held, not built, empty clip. |
| TrimTool.Trim.SetStartTime | src/js/plugins/editor/trim.js:66-68 | The start time is the percentage of the media's duration, inside the media for a percentage on the timeline. |
| TrimTool.Trim.SetEndTime | src/js/plugins/editor/trim.js:70-73 | The end time is the percentage of the media's duration, inside the media for a percentage on the timeline. |
| TrimTool.CssWidth | src/js/plugins/editor/trim.js:310 | A width written to a style is kept when non-negative; a negative one is rejected and the old width stays, so a non-negative width stays non-negative. |
| TrimTool.Trim.SetShadedRegions | src/js/plugins/editor/trim.js:223-236 | The shades cover the timeline outside the bar: before + bar + after = 100 while the bar ends on the timeline; past the end the after-shade's negative width is rejected and its old width stays. |
| TrimTool.Trim.CreateTrimBar | src/js/plugins/editor/trim.js:116-136 | Records the media's duration; the bar is laid out by InitialBar, and the clip times follow it with 0 ≤ start ≤ end ≤ duration; `trimchange` is reported. |
| TrimTool.Trim.CreateTrimTool | src/js/plugins/editor/trim.js:96-105 | Built exactly when the player is loaded, visible with start ≤ end; otherwise nothing changes. |
| TrimTool.Trim.ShowTrimTool | src/js/plugins/editor/trim.js:76-84 | The editor is active afterwards (when enabled); the tool exists exactly when loaded and is then visible. |
| TrimTool.Trim.HideTrimTool | src/js/plugins/editor/trim.js:87-93 | The tool is hidden; the editor is closed when closeEditor is set, and untouched otherwise. |
| TrimTool.Trim.SetEditing | src/js/plugins/editor/trim.js:261-293 | A press on a thumb takes hold of it; a release while one is held lets go and reports `trimchange`; anything else changes nothing. |
| TrimTool.Trim.SetTrimLength | src/js/plugins/editor/trim.js:295-352 | Every drag keeps the start time at the time of the bar's left edge and start ≤ end. The left thumb moves the left edge to the pointer; it keeps the right edge when the pointer is at or before it, and past it the negative width is rejected, so the bar keeps its width from the new left edge. The right thumb moves the right edge, never onto or before the left one. With no thumb held nothing moves. |
| TrimTool.Trim.TimeUpdate | src/js/plugins/editor/trim.js:364-377 | While active, playing and not dragging, playback outside [start, end) is sent back to the start, and pausing happens exactly at or past the end. |
| TrimTool.Trim.OnChange | src/js/plugins/editor/trim.js:398-411 | Reports `entertrim` with the clip when active and `exittrim` otherwise, only when enabled. |
| TrimTool.Trim.Enter | src/js/plugins/editor/trim.js:435-443 | An enabled tool starts trimming, is shown (opening the editor) and reports its state. |
| TrimTool.Trim.Exit | src/js/plugins/editor/trim.js:446-454 | An enabled tool stops trimming, is hidden (closing the editor if configured) and reports its state. |
| TrimTool.Trim.Toggle | src/js/plugins/editor/trim.js:457-463 | An enabled tool flips between active and inactive. |
| TrimTool.Trim.OnCanPlay | src/js/plugins/editor/trim.js:383-388 | The player is loaded and the tool is built exactly when trimming, with start ≤ end. |

## Left out

- Construction of DOM elements, CSS class names, `aria-*` attributes and the text of the thumb time containers are not modelled. Only the state the code reads back is kept: positions, widths, `hidden`, label texts and marker times.
- Bounding rectangles and pointer coordinates are inputs: a pointer percentage, the anchor of a zoom, and `Player.Layout`.
- `clamp((100 / width) * (x - left), 0, 100)` is taken as `Clamp(pointer, 0, 100)` of a given percentage.
- IEEE-754 arithmetic is not modelled; numbers are exact reals.
  - A zero, NaN or infinite duration is excluded by `Player.Ready` or `duration > 0`. The code divides by the duration only after `canplay`, so the Infinity/NaN paths are not modelled.
  - The rounding case in which the wheel zoom could land on its bound is therefore not modelled either.
- A CSS length written as `${x}%` and read back with `parseFloat` is taken to round-trip exactly.
- The preview-thumbnail plugin (`showImageAtCurrentTime`, `startScrubbing`, image loading and `previewThumbnailsReady`) is not part of this model. Only the image count and the image times are.
- `src/js/source.js` is not part of this model.
- `parseUrlHash` and `player.source` are not part of this model. The hash is an input string.
- Event registration (`on`, `once`, `off`), event bubbling and `triggerEvent` are not modelled. Triggered events are appended to a ghost log. A marker's label is a child element with its own class, no id and no `aria-valuenow`. The model takes a press on it as a press on its marker, which the code does not do. In the code, `markers.js:137` stores the label itself as the selected element, and a drag then moves the label inside its marker (`markers.js:157`). The release reports the label's empty id with `parseFloat(null)`, which is NaN (`markers.js:126-129`). `editor.js:435-438` does not skip a press on a label, so the same press also starts seeking.
- `event.button === false` is folded into the "no button" case, together with touch events.
- The player's `currentTime` setter and `pause()` are returned as results rather than performed.
- `Editor.destroy`, `Trim.destroy` and `Markers.destroy` are not modelled: they only remove elements and listeners.
- `Markers.toggleMarkers` is not modelled: it only toggles a CSS class.
- In `MediaFragment.destroy`, the deferred `config.duration = this.media.duration` is not modelled (`this.media` is undefined there). Only the reset of `config.startTime` is returned.
- The zoom slider's `setRange` calls and the player's `controls.setRange` are not modelled: they only draw the range fill.
- The re-binding of the `timeupdate` listener and the append of the trim container into the editor's timeline element are not modelled.
- EditorView.Editor.constructor requires `maxZoom >= 1`. The slider's range is `[1, maxZoom]`, and the code assumes it.
- MediaFragments.ParseFloat is modelled only for texts that start with a digit, which is all the pattern lets through. It reads the `e`/`E` exponent the way `parseFloat` does. The unescaped `.` in the pattern matches one UTF-16 code unit other than a line break, since the pattern has no `u` flag. Texts are sequences of code points, so a character outside the Basic Multilingual Plane is two code units and never serves as the separator (`DotMatches`, `FragmentRangeAstralSeparator`).
- MediaFragments.RangeIn: its own contract states only that start and end are non-negative. Its exact value is stated for every match by RangeOfSplit, through parseFloat of the first two comma-split pieces. RangeOfPieces states it for a match made of two comma-free pieces. The pattern's `.` can take a comma, so a match such as `t=1,2,3` has three pieces; RangeOfSplit covers it and RangeOfPieces does not. ParseFloatDecimalText adds the closed form for pieces written `w` or `w.f`. Pieces with another separator in the `.` position (`1e5`, `1x5`) are covered through ParseFloat, not in closed form.
- Time.MatchTime: `syncPoints.sort` reorders the caller's array in place (`time.js:40`). The model sorts a copy and returns only the clock text, so the reordering the caller sees afterwards is not modelled.
- Time.FormatTimeFields reads back only non-negative times. For a negative time the fields are stated by NegativeTimeFields and the text by the examples FormatMinus75 and FormatMinus15: the two-character slice can drop a field's minus sign, so such a text does not read back.
- TrimTool.Trim.SetStartTime and TrimTool.Trim.SetEndTime use the media duration recorded when the bar is created, while `trim.js:66-73` reads `player.media.duration` on every call. A duration that changes after the bar is built is not modelled.
- Time.FormatTime, Time.ClockAt, Time.RenderClock and MediaFragments.FragmentRange carry no contract of their own. Their properties are stated by the lemmas listed above.
