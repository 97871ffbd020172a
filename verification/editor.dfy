/** The editor overlay (plugins/editor/editor.js): a timeline under the video that can be
    zoomed and scrolled, with a seek handle, five time labels and a row of preview images.
    Positions on the timeline are percentages: the timeline's `style.width` and `style.left`
    are percentages of the editor window, the seek handle's `style.left` a percentage of the
    timeline. */
module EditorView {
  import opened Base
  import opened Player
  import Time

  /** The scrolling thresholds of `this.timeline`, in percent of the editor window. */
  const LowerSeek: real := 10.0
  const UpperSeek: real := 90.0
  const UpperPlaying: real := 60.0
  const ScrollSpeed: real := 1.5
  /** Width of one preview image, in pixels. */
  const VideoContainerWidth: real := 123.0
  const NumOfTimestamps: nat := 5

  /** The events setZoom reacts to. A click is on the zoom-in button or elsewhere. */
  datatype ZoomEvent = Wheel(deltaY: real) | SliderInput(value: real) | ButtonClick(onZoomIn: bool) | OtherZoomEvent

  /** The events the editor triggers on the media element. */
  datatype EditorEvent = EnterEditor | ExitEditor | EditorLoaded | Seeking | Seeked

  /** The wheel step: `clamp(deltaY * -1, -1, 1)`. */
  function WheelDelta(deltaY: real): (d: real)
    ensures -1.0 <= d <= 1.0
    ensures (d < 0.0 <==> deltaY > 0.0) && (d > 0.0 <==> deltaY < 0.0)
  {
    Clamp(-deltaY, -1.0, 1.0)
  }

  /** The scale setZoom computes before limiting it to [1, maxZoom]. */
  function RawScale(scale: real, e: ZoomEvent): real {
    match e
    case Wheel(deltaY) => scale + WheelDelta(deltaY) * 0.1 * scale
    case SliderInput(value) => value
    case ButtonClick(onZoomIn) => if onZoomIn then scale + 1.0 else scale - 1.0
    case OtherZoomEvent => scale
  }

  /** The scale setZoom settles on for a wheel, slider or click event. */
  function ZoomedScale(scale: real, maxZoom: real, e: ZoomEvent): (s: real)
    requires 1.0 <= maxZoom
    ensures 1.0 <= s <= maxZoom
    ensures e.ButtonClick? && 1.0 <= scale <= maxZoom ==>
      s == if e.onZoomIn then Min(scale + 1.0, maxZoom) else Max(scale - 1.0, 1.0)
    ensures e.SliderInput? && 1.0 <= e.value <= maxZoom ==> s == e.value
  {
    Clamp(RawScale(scale, e), 1.0, maxZoom)
  }

  /** The wheel multiplies the scale by 1 + d/10 before the limit, so it zooms in when
      scrolled up and out when scrolled down, and it never lands exactly on the bound
      it moves away from: the early return of the wheel branch never fires. */
  lemma WheelNeverAtBound(scale: real, maxZoom: real, deltaY: real)
    requires 1.0 <= scale <= maxZoom
    ensures var d, raw := WheelDelta(deltaY), RawScale(scale, Wheel(deltaY));
      && raw == scale * (1.0 + d / 10.0)
      && (d < 0.0 ==> raw < scale) && (d > 0.0 ==> raw > scale)
      && !((raw == maxZoom && d < 0.0) || (raw == 1.0 && d > 0.0))
  {
    var d, raw := WheelDelta(deltaY), RawScale(scale, Wheel(deltaY));
    assert raw == scale + d * 0.1 * scale;
    if d < 0.0 {
      MulStrict(d * 0.1, 0.0, scale);
    } else if d > 0.0 {
      MulStrict(0.0, d * 0.1, scale);
    }
  }

  /** The timeline's `style.left` after zooming to `scale` around the anchor, the seek
      handle's position on the timeline in percent. */
  function PanOffset(scale: real, anchor: real): (left: real)
    ensures 1.0 <= scale && 0.0 <= anchor <= 100.0 ==> -(scale * 100.0 - 100.0) <= left <= 0.0
  {
    var span := scale * 100.0 - 100.0;
    assert 1.0 <= scale && 0.0 <= anchor <= 100.0 ==> 0.0 <= span * anchor <= span * 100.0 by {
      if 1.0 <= scale && 0.0 <= anchor <= 100.0 {
        MulMonotonic(0.0, anchor, span);
        MulMonotonic(anchor, 100.0, span);
      }
    }
    (-span * anchor) / 100.0
  }

  /** Zooming keeps the anchor where it was in the editor window: a point `anchor` percent
      along the zoomed timeline lies `anchor` percent along the window. */
  lemma ZoomKeepsAnchor(scale: real, anchor: real)
    ensures PanOffset(scale, anchor) + anchor * (scale * 100.0) / 100.0 == anchor
  {
    assert -(scale * 100.0 - 100.0) * anchor == -(scale * 100.0) * anchor + 100.0 * anchor;
  }

  /** The timeline offset setTimelineOffset computes: when the handle passes the upper
      threshold (90% while seeking, 60% while playing) and the timeline still reaches past
      the window's right edge, scroll left by the overshoot / 1.5, never past the timeline's
      end; when it is below 10%, scroll right by the undershoot / 1.5, never past its start. */
  function ScrolledOffset(offset: real, zoom: real, handleInView: real, seeking: bool): (r: real)
    ensures var upper := if seeking then UpperSeek else UpperPlaying;
      && (handleInView > upper && zoom - offset > 100.0 ==>
            -(zoom - 100.0) <= r && (-(zoom - 100.0) < offset ==> r < offset))
      && (!(handleInView > upper && zoom - offset > 100.0) && handleInView < LowerSeek ==>
            r <= 0.0 && (offset < 0.0 ==> offset < r))
      && (!(handleInView > upper && zoom - offset > 100.0) && handleInView >= LowerSeek ==> r == offset)
    ensures -(zoom - 100.0) <= offset <= 0.0 ==> -(zoom - 100.0) <= r <= 0.0
  {
    var upper := if seeking then UpperSeek else UpperPlaying;
    if handleInView > upper && zoom - offset > 100.0 then
      assert (handleInView - upper) / ScrollSpeed > 0.0;
      Max(offset - (handleInView - upper) / ScrollSpeed, (zoom - 100.0) * -1.0)
    else if handleInView < LowerSeek then
      Min(offset - (LowerSeek - handleInView) / -ScrollSpeed, 0.0)
    else
      offset
  }

  /** The same rule with the right-scroll guard read as "the timeline reaches past the
      window's right edge", `zoom + offset > 100`. */
  function ScrolledOffsetByRightEdge(offset: real, zoom: real, handleInView: real, seeking: bool): real {
    var upper := if seeking then UpperSeek else UpperPlaying;
    if handleInView > upper && zoom + offset > 100.0 then
      Max(offset - (handleInView - upper) / ScrollSpeed, (zoom - 100.0) * -1.0)
    else if handleInView < LowerSeek then
      Min(offset - (LowerSeek - handleInView) / -ScrollSpeed, 0.0)
    else
      offset
  }

  /** The right-scroll guard subtracts the offset (`zoom - offset > 100`) where the right
      edge of the timeline is at `zoom + offset`; while the offset lies in its range the two
      guards give the same offset, because the lower limit absorbs the difference. */
  lemma RightScrollGuardAgrees(offset: real, zoom: real, handleInView: real, seeking: bool)
    requires -(zoom - 100.0) <= offset <= 0.0
    ensures ScrolledOffset(offset, zoom, handleInView, seeking)
         == ScrolledOffsetByRightEdge(offset, zoom, handleInView, seeking)
  {
  }

  /** The time shown by timestamp label i: `Math.round(duration / 5 * i)`. */
  function TimestampTime(duration: real, i: nat): int {
    Round((duration / NumOfTimestamps as real) * i as real)
  }

  /** The text of timestamp label i: `formatTime` of its rounded time. */
  function TimestampLabel(duration: real, i: nat): string {
    Time.FormatTime(Time.Number(TimestampTime(duration, i) as real), false, false)
  }

  /** The label texts for a duration. */
  function TimestampLabels(duration: real): (labels: seq<string>)
    ensures |labels| == NumOfTimestamps
    ensures forall i :: 0 <= i < NumOfTimestamps ==> labels[i] == TimestampLabel(duration, i)
  {
    seq(NumOfTimestamps, i requires 0 <= i < NumOfTimestamps => TimestampLabel(duration, i))
  }

  /** The labels start at 0:00 and step forward in time, never past the rounded duration. */
  lemma TimestampsSpread(duration: real, i: nat, j: nat)
    requires 0.0 <= duration && i <= j < NumOfTimestamps
    ensures TimestampTime(duration, 0) == 0
    ensures 0 <= TimestampTime(duration, i) <= TimestampTime(duration, j) <= Round(duration)
  {
    TimestampZero(duration);
    TimestampsOrdered(duration, i, j);
  }

  lemma TimestampsOrdered(duration: real, i: nat, j: nat)
    requires 0.0 <= duration && i <= j <= NumOfTimestamps
    ensures 0 <= TimestampTime(duration, i) <= TimestampTime(duration, j) <= Round(duration)
  {
    var step := duration / NumOfTimestamps as real;
    var x, y := step * i as real, step * j as real;
    StepsOrdered(duration, i, j);
    RoundedSteps(duration, i, j, x, y);
  }

  lemma RoundedSteps(duration: real, i: nat, j: nat, x: real, y: real)
    requires var step := duration / NumOfTimestamps as real; x == step * i as real && y == step * j as real
    requires 0.0 <= x <= y <= duration
    ensures 0 <= TimestampTime(duration, i) <= TimestampTime(duration, j) <= Round(duration)
  {
    RoundChain(x, y, duration);
  }

  /** The first timestamp is at 0. */
  lemma TimestampZero(duration: real)
    ensures TimestampTime(duration, 0) == 0
  {
    assert (duration / NumOfTimestamps as real) * 0.0 == 0.0;
  }

  /** Rounding keeps three ordered non-negative times ordered. */
  lemma RoundChain(x: real, y: real, z: real)
    requires 0.0 <= x <= y <= z
    ensures 0 <= Round(x) <= Round(y) <= Round(z)
  {
    RoundMonotonic(0.0, x);
    RoundMonotonic(x, y);
    RoundMonotonic(y, z);
  }

  /** The timestamp times before rounding: multiples of a fifth of the duration, ordered
      like their indices and never past the duration. */
  lemma StepsOrdered(duration: real, i: nat, j: nat)
    requires 0.0 <= duration && i <= j <= NumOfTimestamps
    ensures var step := duration / NumOfTimestamps as real;
      0.0 <= step * i as real <= step * j as real <= duration
  {
    var step := duration / NumOfTimestamps as real;
    MulMonotonic(0.0, i as real, step);
    MulMonotonic(i as real, j as real, step);
    MulMonotonic(j as real, NumOfTimestamps as real, step);
  }

  /** One preview image's share of the media: the duration divided by the number of
      images that fit the timeline. */
  function ImageStep(timelineWidthPx: real, playerDuration: real): real
    requires timelineWidthPx > 0.0
  {
    playerDuration / (timelineWidthPx / VideoContainerWidth)
  }

  lemma ImageTimeInside(i: nat, timelineWidthPx: real, playerDuration: real)
    requires timelineWidthPx > 0.0 && 0.0 < playerDuration
    requires (i as real) < timelineWidthPx / VideoContainerWidth
    ensures 0.0 <= i as real * ImageStep(timelineWidthPx, playerDuration) < playerDuration
  {
    var n := timelineWidthPx / VideoContainerWidth;
    var step := ImageStep(timelineWidthPx, playerDuration);
    assert step * n == playerDuration;
    MulMonotonic(0.0, i as real, step);
    MulStrict(i as real, n, step);
  }

  /** The count and time arithmetic of setVideoTimelimeContent: enough 123px images to
      cover the timeline, the i-th showing the media at i image-steps. */
  method PreviewImageTimes(timelineWidthPx: real, playerDuration: real) returns (count: nat, times: seq<real>)
    requires 0.0 <= timelineWidthPx
    ensures count as int == Ceil(timelineWidthPx / VideoContainerWidth)
    ensures timelineWidthPx <= count as real * VideoContainerWidth < timelineWidthPx + VideoContainerWidth
    ensures |times| == count
    ensures count > 0 ==> (timelineWidthPx > 0.0 &&
      forall i :: 0 <= i < count ==> times[i] == i as real * ImageStep(timelineWidthPx, playerDuration))
    ensures 0.0 < playerDuration ==> forall i :: 0 <= i < count ==> 0.0 <= times[i] < playerDuration
  {
    count := Ceil(timelineWidthPx / VideoContainerWidth);
    times := [];
    var time := 0.0;
    var i := 0;
    while i < count
      invariant 0 <= i <= count
      invariant |times| == i
      invariant count > 0 ==> timelineWidthPx > 0.0
      invariant count > 0 ==> time == i as real * ImageStep(timelineWidthPx, playerDuration)
      invariant count > 0 ==> forall k :: 0 <= k < i ==> times[k] == k as real * ImageStep(timelineWidthPx, playerDuration)
      invariant 0.0 < playerDuration ==> forall k :: 0 <= k < i ==> 0.0 <= times[k] < playerDuration
    {
      if 0.0 < playerDuration {
        ImageTimeInside(i, timelineWidthPx, playerDuration);
      }
      times := times + [time];
      time := time + playerDuration / (timelineWidthPx / VideoContainerWidth);
      i := i + 1;
    }
  }

  /** Sets the text of each label element, in order. */
  method SetTexts(elements: array<string>, texts: seq<string>)
    requires elements.Length == |texts|
    modifies elements
    ensures elements[..] == texts
  {
    var i := 0;
    while i < elements.Length
      invariant 0 <= i <= elements.Length
      invariant forall k :: 0 <= k < i ==> elements[k] == texts[k]
    {
      elements[i] := texts[i];
      i := i + 1;
    }
  }

  /** The label loop of createTimeStamps and updateTimestamps: label i gets the text for
      `duration / 5 * i`. */
  method WriteTimestampLabels(labels: array<string>, duration: real)
    requires labels.Length == NumOfTimestamps
    modifies labels
    ensures labels[..] == TimestampLabels(duration)
  {
    SetTexts(labels, TimestampLabels(duration));
  }

  /** The events setSeeking leaves alone: presses on the left trim thumb, anything on the
      right trim thumb or on a marker, and buttons other than the main one. */
  predicate SeekIgnored(kind: EventKind, target: Target, button: Button) {
    || (IsPress(kind) && target == LeftThumbTarget) || target == RightThumbTarget || target.MarkerTarget?
    || !(button.None? || button.value == 0)
  }

  class Editor {
    /** `config.enabled && player.isHTML5 && player.isVideo`. */
    const enabled: bool
    /** `config.maxZoom`, the zoom slider's maximum. */
    const maxZoom: real
    /** Set by the first `canplay`. */
    var loaded: bool
    var shown: bool
    var seeking: bool
    /** The editor's elements exist (createEditor ran with the player loaded). */
    var created: bool
    var hidden: bool
    /** `zoom.scale`. */
    var scale: real
    /** The player duration the timestamp labels were last written for. */
    var duration: real
    var timelineWidth: real
    var timelineLeft: real
    var handleLeft: real
    /** Number of preview image wrappers created so far, and the width of their row in pixels. */
    var previewThumbCount: nat
    var imagesWidth: real
    /** The texts of the five timestamp labels. */
    const labels: array<string>
    ghost var events: seq<EditorEvent>

    /** The zoom scale stays in [1, maxZoom], the timeline's width follows it and the
        timeline covers the whole window (its offset keeps its right edge at or past the
        window's); the seek handle stays on the timeline. */
    ghost predicate Consistent()
      reads this
    {
      && labels.Length == NumOfTimestamps
      && 1.0 <= scale <= maxZoom
      && (created ==> loaded && timelineWidth == scale * 100.0)
      && (created ==> -(timelineWidth - 100.0) <= timelineLeft <= 0.0)
      && (!created ==> scale == 1.0)
      && 0.0 <= handleLeft <= 100.0
    }

    /** Besides: a loaded editor that is shown has been built. */
    ghost predicate Valid()
      reads this
    {
      Consistent() && (loaded && shown ==> created)
    }

    constructor (enabled: bool, maxZoom: real)
      requires 1.0 <= maxZoom
      ensures Valid() && fresh(labels)
      ensures this.enabled == enabled && this.maxZoom == maxZoom
      ensures !loaded && !shown && !seeking && !created && scale == 1.0 && duration == 0.0
      ensures events == []
    {
      this.enabled := enabled;
      this.maxZoom := maxZoom;
      loaded, shown, seeking, created, hidden := false, false, false, false, false;
      scale, duration := 1.0, 0.0;
      timelineWidth, timelineLeft, handleLeft := 100.0, 0.0, 0.0;
      previewThumbCount, imagesWidth := 0, 0.0;
      labels := new string[NumOfTimestamps](_ => "");
      events := [];
    }

    /** The editor is active when it is enabled and shown. */
    predicate Active()
      reads this
    {
      enabled && shown
    }

    /** Rewrites the timestamp labels for a new player duration; nothing happens when the
        duration is 0, is the one the labels were written for, or the labels do not exist. */
    method UpdateTimestamps(playerDuration: real)
      requires Valid()
      modifies this`duration, labels
      ensures Valid()
      ensures playerDuration == 0.0 || old(duration) == playerDuration || !created ==>
        duration == old(duration) && labels[..] == old(labels[..])
      ensures !(playerDuration == 0.0 || old(duration) == playerDuration || !created) ==>
        duration == playerDuration && labels[..] == TimestampLabels(playerDuration)
    {
      if playerDuration == 0.0 || duration == playerDuration || !created {
        return;
      }
      duration := playerDuration;
      WriteTimestampLabels(labels, playerDuration);
    }

    /** Sizes the row of preview images for the timeline's width: wrappers are created up to
        the number needed and reused after that. */
    method SetVideoTimelineContent(timelineWidthPx: real, playerDuration: real)
      requires Valid() && 0.0 <= timelineWidthPx
      modifies this`previewThumbCount, this`imagesWidth
      ensures Valid()
      ensures var needed := Ceil(timelineWidthPx / VideoContainerWidth);
        && previewThumbCount as int == (if needed > old(previewThumbCount) then needed else old(previewThumbCount))
        && imagesWidth == needed as real * VideoContainerWidth
        && timelineWidthPx <= imagesWidth
    {
      var count, times := PreviewImageTimes(timelineWidthPx, playerDuration);
      if count > previewThumbCount {
        previewThumbCount := count;
      }
      imagesWidth := count as real * VideoContainerWidth;
    }

    /** The scroll rule: moves the timeline by ScrolledOffset and, while playing or seeking,
        moves the seek handle by the shift the scroll caused, kept on the timeline. */
    method SetTimelineOffset(playing: bool, layout: Layout)
      requires Valid()
      modifies this`timelineLeft, this`handleLeft
      ensures Valid()
      ensures var offset := ScrolledOffset(old(timelineLeft), timelineWidth, layout.handleInView, seeking);
        && timelineLeft == offset
        && (offset == old(timelineLeft) || !(playing || seeking) ==> handleLeft == old(handleLeft))
        && (offset != old(timelineLeft) && (playing || seeking) ==>
              handleLeft == Clamp(old(handleLeft) + layout.handleShift, 0.0, 100.0))
    {
      var offset := ScrolledOffset(timelineLeft, timelineWidth, layout.handleInView, seeking);
      if offset == timelineLeft {
        return;
      }
      timelineLeft := offset;
      if !(playing || seeking) {
        return;
      }
      handleLeft := Clamp(handleLeft + layout.handleShift, 0.0, 100.0);
    }

    /** Puts the seek handle at the current time and scrolls the timeline to follow it,
        unless the editor is inactive or the user is seeking. */
    method SetSeekPosition(m: Media, layout: Layout)
      requires Valid() && Ready(m)
      modifies this`timelineLeft, this`handleLeft
      ensures Valid()
      ensures !Active() || seeking ==> timelineLeft == old(timelineLeft) && handleLeft == old(handleLeft)
      ensures Active() && !seeking ==>
        var percentage := PercentOf(m.currentTime, m.mediaDuration);
        var offset := ScrolledOffset(old(timelineLeft), timelineWidth, layout.handleInView, seeking);
        && timelineLeft == offset
        && handleLeft == if offset != old(timelineLeft) && m.playing
                         then Clamp(percentage + layout.handleShift, 0.0, 100.0)
                         else percentage
    {
      if !Active() || seeking {
        return;
      }
      handleLeft := PercentOf(m.currentTime, m.mediaDuration);
      SetTimelineOffset(m.playing, layout);
    }

    /** The state createEditor leaves: the elements are shown, the timeline at full width
        and unscrolled, the labels written for the player's duration, the image row sized
        for the timeline and, unless the user is seeking, the handle at the current time. */
    ghost predicate FreshlyBuilt(m: Media, layout: Layout)
      requires Ready(m)
      reads this, labels
    {
      var needed := Ceil(layout.timelineWidthPx / VideoContainerWidth);
      && created && !hidden && timelineWidth == 100.0 && timelineLeft == 0.0
      && labels[..] == TimestampLabels(m.duration)
      && imagesWidth == needed as real * VideoContainerWidth && needed <= previewThumbCount as int
      && (Active() && !seeking ==> handleLeft == PercentOf(m.currentTime, m.mediaDuration))
    }

    /** createEditor: builds the editor once the player is loaded. The timeline starts at
        full width, the labels are written for the player's duration, the images are sized
        and the seek handle is placed. */
    method CreateEditor(m: Media, layout: Layout)
      requires Consistent() && !created && shown && Ready(m) && 0.0 <= layout.timelineWidthPx
      modifies this`created, this`hidden, this`timelineWidth, this`timelineLeft, this`handleLeft
      modifies this`previewThumbCount, this`imagesWidth, this`events, labels
      ensures Valid()
      ensures created == old(loaded)
      ensures loaded == old(loaded) && shown == old(shown) && seeking == old(seeking) && scale == old(scale)
      ensures duration == old(duration)
      ensures !created ==> (labels[..] == old(labels[..]) && events == old(events)
        && hidden == old(hidden) && timelineLeft == old(timelineLeft) && handleLeft == old(handleLeft)
        && previewThumbCount == old(previewThumbCount) && imagesWidth == old(imagesWidth))
      ensures created ==> FreshlyBuilt(m, layout) && events == old(events) + [EditorLoaded]
      ensures created ==> var needed := Ceil(layout.timelineWidthPx / VideoContainerWidth);
        previewThumbCount as int == (if needed > old(previewThumbCount) then needed else old(previewThumbCount))
    {
      if !loaded {
        return;
      }
      created, hidden := true, false;
      timelineWidth, timelineLeft := 100.0, 0.0;
      WriteTimestampLabels(labels, m.duration);
      SetVideoTimelineContent(layout.timelineWidthPx, m.duration);
      SetSeekPosition(m, layout);
      events := events + [EditorLoaded];
    }

    /** Enters the editor: shows it, building it first if needed. Nothing happens when the
        editor is disabled or already active. */
    method Enter(m: Media, layout: Layout)
      requires Valid() && Ready(m) && 0.0 <= layout.timelineWidthPx
      modifies this, labels
      ensures Valid()
      ensures loaded == old(loaded) && seeking == old(seeking) && scale == old(scale) && duration == old(duration)
      ensures !enabled || old(Active()) ==> shown == old(shown) && created == old(created) && events == old(events)
      ensures enabled && !old(Active()) ==>
        && Active() && (created <==> loaded) && (created ==> !hidden)
        && events == old(events) + (if old(created) || !loaded then [] else [EditorLoaded]) + [EnterEditor]
      ensures enabled && !old(Active()) && !old(created) && loaded ==> FreshlyBuilt(m, layout)
    {
      if !enabled || Active() {
        return;
      }
      shown := true;
      if !created {
        CreateEditor(m, layout);
      }
      if created {
        hidden := false;
      }
      OnChange();
    }

    /** Exits the editor: hides it. Nothing happens when it is disabled or not shown. */
    method Exit()
      requires Valid()
      modifies this`shown, this`hidden, this`events
      ensures Valid()
      ensures !enabled || !old(shown) ==> shown == old(shown) && hidden == old(hidden) && events == old(events)
      ensures enabled && old(shown) ==>
        !Active() && (created ==> hidden) && events == old(events) + [ExitEditor]
    {
      if !enabled || !shown {
        return;
      }
      shown := false;
      if created {
        hidden := true;
      }
      OnChange();
    }

    /** Enters when inactive, exits when active: an enabled editor flips its active state. */
    method Toggle(m: Media, layout: Layout)
      requires Valid() && Ready(m) && 0.0 <= layout.timelineWidthPx
      modifies this, labels
      ensures Valid()
      ensures enabled ==> Active() == !old(Active())
      ensures !enabled ==> !Active() && events == old(events)
    {
      if !Active() {
        Enter(m, layout);
      } else {
        Exit();
      }
    }

    /** Reports the editor's state: `entereditor` when active, `exiteditor` otherwise. */
    method OnChange()
      modifies this`events
      ensures !enabled ==> events == old(events)
      ensures enabled ==> events == old(events) + [if Active() then EnterEditor else ExitEditor]
    {
      if !enabled {
        return;
      }
      events := events + [if Active() then EnterEditor else ExitEditor];
    }

    /** The first `canplay`: the player is loaded, and an editor entered before that is built now. */
    method OnCanPlay(m: Media, layout: Layout)
      requires Valid() && !loaded && Ready(m) && 0.0 <= layout.timelineWidthPx
      modifies this, labels
      ensures Valid() && loaded && (created <==> shown)
      ensures shown == old(shown) && scale == old(scale) && seeking == old(seeking)
      ensures shown ==> FreshlyBuilt(m, layout)
    {
      loaded := true;
      if shown {
        CreateEditor(m, layout);
      }
    }

    /** `loadeddata` / `loadedmetadata` on a loaded, shown editor: refresh the labels for the
        player's duration and resize the image row. */
    method OnLoadedData(playerDuration: real, layout: Layout)
      requires Valid() && 0.0 <= layout.timelineWidthPx
      modifies this`duration, labels, this`previewThumbCount, this`imagesWidth
      ensures Valid()
      ensures !(loaded && shown) ==> (duration == old(duration) && labels[..] == old(labels[..])
        && previewThumbCount == old(previewThumbCount) && imagesWidth == old(imagesWidth))
      ensures loaded && shown ==> var needed := Ceil(layout.timelineWidthPx / VideoContainerWidth);
        && previewThumbCount as int == (if needed > old(previewThumbCount) then needed else old(previewThumbCount))
        && imagesWidth == needed as real * VideoContainerWidth
        && (playerDuration == 0.0 || old(duration) == playerDuration ==>
              duration == old(duration) && labels[..] == old(labels[..]))
        && (playerDuration != 0.0 && old(duration) != playerDuration ==>
              duration == playerDuration && labels[..] == TimestampLabels(playerDuration))
    {
      if loaded && shown {
        UpdateTimestamps(playerDuration);
        SetVideoTimelineContent(layout.timelineWidthPx, playerDuration);
      }
    }

    /** setZoom: a wheel, slider or click event sets the scale (limited to [1, maxZoom]),
        widens the timeline to match and pans it so the anchor, the seek handle's position
        on the timeline, keeps its place in the window. Any other event changes nothing. */
    method SetZoom(e: ZoomEvent, anchor: real, layout: Layout, playerDuration: real)
      requires Valid() && created && 0.0 <= layout.timelineWidthPx && 0.0 <= anchor <= 100.0
      modifies this`scale, this`timelineWidth, this`timelineLeft, this`previewThumbCount, this`imagesWidth
      ensures Valid()
      ensures e.OtherZoomEvent? ==> (scale == old(scale) && timelineWidth == old(timelineWidth)
        && timelineLeft == old(timelineLeft) && previewThumbCount == old(previewThumbCount)
        && imagesWidth == old(imagesWidth))
      ensures !e.OtherZoomEvent? ==>
        && scale == ZoomedScale(old(scale), maxZoom, e)
        && timelineWidth == scale * 100.0
        && timelineLeft == PanOffset(scale, anchor)
        && var needed := Ceil(layout.timelineWidthPx / VideoContainerWidth);
        && imagesWidth == needed as real * VideoContainerWidth
        && previewThumbCount as int == (if needed > old(previewThumbCount) then needed else old(previewThumbCount))
    {
      if e.OtherZoomEvent? {
        return;
      }
      if e.Wheel? {
        // The wheel branch returns early when the new scale sits on the bound it moved away
        // from; under 1 <= scale <= maxZoom that cannot happen.
        WheelNeverAtBound(scale, maxZoom, e.deltaY);
      }
      scale := ZoomedScale(scale, maxZoom, e);
      timelineWidth := scale * 100.0;
      timelineLeft := PanOffset(scale, anchor);
      SetVideoTimelineContent(layout.timelineWidthPx, playerDuration);
    }

    /** setSeekTime: while the active editor is seeking, a press or drag moves the seek handle
        to the pointer (kept on the timeline) and returns the player's new current time. */
    method SetSeekTime(kind: EventKind, pointer: real, m: Media) returns (newTime: Option<real>)
      requires Valid() && Ready(m)
      modifies this`handleLeft, this`events
      ensures Valid()
      ensures !Active() || !seeking || !(IsPress(kind) || IsDrag(kind)) ==>
        newTime == None && handleLeft == old(handleLeft) && events == old(events)
      ensures Active() && seeking && (IsPress(kind) || IsDrag(kind)) ==>
        && handleLeft == Clamp(pointer, 0.0, 100.0)
        && newTime == Some(TimeAt(m.mediaDuration, handleLeft))
        && 0.0 <= newTime.value <= m.mediaDuration
        && PercentOf(newTime.value, m.mediaDuration) == handleLeft
        && events == old(events) + [Seeked]
    {
      newTime := None;
      if !Active() || !seeking {
        return;
      }
      if IsPress(kind) || IsDrag(kind) {
        var percentage := Clamp(pointer, 0.0, 100.0);
        handleLeft := percentage;
        newTime := Some(TimeAt(m.mediaDuration, percentage));
        TimeAtRoundTrip(m.mediaDuration, percentage);
        events := events + [Seeked];
      }
    }

    /** setSeeking: presses on a trim thumb or a marker belong to those tools and are ignored,
        as are buttons other than the main one. A press starts seeking, a release stops it;
        while seeking the event is passed on to SetSeekTime. */
    method SetSeeking(kind: EventKind, target: Target, button: Button, pointer: real, m: Media)
      returns (newTime: Option<real>)
      requires Valid() && Ready(m)
      modifies this`seeking, this`handleLeft, this`events
      ensures Valid()
      ensures var ignored := SeekIgnored(kind, target, button);
        var nowSeeking := if ignored then old(seeking) else if IsPress(kind) then true
                          else if IsRelease(kind) then false else old(seeking);
        var moves := !ignored && nowSeeking && Active() && (IsPress(kind) || IsDrag(kind));
        && seeking == nowSeeking
        && (ignored || !nowSeeking ==> events == old(events))
        && (!ignored && nowSeeking && !moves ==> events == old(events) + [Seeking])
        && (moves ==>
              && handleLeft == Clamp(pointer, 0.0, 100.0)
              && newTime == Some(TimeAt(m.mediaDuration, handleLeft))
              && events == old(events) + [Seeking, Seeked])
        && (!moves ==> handleLeft == old(handleLeft) && newTime == None)
        && (newTime.Some? ==> 0.0 <= newTime.value <= m.mediaDuration)
    {
      newTime := None;
      if SeekIgnored(kind, target, button) {
        return;
      }
      if IsPress(kind) {
        seeking := true;
      } else if IsRelease(kind) {
        seeking := false;
      }
      if seeking {
        events := events + [Seeking];
        newTime := SetSeekTime(kind, pointer, m);
      }
    }
  }
}
