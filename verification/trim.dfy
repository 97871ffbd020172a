/** The trim tool (plugins/editor/trim.js): a bar on the editor timeline whose two thumbs
    choose a clip. The clip is kept twice: as times in seconds (`startTime`, `endTime`) and
    as the bar's `left` and `width` in percent of the timeline, with two shaded regions
    covering the rest of the timeline. During playback the clip is enforced. */
module TrimTool {
  import opened Base
  import opened Player
  import opened EditorView

  /** The initial bar length, in percent of the timeline. */
  const DefaultTrimLength: real := 20.0

  /** The thumb being dragged. */
  datatype Thumb = NotEditing | EditingLeft | EditingRight

  /** `trimTime`: the clip in seconds. */
  datatype TrimRange = TrimRange(startTime: real, endTime: real)

  /** The events the tool triggers on the media element, each carrying the clip. */
  datatype TrimEvent = TrimChange(range: TrimRange) | EnterTrim(range: TrimRange) | ExitTrim(range: TrimRange)

  /** The width a style holds after `written`% is assigned to it: a negative width is not
      a valid value, so the assignment is dropped and `current` stays. */
  function CssWidth(current: real, written: real): (w: real)
    ensures 0.0 <= current ==> 0.0 <= w
    ensures w == written || (written < 0.0 && w == current)
  {
    if written >= 0.0 then written else current
  }

  /** The bar createTrimBar lays out, as (start, end) percentages: it starts at the current
      time and runs 20% further, cut off at the end of the timeline. */
  function InitialBar(currentTime: real, playerDuration: real): (bar: (real, real))
    requires playerDuration > 0.0
    ensures 0.0 <= bar.0 <= bar.1 <= 100.0
    ensures bar.1 - bar.0 == DefaultTrimLength || (bar.1 == 100.0 && bar.1 - bar.0 <= DefaultTrimLength)
    ensures bar.0 == PercentOf(currentTime, playerDuration)
    ensures 0.0 <= currentTime <= playerDuration ==> TimeAt(playerDuration, bar.0) == currentTime
  {
    var start := PercentOf(currentTime, playerDuration);
    assert 0.0 <= currentTime <= playerDuration ==> TimeAt(playerDuration, start) == currentTime by {
      if 0.0 <= currentTime <= playerDuration { PercentRoundTrip(currentTime, playerDuration); }
    }
    (start, Min(start + DefaultTrimLength, 100.0))
  }

  class Trim {
    /** `config.enabled && player.isHTML5 && player.isVideo`. */
    const enabled: bool
    /** `config.closeEditor`: leaving the trim tool also closes the editor. */
    const closeEditor: bool
    /** Set by the first `canplay`. */
    var loaded: bool
    var trimming: bool
    var editing: Thumb
    var startTime: real
    var endTime: real
    /** `player.media.duration`, which the start and end times are fractions of; it is read
        when the bar is created and taken as fixed from then on. */
    var mediaDuration: real
    /** The tool's elements (container, bar, thumbs, shaded regions) exist. */
    var created: bool
    var hidden: bool
    /** The bar's `style.left` and `style.width`, in percent of the timeline. */
    var barLeft: real
    var barWidth: real
    /** The shaded region before the bar (its width) and after it (its left and width). */
    var shadeBeforeWidth: real
    var shadeAfterLeft: real
    var shadeAfterWidth: real
    ghost var events: seq<TrimEvent>

    /** The shaded regions cover the timeline outside the bar; while the bar runs past the
        end of the timeline the after-region keeps the last width it accepted. */
    ghost predicate ShadesMatchBar()
      reads this
    {
      && shadeBeforeWidth == barLeft
      && shadeAfterLeft == barLeft + barWidth
      && (barLeft + barWidth <= 100.0 ==> shadeAfterWidth == 100.0 - (barLeft + barWidth))
      && 0.0 <= shadeAfterWidth
    }

    /** The bar's left edge stays on the timeline and its width is never negative (its
        right edge can run past the end, see SetTrimLength); the clip start is the time at
        the bar's left edge, and the clip lies inside the media with its start at or before
        its end; a thumb can only be held once the tool exists. */
    ghost predicate Valid()
      reads this
    {
      && (created ==> loaded)
      && (editing != NotEditing ==> created)
      && 0.0 <= mediaDuration
      && (created ==> 0.0 <= barLeft <= 100.0 && 0.0 <= barWidth && ShadesMatchBar())
      && (created ==> startTime == TimeAt(mediaDuration, barLeft)
                      && 0.0 <= startTime <= endTime <= mediaDuration)
    }

    constructor (enabled: bool, closeEditor: bool)
      ensures Valid() && this.enabled == enabled && this.closeEditor == closeEditor
      ensures !loaded && !trimming && editing == NotEditing && !created
      ensures startTime == 0.0 && endTime == 0.0 && events == []
    {
      this.enabled, this.closeEditor := enabled, closeEditor;
      loaded, trimming, editing := false, false, NotEditing;
      startTime, endTime, mediaDuration := 0.0, 0.0, 0.0;
      created, hidden := false, false;
      barLeft, barWidth := 0.0, 0.0;
      shadeBeforeWidth, shadeAfterLeft, shadeAfterWidth := 0.0, 0.0, 0.0;
      events := [];
    }

    /** The tool is active when it is enabled and trimming. */
    predicate Active()
      reads this
    {
      enabled && trimming
    }

    function TrimTime(): TrimRange
      reads this
    {
      TrimRange(startTime, endTime)
    }

    /** Stores `percentage` of the media's duration as the clip start. */
    method SetStartTime(percentage: real)
      requires 0.0 <= mediaDuration
      modifies this`startTime
      ensures startTime == TimeAt(mediaDuration, percentage)
      ensures 0.0 <= percentage <= 100.0 ==> 0.0 <= startTime <= mediaDuration
    {
      startTime := TimeAt(mediaDuration, percentage);
    }

    /** Stores `percentage` of the media's duration as the clip end. */
    method SetEndTime(percentage: real)
      requires 0.0 <= mediaDuration
      modifies this`endTime
      ensures endTime == TimeAt(mediaDuration, percentage)
      ensures 0.0 <= percentage <= 100.0 ==> 0.0 <= endTime <= mediaDuration
    {
      endTime := TimeAt(mediaDuration, percentage);
    }

    /** Lays the shaded regions out around the bar. The after-region's width is written as
        `100 - right edge`; when that is negative the style rejects it and the old width
        stays. */
    method SetShadedRegions()
      requires 0.0 <= barLeft && (barLeft + barWidth > 100.0 ==> 0.0 <= shadeAfterWidth)
      modifies this`shadeBeforeWidth, this`shadeAfterLeft, this`shadeAfterWidth
      ensures ShadesMatchBar()
      ensures barLeft + barWidth <= 100.0 ==> shadeBeforeWidth + barWidth + shadeAfterWidth == 100.0
      ensures barLeft + barWidth > 100.0 ==> shadeAfterWidth == old(shadeAfterWidth)
    {
      shadeBeforeWidth := barLeft;
      shadeAfterLeft := barLeft + barWidth;
      shadeAfterWidth := CssWidth(shadeAfterWidth, 100.0 - (barLeft + barWidth));
    }

    /** createTrimBar: the bar starts at the current time and runs 20% further (at most to
        the end); the clip times follow, and the new clip is reported. */
    method CreateTrimBar(m: Media)
      requires Ready(m)
      modifies this`mediaDuration, this`barLeft, this`barWidth, this`startTime, this`endTime, this`events
      ensures mediaDuration == m.mediaDuration
      ensures var bar := InitialBar(m.currentTime, m.duration);
        && barLeft == bar.0 && barWidth == bar.1 - bar.0
        && startTime == TimeAt(m.mediaDuration, bar.0) && endTime == TimeAt(m.mediaDuration, bar.1)
        && 0.0 <= startTime <= endTime <= mediaDuration
        && events == old(events) + [TrimChange(TrimTime())]
    {
      var bar := InitialBar(m.currentTime, m.duration);
      mediaDuration := m.mediaDuration;
      SetStartTime(bar.0);
      SetEndTime(bar.1);
      TimeAtMonotonic(m.mediaDuration, bar.0, bar.1);
      barLeft := bar.0;
      barWidth := bar.1 - bar.0;
      events := events + [TrimChange(TrimTime())];
    }

    /** createTrimTool: builds the container, bar and shaded regions once the player is
        loaded; before that nothing happens. */
    method CreateTrimTool(m: Media)
      requires Valid() && !created && Ready(m)
      modifies this`created, this`hidden, this`mediaDuration, this`barLeft, this`barWidth,
        this`startTime, this`endTime, this`shadeBeforeWidth, this`shadeAfterLeft, this`shadeAfterWidth, this`events
      ensures Valid() && created == loaded
      ensures !created ==> (hidden == old(hidden) && startTime == old(startTime) && endTime == old(endTime)
        && events == old(events))
      ensures created ==> (!hidden && startTime <= endTime
        && barLeft == InitialBar(m.currentTime, m.duration).0
        && events == old(events) + [TrimChange(TrimTime())])
    {
      if !loaded {
        return;
      }
      created, hidden := true, false;
      CreateTrimBar(m);
      SetShadedRegions();
    }

    /** showTrimTool: opens the editor if it is not active, builds the tool if it does not
        exist yet, and unhides it. */
    method ShowTrimTool(editor: Editor, m: Media, layout: Layout)
      requires Valid() && editor.Valid() && Ready(m) && 0.0 <= layout.timelineWidthPx
      modifies this, editor, editor.labels
      ensures Valid() && editor.Valid()
      ensures trimming == old(trimming) && editing == old(editing) && loaded == old(loaded)
      ensures created <==> loaded
      ensures created ==> !hidden
      ensures editor.enabled ==> editor.Active()
      ensures old(created) || !loaded ==> events == old(events) && TrimTime() == old(TrimTime())
      ensures !old(created) && loaded ==> events == old(events) + [TrimChange(TrimTime())]
    {
      if !editor.Active() {
        editor.Enter(m, layout);
      }
      if !created {
        CreateTrimTool(m);
      }
      if created {
        hidden := false;
      }
    }

    /** hideTrimTool: hides the tool, and closes the editor when so configured. */
    method HideTrimTool(editor: Editor)
      requires Valid() && editor.Valid()
      modifies this`hidden, editor
      ensures Valid() && editor.Valid()
      ensures created ==> hidden
      ensures closeEditor && editor.enabled ==> !editor.Active()
      ensures !closeEditor ==> unchanged(editor)
    {
      if closeEditor {
        editor.Exit();
      }
      if created {
        hidden := true;
      }
    }

    /** A release while a thumb is held lets go of it and reports the clip; a press on a
        thumb takes hold of it. */
    method SetEditing(kind: EventKind, target: Target)
      requires Valid()
      requires IsPress(kind) && (target == LeftThumbTarget || target == RightThumbTarget) ==> created
      modifies this`editing, this`events
      ensures Valid()
      ensures IsRelease(kind) && old(editing) != NotEditing ==>
        editing == NotEditing && events == old(events) + [TrimChange(TrimTime())]
      ensures IsPress(kind) && target == LeftThumbTarget ==> editing == EditingLeft && events == old(events)
      ensures IsPress(kind) && target == RightThumbTarget ==> editing == EditingRight && events == old(events)
      ensures (!(IsRelease(kind) && old(editing) != NotEditing)
               && !(IsPress(kind) && (target == LeftThumbTarget || target == RightThumbTarget))) ==>
        editing == old(editing) && events == old(events)
    {
      if IsRelease(kind) && editing == EditingLeft {
        editing := NotEditing;
        events := events + [TrimChange(TrimTime())];
      } else if IsRelease(kind) && editing == EditingRight {
        editing := NotEditing;
        events := events + [TrimChange(TrimTime())];
      } else if IsPress(kind) && target == LeftThumbTarget {
        editing := EditingLeft;
      } else if IsPress(kind) && target == RightThumbTarget {
        editing := EditingRight;
      }
    }

    /** setTrimLength: drags the held thumb to `pointer` percent of the timeline (kept on
        the timeline). The left thumb moves the bar's left edge and the start time, keeping
        the right edge, and pulls the end time along if the start passes it; dragged past
        the right edge, the width it writes is negative, the style rejects it, and the bar
        keeps its old width from the new left edge. The right thumb moves the right edge and
        the end time, but never onto or before the left edge. */
    method SetTrimLength(pointer: real)
      requires Valid()
      modifies this`barLeft, this`barWidth, this`startTime, this`endTime,
        this`shadeBeforeWidth, this`shadeAfterLeft, this`shadeAfterWidth
      ensures Valid()
      ensures created ==> startTime == TimeAt(mediaDuration, barLeft) && startTime <= endTime
      ensures var p := Clamp(pointer, 0.0, 100.0);
        && (editing == NotEditing || (editing == EditingRight && p <= old(barLeft)) ==>
              barLeft == old(barLeft) && barWidth == old(barWidth)
              && startTime == old(startTime) && endTime == old(endTime))
        && (editing == EditingLeft ==>
              && barLeft == p
              && (p <= old(barLeft + barWidth) ==> barLeft + barWidth == old(barLeft + barWidth))
              && (p > old(barLeft + barWidth) ==> barWidth == old(barWidth))
              && startTime == TimeAt(mediaDuration, p)
              && endTime == (if startTime > old(endTime) then startTime else old(endTime))
              && startTime <= endTime)
        && (editing == EditingRight && p > old(barLeft) ==>
              && barLeft == old(barLeft) && barWidth == p - barLeft && barWidth > 0.0
              && startTime == old(startTime) && endTime == TimeAt(mediaDuration, p))
    {
      if editing == NotEditing {
        return;
      }
      var percentage := Clamp(pointer, 0.0, 100.0);
      if editing == EditingLeft {
        barWidth := CssWidth(barWidth, barWidth - (percentage - barLeft));
        barLeft := percentage;
        SetStartTime(percentage);
        if startTime > endTime {
          SetEndTime(percentage);
        }
      } else {
        if percentage <= barLeft {
          return;
        }
        barWidth := percentage - barLeft;
        SetEndTime(percentage);
        TimeAtMonotonic(mediaDuration, barLeft, percentage);
      }
      SetShadedRegions();
    }

    /** timeUpdate: during playback of an active tool with no thumb held, a current time
        outside [startTime, endTime) sends the player back to the start, and one at or past
        the end also pauses it. Returns the seek target and whether to pause. */
    method TimeUpdate(m: Media) returns (seekTo: Option<real>, pause: bool)
      ensures pause ==> seekTo.Some?
      ensures !(Active() && m.playing && editing == NotEditing) ==> seekTo == None && !pause
      ensures Active() && m.playing && editing == NotEditing ==>
        && (seekTo.Some? <==> m.currentTime < startTime || m.currentTime >= endTime)
        && (pause <==> m.currentTime >= endTime)
      ensures seekTo.Some? ==> seekTo.value == startTime
      ensures seekTo.Some? && startTime < endTime ==> startTime <= seekTo.value < endTime
    {
      seekTo, pause := None, false;
      if !Active() || !trimming || !m.playing || editing != NotEditing {
        return;
      }
      if m.currentTime < startTime || m.currentTime >= endTime {
        seekTo := Some(startTime);
        if m.currentTime >= endTime {
          pause := true;
        }
      }
    }

    /** Reports the tool's state: `entertrim` when active, `exittrim` otherwise. */
    method OnChange()
      modifies this`events
      ensures !enabled ==> events == old(events)
      ensures enabled ==> events == old(events) + [if Active() then EnterTrim(TrimTime()) else ExitTrim(TrimTime())]
    {
      if !enabled {
        return;
      }
      events := events + [if Active() then EnterTrim(TrimTime()) else ExitTrim(TrimTime())];
    }

    /** Enters the trim tool: starts trimming, shows the tool (opening the editor) and
        reports it. Nothing happens when the tool is disabled. */
    method Enter(editor: Editor, m: Media, layout: Layout)
      requires Valid() && editor.Valid() && Ready(m) && 0.0 <= layout.timelineWidthPx
      modifies this, editor, editor.labels
      ensures Valid() && editor.Valid()
      ensures !enabled ==> unchanged(this) && unchanged(editor)
      ensures enabled ==>
        && Active() && (created <==> loaded) && (created ==> !hidden)
        && (editor.enabled ==> editor.Active())
        && events == old(events) + (if !old(created) && loaded then [TrimChange(TrimTime())] else [])
                                 + [EnterTrim(TrimTime())]
    {
      if !enabled {
        return;
      }
      trimming := true;
      ShowTrimTool(editor, m, layout);
      OnChange();
    }

    /** Exits the trim tool: stops trimming, hides the tool (closing the editor when so
        configured) and reports it. Nothing happens when the tool is disabled. */
    method Exit(editor: Editor)
      requires Valid() && editor.Valid()
      modifies this, editor
      ensures Valid() && editor.Valid()
      ensures !enabled ==> unchanged(this) && unchanged(editor)
      ensures enabled ==>
        && !Active() && (created ==> hidden)
        && TrimTime() == old(TrimTime()) && editing == old(editing)
        && (closeEditor && editor.enabled ==> !editor.Active())
        && (!closeEditor ==> unchanged(editor))
        && events == old(events) + [ExitTrim(TrimTime())]
    {
      if !enabled {
        return;
      }
      trimming := false;
      HideTrimTool(editor);
      OnChange();
    }

    /** Enters when inactive, exits when active: an enabled tool flips its active state. */
    method Toggle(editor: Editor, m: Media, layout: Layout)
      requires Valid() && editor.Valid() && Ready(m) && 0.0 <= layout.timelineWidthPx
      modifies this, editor, editor.labels
      ensures Valid() && editor.Valid()
      ensures enabled ==> Active() == !old(Active())
      ensures !enabled ==> unchanged(this)
    {
      if !Active() {
        Enter(editor, m, layout);
      } else {
        Exit(editor);
      }
    }

    /** The first `canplay`: the player is loaded, and a tool entered before that is built now. */
    method OnCanPlay(m: Media)
      requires Valid() && !loaded && Ready(m)
      modifies this`loaded, this`created, this`hidden, this`mediaDuration, this`barLeft, this`barWidth,
        this`startTime, this`endTime, this`shadeBeforeWidth, this`shadeAfterLeft, this`shadeAfterWidth, this`events
      ensures Valid() && loaded
      ensures created <==> trimming
      ensures created ==> !hidden && startTime <= endTime && events == old(events) + [TrimChange(TrimTime())]
      ensures !created ==> events == old(events)
    {
      loaded := true;
      if trimming {
        CreateTrimTool(m);
      }
    }
  }
}
