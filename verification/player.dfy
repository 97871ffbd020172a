/** What the editor plugins read from the page and from the player: the kind of a pointer
    event, the element it hit, the mouse button, the player's durations and clock, and the
    layout measurements (`getBoundingClientRect`, `pageX`) already turned into percentages. */
module Player {
  import opened Base

  datatype EventKind = MouseDown | TouchStart | MouseMove | TouchMove | MouseUp | TouchEnd | OtherKind

  /** `mousedown` or `touchstart`. */
  predicate IsPress(k: EventKind) { k == MouseDown || k == TouchStart }

  /** `mouseup` or `touchend`. */
  predicate IsRelease(k: EventKind) { k == MouseUp || k == TouchEnd }

  /** `mousemove` or `touchmove`. */
  predicate IsDrag(k: EventKind) { k == MouseMove || k == TouchMove }

  /** The element an event hit, told apart by the class names the plugins test:
      a trim thumb, the marker with the given position in the marker list, or anything else. */
  datatype Target = LeftThumbTarget | RightThumbTarget | MarkerTarget(index: nat) | OtherTarget

  /** `event.button`: None stands for a touch event, where it is undefined. */
  type Button = Option<int>

  /** The player properties the plugins read: `player.duration` (which a configured duration
      may override), `player.media.duration`, `player.currentTime` and `player.playing`. */
  datatype Media = Media(duration: real, mediaDuration: real, currentTime: real, playing: bool)

  /** Both durations are known: the plugins divide by them once the media can play. */
  predicate Ready(m: Media) { m.duration > 0.0 && m.mediaDuration > 0.0 }

  /** Layout read from the page, in the units the editor uses:
      timelineWidthPx   the rendered width of the timeline, in pixels;
      handleInView      where the seek handle sits in the visible editor window, in percent;
      handleShift       how far the seek handle moved, in percent of the timeline, when the
                        timeline was scrolled (`seekPos.left - seekPosUpdated`, scaled). */
  datatype Layout = Layout(timelineWidthPx: real, handleInView: real, handleShift: real)
}
