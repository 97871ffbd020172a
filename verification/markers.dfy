/** Video markers (plugins/editor/markers.js): labelled points on the editor timeline that
    can be added, detached, selected with a press and dragged to a new position. */
module VideoMarkers {
  import opened Base
  import opened Player

  /** One marker element: its id, its `style.left` percentage on the timeline, the time
      held in its `aria-valuenow`, the text of its label child, and whether it is still
      attached to the page. */
  datatype Marker = Marker(id: string, left: real, time: real, caption: string, attached: bool)

  /** The events the plugin triggers on the media element. */
  datatype MarkerEvent = MarkerAdded(id: string, time: real) | MarkerChange(id: string, time: real)

  /** The label text: the id with every underscore turned into a space. */
  function Label(id: string): (caption: string)
    ensures |caption| == |id|
    ensures forall i :: 0 <= i < |id| ==> caption[i] == (if id[i] == '_' then ' ' else id[i])
  {
    if id == [] then [] else [if id[0] == '_' then ' ' else id[0]] + Label(id[1..])
  }

  /** `time || currentTime`: an absent time, or a time of 0 (falsy in JavaScript), falls
      back to the player's current time. */
  function MarkerTime(time: Option<real>, currentTime: real): real {
    if time.Some? && time.value != 0.0 then time.value else currentTime
  }

  /** A newly added marker at `markerTime`, placed at its percentage of the player's duration. */
  function NewMarker(id: string, markerTime: real, playerDuration: real): (m: Marker)
    requires playerDuration > 0.0
    ensures 0.0 <= m.left <= 100.0 && m.attached && m.id == id && m.time == markerTime
    ensures m.caption == Label(id)
    ensures 0.0 <= markerTime <= playerDuration ==> TimeAt(playerDuration, m.left) == markerTime
    ensures markerTime < 0.0 ==> m.left == 0.0
    ensures markerTime > playerDuration ==> m.left == 100.0
  {
    var left := PercentOf(markerTime, playerDuration);
    assert 0.0 <= markerTime <= playerDuration ==> TimeAt(playerDuration, left) == markerTime by {
      if 0.0 <= markerTime <= playerDuration { PercentRoundTrip(markerTime, playerDuration); }
    }
    Marker(id, left, markerTime, Label(id), true)
  }

  /** The selected marker after a drag to `pointer` percent of the timeline: the position is
      clamped to [0, 100] and the stored time follows it. */
  function Moved(m: Marker, pointer: real, mediaDuration: real): (r: Marker)
    requires 0.0 <= mediaDuration
    ensures 0.0 <= r.left <= 100.0 && 0.0 <= r.time <= mediaDuration
    ensures r.id == m.id && r.caption == m.caption && r.attached == m.attached
    ensures 0.0 <= pointer <= 100.0 ==> r.left == pointer
    ensures pointer < 0.0 ==> r.left == 0.0
    ensures pointer > 100.0 ==> r.left == 100.0
    ensures mediaDuration > 0.0 ==> PercentOf(r.time, mediaDuration) == r.left
  {
    var p := Clamp(pointer, 0.0, 100.0);
    assert mediaDuration > 0.0 ==> PercentOf(TimeAt(mediaDuration, p), mediaDuration) == p by {
      if mediaDuration > 0.0 { TimeAtRoundTrip(mediaDuration, p); }
    }
    m.(left := p, time := TimeAt(mediaDuration, p))
  }

  /** Moving again to the same pointer changes nothing, and a later move overrides an earlier one. */
  lemma MovedIdempotent(m: Marker, pointer: real, other: real, mediaDuration: real)
    requires 0.0 <= mediaDuration
    ensures Moved(Moved(m, pointer, mediaDuration), pointer, mediaDuration) == Moved(m, pointer, mediaDuration)
    ensures Moved(Moved(m, other, mediaDuration), pointer, mediaDuration) == Moved(m, pointer, mediaDuration)
  {
  }

  class Markers {
    /** `config.enabled && player.editor.enabled && player.isHTML5 && player.isVideo`. */
    const enabled: bool
    /** `elements.markers`, in the order the markers were added. */
    var markers: seq<Marker>
    /** The marker being dragged, by its position in `markers`. */
    var editing: Option<nat>
    ghost var events: seq<MarkerEvent>

    ghost predicate Valid()
      reads this
    {
      (editing.Some? ==> editing.value < |markers|) &&
      forall i :: 0 <= i < |markers| ==> 0.0 <= markers[i].left <= 100.0 && markers[i].caption == Label(markers[i].id)
    }

    constructor (enabled: bool)
      ensures Valid() && this.enabled == enabled
      ensures markers == [] && editing == None && events == []
    {
      this.enabled := enabled;
      markers := [];
      editing := None;
      events := [];
    }

    /** Markers are active when enabled and at least one has been added. */
    predicate Active()
      reads this
    {
      enabled && |markers| > 0
    }

    /** Adds a marker at `time` (or at the current time) when the editor has a timeline. */
    method AddMarker(id: string, time: Option<real>, m: Media, hasTimeline: bool)
      requires Valid()
      requires hasTimeline ==> m.duration > 0.0
      modifies this`markers, this`events
      ensures Valid()
      ensures !hasTimeline ==> markers == old(markers) && events == old(events)
      ensures hasTimeline ==>
        var markerTime := MarkerTime(time, m.currentTime);
        && markers == old(markers) + [NewMarker(id, markerTime, m.duration)]
        && events == old(events) + [MarkerAdded(id, markerTime)]
        && (Active() <==> enabled)
    {
      var markerTime := MarkerTime(time, m.currentTime);
      if !hasTimeline {
        return;
      }
      markers := markers + [NewMarker(id, markerTime, m.duration)];
      events := events + [MarkerAdded(id, markerTime)];
    }

    /** Detaches every marker whose id is `id`; the list keeps its length. */
    method RemoveMarker(id: string)
      requires Valid()
      modifies this`markers
      ensures Valid()
      ensures |markers| == |old(markers)| && Active() == old(Active())
      ensures forall k :: 0 <= k < |markers| ==>
        markers[k] == if old(markers)[k].id == id then old(markers)[k].(attached := false) else old(markers)[k]
    {
      var i := 0;
      while i < |markers|
        invariant 0 <= i <= |markers| == |old(markers)|
        invariant Valid()
        invariant forall k :: 0 <= k < i ==>
          markers[k] == if old(markers)[k].id == id then old(markers)[k].(attached := false) else old(markers)[k]
        invariant forall k :: i <= k < |markers| ==> markers[k] == old(markers)[k]
      {
        if markers[i].id == id {
          markers := markers[i := markers[i].(attached := false)];
        }
        i := i + 1;
      }
    }

    /** Detaches every marker. */
    method RemoveMarkers()
      requires Valid()
      modifies this`markers
      ensures Valid()
      ensures |markers| == |old(markers)|
      ensures forall k :: 0 <= k < |markers| ==> markers[k] == old(markers)[k].(attached := false)
    {
      var i := 0;
      while i < |markers|
        invariant 0 <= i <= |markers| == |old(markers)|
        invariant Valid()
        invariant forall k :: 0 <= k < i ==> markers[k] == old(markers)[k].(attached := false)
        invariant forall k :: i <= k < |markers| ==> markers[k] == old(markers)[k]
      {
        markers := markers[i := markers[i].(attached := false)];
        i := i + 1;
      }
    }

    /** A press on a marker selects it; a release reports the selected marker's id and time
        and clears the selection. Presses reach this method only through a marker's own
        listener, and releases only while a marker is selected. */
    method SetEditing(kind: EventKind, target: Target)
      requires Valid()
      requires IsPress(kind) ==> target.MarkerTarget? && target.index < |markers|
      requires IsRelease(kind) ==> editing.Some?
      modifies this`editing, this`events
      ensures Valid()
      ensures IsRelease(kind) ==>
        var selected := old(markers)[old(editing).value];
        editing == None && events == old(events) + [MarkerChange(selected.id, selected.time)]
      ensures IsPress(kind) ==> editing == Some(target.index) && events == old(events)
      ensures !IsRelease(kind) && !IsPress(kind) ==> editing == old(editing) && events == old(events)
    {
      if IsRelease(kind) {
        var selected := markers[editing.value];
        events := events + [MarkerChange(selected.id, selected.time)];
        editing := None;
      } else if IsPress(kind) {
        editing := Some(target.index);
      }
    }

    /** Drags the selected marker to `pointer` percent of the timeline; nothing happens when
        no marker is selected. */
    method SetMarkerPosition(pointer: real, mediaDuration: real)
      requires Valid() && 0.0 <= mediaDuration
      modifies this`markers
      ensures Valid()
      ensures editing.None? ==> markers == old(markers)
      ensures editing.Some? ==>
        markers == old(markers)[editing.value := Moved(old(markers)[editing.value], pointer, mediaDuration)]
    {
      if editing.None? {
        return;
      }
      var k := editing.value;
      markers := markers[k := Moved(markers[k], pointer, mediaDuration)];
    }
  }
}
