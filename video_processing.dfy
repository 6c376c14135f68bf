/** The per-stream loop of files/videoProcessing.py (`play_video`) and the
    start of the workers (`play_multiple_videos`).

    A stream is a video that either opens or not and that decodes
    `frameCount` frames; read `k` returns `Frame(stream, k)` while
    `k < frameCount` and fails after. The shared stop flag is sampled before
    each read; `stopBeforeRead[k]` is its value before read `k` (false past
    the end of the sequence). The vehicle detector `carModel` and the
    plate/character detector are parameters. Every vehicle box of a frame
    that lies in the zone yields one event: its crop, the identifier read off
    it, and the decision shown on the frame. */
module VideoProcessing {
  import opened Wrappers
  import opened Detections
  import opened ZoneSettings
  import opened Recognition

  // ---------------------------------------------------------------------
  // Crossing test
  // ---------------------------------------------------------------------

  /** Class 0 is a car, class 1 an emergency vehicle. */
  predicate IsVehicle(b: Box) {
    b.cls == 0 || b.cls == 1
  }

  /** The box's bottom edge is strictly between the upper and lower lines,
      and the box lies between the left and right lines, edges included. */
  predicate InZone(b: Box, z: Zone) {
    z.y < b.y2 < z.yz && b.x2 <= z.x && b.x1 >= z.xz
  }

  predicate Triggers(b: Box, z: Zone) {
    IsVehicle(b) && InZone(b, z)
  }

  /** A bottom edge on the upper or the lower line never triggers. */
  lemma HorizontalLinesExcluded(b: Box, z: Zone)
    requires b.y2 == z.y || b.y2 == z.yz
    ensures !Triggers(b, z)
  {
  }

  /** A box touching the right and the left line does trigger. */
  lemma VerticalLinesIncluded(b: Box, z: Zone)
    requires IsVehicle(b) && z.y < b.y2 < z.yz && b.x2 == z.x && b.x1 == z.xz
    ensures Triggers(b, z)
  {
  }

  // ---------------------------------------------------------------------
  // Decision for one vehicle
  // ---------------------------------------------------------------------

  /** The plate/character detector, its names table and the allow-list of
      the run. */
  datatype Recogniser = Recogniser(
    plateModel: Image -> seq<Box>,
    names: map<nat, string>,
    allowList: Option<seq<string>>)

  /** The identifier written into the saved crop's name, and whether the
      vehicle may pass. */
  datatype Verdict = Verdict(identifier: string, passed: bool)

  /** The identifier read off a vehicle crop: plate localisation, then
      character ordering on the plate image. */
  function Recognise(crop: Image, rec: Recogniser): string {
    var plate := PlateOf(crop, rec.plateModel(crop));
    Identifier(rec.plateModel(plate), rec.names)
  }

  /** Cars are checked against the allow-list; any other vehicle passes and
      its identifier is cleared. */
  function VerdictFor(vehicle: Box, crop: Image, rec: Recogniser): Verdict {
    if vehicle.cls == 0 then
      var id := Recognise(crop, rec);
      Verdict(id, Listed(id, rec.allowList))
    else Verdict("", true)
  }

  /** Recognise the crop and decide (the body of the crossing branch). */
  method Decide(vehicle: Box, crop: Image, rec: Recogniser) returns (v: Verdict)
    ensures v == VerdictFor(vehicle, crop, rec)
    ensures vehicle.cls == 0 ==> (v.passed <==> Listed(v.identifier, rec.allowList))
    ensures vehicle.cls != 0 ==> v.passed && v.identifier == ""
  {
    var plate := ImageProcessing(crop, rec.plateModel);
    var autoNumber := NumberProcessing(plate, rec.plateModel, rec.names);
    if vehicle.cls == 0 {
      var passed := ComparisonNumber(autoNumber, rec.allowList);
      v := Verdict(autoNumber, passed);
    } else {
      v := Verdict("", true);
    }
  }

  /** A car is never let through when the allow-list cannot be read. */
  lemma UnreadableListStopsCars(vehicle: Box, crop: Image, rec: Recogniser)
    requires vehicle.cls == 0 && rec.allowList.None?
    ensures !VerdictFor(vehicle, crop, rec).passed
  {
  }

  /** The text drawn on the frame for a decision. */
  function Banner(passed: bool): (text: string)
    ensures text == "MISS" || text == "STOP"
    ensures text == "MISS" <==> passed
  {
    if passed then "MISS" else "STOP"
  }

  // ---------------------------------------------------------------------
  // One frame
  // ---------------------------------------------------------------------

  /** What one crossing leaves behind: the frame index, the vehicle box, the
      saved crop and its identifier, the decision and its banner. */
  datatype Event = Event(frame: nat, vehicle: Box, crop: Image, identifier: string,
                         passed: bool, banner: string)

  function EventFor(k: nat, frame: Image, b: Box, rec: Recogniser): Event {
    var crop := Crop(frame, b);
    var v := VerdictFor(b, crop, rec);
    Event(k, b, crop, v.identifier, v.passed, Banner(v.passed))
  }

  /** The decision for each box of frame `k`. */
  function Decider(k: nat, frame: Image, rec: Recogniser): Box -> Event {
    b => EventFor(k, frame, b, rec)
  }

  /** Every event records the box it was made for. */
  ghost predicate KeepsVehicle(mk: Box -> Event) {
    forall b :: mk(b).vehicle == b
  }

  lemma DeciderKeepsVehicle(k: nat, frame: Image, rec: Recogniser)
    ensures KeepsVehicle(Decider(k, frame, rec))
    ensures forall b :: Decider(k, frame, rec)(b).frame == k
  {
  }

  /** The events of one detection list, built box by box in detection order,
      `mk` deciding each triggering box. */
  function EventsOf(dets: seq<Box>, z: Zone, mk: Box -> Event): seq<Event> {
    if dets == [] then []
    else
      var b := dets[|dets| - 1];
      EventsOf(dets[..|dets| - 1], z, mk) + (if Triggers(b, z) then [mk(b)] else [])
  }

  /** The events of frame `k`. */
  function FrameEvents(k: nat, frame: Image, dets: seq<Box>, z: Zone, rec: Recogniser): seq<Event> {
    EventsOf(dets, z, Decider(k, frame, rec))
  }

  /** The boxes that trigger, in detection order. */
  function Triggering(dets: seq<Box>, z: Zone): seq<Box> {
    if dets == [] then []
    else (if Triggers(dets[0], z) then [dets[0]] else []) + Triggering(dets[1..], z)
  }

  /** The vehicle box of each event. */
  function Vehicles(events: seq<Event>): seq<Box> {
    if events == [] then [] else [events[0].vehicle] + Vehicles(events[1..])
  }

  /** Scan the vehicle detections of frame `k`. */
  method ProcessFrame(k: nat, frame: Image, dets: seq<Box>, z: Zone, rec: Recogniser)
    returns (events: seq<Event>)
    ensures events == FrameEvents(k, frame, dets, z, rec)
  {
    events := [];
    var i := 0;
    while i < |dets|
      invariant 0 <= i <= |dets|
      invariant events == FrameEvents(k, frame, dets[..i], z, rec)
    {
      var b := dets[i];
      assert dets[..i + 1][..i] == dets[..i];
      if Triggers(b, z) {
        var crop := Crop(frame, b);
        var v := Decide(b, crop, rec);
        events := events + [Event(k, b, crop, v.identifier, v.passed, Banner(v.passed))];
      }
      i := i + 1;
    }
    assert dets[..|dets|] == dets;
  }

  lemma {:induction false} VehiclesAppend(a: seq<Event>, b: seq<Event>)
    ensures Vehicles(a + b) == Vehicles(a) + Vehicles(b)
  {
    if a == [] {
      assert a + b == b;
    } else {
      assert (a + b)[1..] == a[1..] + b;
      VehiclesAppend(a[1..], b);
    }
  }

  lemma {:induction false} TriggeringAppend(dets: seq<Box>, b: Box, z: Zone)
    ensures Triggering(dets + [b], z) == Triggering(dets, z) + (if Triggers(b, z) then [b] else [])
  {
    if dets == [] {
      assert dets + [b] == [b];
    } else {
      assert (dets + [b])[1..] == dets[1..] + [b];
      TriggeringAppend(dets[1..], b, z);
    }
  }

  /** Whatever decides the boxes, as long as it keeps the box, one event
      comes out per triggering box, in detection order. */
  lemma {:induction false} EventsOfVehicles(dets: seq<Box>, z: Zone, mk: Box -> Event)
    requires KeepsVehicle(mk)
    ensures Vehicles(EventsOf(dets, z, mk)) == Triggering(dets, z)
  {
    if dets != [] {
      var init, b := dets[..|dets| - 1], dets[|dets| - 1];
      var tail := if Triggers(b, z) then [mk(b)] else [];
      EventsOfVehicles(init, z, mk);
      assert Vehicles(tail) == if Triggers(b, z) then [b] else [];
      VehiclesAppend(EventsOf(init, z, mk), tail);
      TriggeringAppend(init, b, z);
      assert dets == init + [b];
    }
  }

  /** No debouncing: every triggering box of the frame gives exactly one
      event, in detection order, and no other box gives one. */
  lemma OneEventPerTrigger(k: nat, frame: Image, dets: seq<Box>, z: Zone, rec: Recogniser)
    ensures Vehicles(FrameEvents(k, frame, dets, z, rec)) == Triggering(dets, z)
  {
    DeciderKeepsVehicle(k, frame, rec);
    EventsOfVehicles(dets, z, Decider(k, frame, rec));
  }

  /** Each event is `mk`'s decision for one of the triggering boxes. */
  lemma {:induction false} EventsOfFacts(dets: seq<Box>, z: Zone, mk: Box -> Event)
    requires KeepsVehicle(mk)
    ensures forall e :: e in EventsOf(dets, z, mk) ==>
      e.vehicle in dets && Triggers(e.vehicle, z) && e == mk(e.vehicle)
  {
    if dets != [] {
      var init := dets[..|dets| - 1];
      EventsOfFacts(init, z, mk);
      forall e | e in EventsOf(dets, z, mk)
        ensures e.vehicle in dets
      {
        if e in EventsOf(init, z, mk) {
          var j :| 0 <= j < |init| && init[j] == e.vehicle;
          assert dets[j] == e.vehicle;
        }
      }
    }
  }

  /** Each event of a frame is the decision for one of its triggering boxes. */
  lemma FrameEventsFacts(k: nat, frame: Image, dets: seq<Box>, z: Zone, rec: Recogniser)
    ensures forall e :: e in FrameEvents(k, frame, dets, z, rec) ==>
      e.vehicle in dets && Triggers(e.vehicle, z) && e == EventFor(k, frame, e.vehicle, rec)
      && e.frame == k
  {
    DeciderKeepsVehicle(k, frame, rec);
    EventsOfFacts(dets, z, Decider(k, frame, rec));
  }

  // ---------------------------------------------------------------------
  // One stream
  // ---------------------------------------------------------------------

  /** `cv2.VideoCapture`: whether it opens, and how many frames decode. */
  datatype Video = Video(opens: bool, frameCount: nat)

  /** How `play_video` ends: the stop flag, a capture that did not open,
      building the placeholder grid raising, the first failed read, or the
      unpack of the zone raising. */
  datatype Outcome = Stopped | OpenFailed | GridFailed | Ended | ZoneFailed

  datatype Run = Run(outcome: Outcome, events: seq<Event>)

  /** The stop flag as sampled before read `k`. */
  predicate StopAt(stop: seq<bool>, k: nat) {
    k < |stop| && stop[k]
  }

  /** `intersections[position]`, unpacked; a position past the list raises. */
  function ZoneAt(intersections: seq<Option<Json>>, position: nat): Option<Zone> {
    if position < |intersections| then Unpack(intersections[position]) else None
  }

  /** The loop from read `k` on. */
  function RunFrom(stream: nat, video: Video, zone: Option<Zone>, carModel: Image -> seq<Box>,
                   rec: Recogniser, stop: seq<bool>, k: nat): Run
    requires k <= video.frameCount
    decreases video.frameCount - k
  {
    if StopAt(stop, k) then Run(Stopped, [])
    else if k == video.frameCount then Run(Ended, [])
    else if zone.None? then Run(ZoneFailed, [])
    else
      var frame := Frame(stream, k);
      var rest := RunFrom(stream, video, zone, carModel, rec, stop, k + 1);
      Run(rest.outcome, FrameEvents(k, frame, carModel(frame), zone.value, rec) + rest.events)
  }

  /** The column of `st.columns(3)` that placeholder `i` is put in: `i` for
      the first three, `i - 3` after that. */
  function ColumnOf(i: nat): int {
    if i < 3 then i else i - 3
  }

  /** The placeholder grid: one placeholder per uploaded video, `count` of
      them, each in its column; a column index past the third raises. */
  method BuildGrid(count: nat) returns (ok: bool)
    ensures ok <==> count <= 6
    ensures ok ==> forall i :: 0 <= i < count ==> 0 <= ColumnOf(i) < 3
  {
    var i := 0;
    while i < count
      invariant i <= count && i <= 6
      invariant forall j :: 0 <= j < i ==> 0 <= ColumnOf(j) < 3
    {
      if ColumnOf(i) >= 3 {
        return false;
      }
      i := i + 1;
    }
    return true;
  }

  /** The grid raises for the worker that builds it iff more than six videos
      were uploaded: `count` is the number uploaded, not the number started. */
  predicate GridRaises(count: nat, buildsGrid: bool) {
    buildsGrid && count > 6
  }

  /** `play_video` from its first line. `count` is its `len_video`;
      `buildsGrid` says whether this worker is the one that finds no
      placeholders yet and builds them, which thread scheduling decides. */
  function Play(stream: nat, video: Video, position: nat, count: nat, buildsGrid: bool,
                intersections: seq<Option<Json>>,
                carModel: Image -> seq<Box>, rec: Recogniser, stopAtStart: bool, stop: seq<bool>): Run
  {
    if stopAtStart then Run(Stopped, [])
    else if !video.opens then Run(OpenFailed, [])
    else if GridRaises(count, buildsGrid) then Run(GridFailed, [])
    else RunFrom(stream, video, ZoneAt(intersections, position), carModel, rec, stop, 0)
  }

  method PlayVideo(stream: nat, video: Video, position: nat, count: nat, buildsGrid: bool,
                   intersections: seq<Option<Json>>,
                   carModel: Image -> seq<Box>, rec: Recogniser, stopAtStart: bool, stop: seq<bool>)
    returns (outcome: Outcome, events: seq<Event>)
    ensures Run(outcome, events)
      == Play(stream, video, position, count, buildsGrid, intersections, carModel, rec, stopAtStart, stop)
  {
    events := [];
    if stopAtStart {
      outcome := Stopped;
      return;
    }
    if !video.opens {
      outcome := OpenFailed;
      return;
    }
    if buildsGrid {
      var built := BuildGrid(count);
      if !built {
        outcome := GridFailed;
        return;
      }
    }
    ghost var zone0 := ZoneAt(intersections, position);
    ghost var target := Play(stream, video, position, count, buildsGrid, intersections, carModel, rec, stopAtStart, stop);
    assert target == RunFrom(stream, video, zone0, carModel, rec, stop, 0);
    outcome := Stopped;
    var k := 0;
    while !StopAt(stop, k)
      invariant k <= video.frameCount
      invariant var rest := RunFrom(stream, video, zone0, carModel, rec, stop, k);
        target == Run(rest.outcome, events + rest.events)
      decreases video.frameCount - k
    {
      if k == video.frameCount {
        outcome := Ended;
        break;
      }
      var frame := Frame(stream, k);
      var dets := carModel(frame);
      var zone := ZoneAt(intersections, position);
      if zone.None? {
        outcome := ZoneFailed;
        break;
      }
      var frameEvents := ProcessFrame(k, frame, dets, zone.value, rec);
      assert events + (frameEvents + RunFrom(stream, video, zone0, carModel, rec, stop, k + 1).events)
        == (events + frameEvents) + RunFrom(stream, video, zone0, carModel, rec, stop, k + 1).events;
      events := events + frameEvents;
      k := k + 1;
    }
    assert events + [] == events;
  }

  /** Facts about every event of the loop from read `k`: it comes from a
      frame at or after `k` that decoded, no stop was requested up to it,
      the zone unpacked, and it is one of that frame's events. */
  lemma {:induction false} RunEvents(stream: nat, video: Video, zone: Option<Zone>,
                                     carModel: Image -> seq<Box>, rec: Recogniser,
                                     stop: seq<bool>, k: nat)
    requires k <= video.frameCount
    ensures forall e :: e in RunFrom(stream, video, zone, carModel, rec, stop, k).events ==>
      && k <= e.frame < video.frameCount
      && (forall j :: k <= j <= e.frame ==> !StopAt(stop, j))
      && zone.Some?
      && e in FrameEvents(e.frame, Frame(stream, e.frame), carModel(Frame(stream, e.frame)), zone.value, rec)
    decreases video.frameCount - k
  {
    if !StopAt(stop, k) && k < video.frameCount && zone.Some? {
      var frame := Frame(stream, k);
      var here := FrameEvents(k, frame, carModel(frame), zone.value, rec);
      RunEvents(stream, video, zone, carModel, rec, stop, k + 1);
      forall e | e in here ensures e.frame == k {
        FrameEventsFacts(k, frame, carModel(frame), zone.value, rec);
      }
    }
  }

  predicate InFrameOrder(es: seq<Event>) {
    forall i, j :: 0 <= i < j < |es| ==> es[i].frame <= es[j].frame
  }

  /** Events come out frame by frame, in read order. */
  lemma {:induction false} RunInFrameOrder(stream: nat, video: Video, zone: Option<Zone>,
                                           carModel: Image -> seq<Box>, rec: Recogniser,
                                           stop: seq<bool>, k: nat)
    requires k <= video.frameCount
    ensures InFrameOrder(RunFrom(stream, video, zone, carModel, rec, stop, k).events)
    decreases video.frameCount - k
  {
    if !StopAt(stop, k) && k < video.frameCount && zone.Some? {
      var frame := Frame(stream, k);
      var here := FrameEvents(k, frame, carModel(frame), zone.value, rec);
      var rest := RunFrom(stream, video, zone, carModel, rec, stop, k + 1).events;
      RunInFrameOrder(stream, video, zone, carModel, rec, stop, k + 1);
      RunEvents(stream, video, zone, carModel, rec, stop, k + 1);
      forall e | e in here ensures e.frame == k {
        FrameEventsFacts(k, frame, carModel(frame), zone.value, rec);
      }
      OrderedConcat(here, rest, k);
    }
  }

  lemma OrderedConcat(here: seq<Event>, rest: seq<Event>, k: nat)
    requires forall e :: e in here ==> e.frame == k
    requires forall e :: e in rest ==> k < e.frame
    requires InFrameOrder(rest)
    ensures InFrameOrder(here + rest)
  {
    var es := here + rest;
    forall i, j | 0 <= i < j < |es| ensures es[i].frame <= es[j].frame {
      if j < |here| {
        assert es[i] in here && es[j] in here;
      } else if i < |here| {
        assert es[i] in here;
        assert es[j] == rest[j - |here|];
        assert es[j] in rest;
      } else {
        assert es[i] == rest[i - |here|] && es[j] == rest[j - |here|];
      }
    }
  }

  /** The events of every frame from `k` to the last, in order. */
  function AllFrameEvents(stream: nat, video: Video, z: Zone, carModel: Image -> seq<Box>,
                          rec: Recogniser, k: nat): seq<Event>
    requires k <= video.frameCount
    decreases video.frameCount - k
  {
    if k == video.frameCount then []
    else
      var frame := Frame(stream, k);
      FrameEvents(k, frame, carModel(frame), z, rec) + AllFrameEvents(stream, video, z, carModel, rec, k + 1)
  }

  /** A stream that runs to its end was never stopped, and every frame of it
      was processed. */
  lemma {:induction false} EndedProcessesEveryFrame(stream: nat, video: Video, zone: Option<Zone>,
                                                    carModel: Image -> seq<Box>, rec: Recogniser,
                                                    stop: seq<bool>, k: nat)
    requires k <= video.frameCount
    requires RunFrom(stream, video, zone, carModel, rec, stop, k).outcome == Ended
    ensures forall j :: k <= j <= video.frameCount ==> !StopAt(stop, j)
    ensures k < video.frameCount ==> zone.Some?
    ensures zone.Some? ==>
      RunFrom(stream, video, zone, carModel, rec, stop, k).events
        == AllFrameEvents(stream, video, zone.value, carModel, rec, k)
    decreases video.frameCount - k
  {
    if k < video.frameCount {
      EndedProcessesEveryFrame(stream, video, zone, carModel, rec, stop, k + 1);
    }
  }

  /** A stream whose zone does not unpack (the `[0, 0]` placeholder, a
      missing entry) emits nothing; once a frame is read, it ends there. */
  lemma NoZoneNoEvents(stream: nat, video: Video, position: nat, count: nat, buildsGrid: bool,
                       intersections: seq<Option<Json>>,
                       carModel: Image -> seq<Box>, rec: Recogniser, stopAtStart: bool, stop: seq<bool>)
    requires ZoneAt(intersections, position).None?
    ensures var r := Play(stream, video, position, count, buildsGrid, intersections, carModel, rec, stopAtStart, stop);
      && r.events == []
      && (!stopAtStart && video.opens && !GridRaises(count, buildsGrid) && !StopAt(stop, 0)
            && video.frameCount > 0
          ==> r.outcome == ZoneFailed)
  {
  }

  /** A capture that does not open, or a stop before the start, emits nothing. */
  lemma NoStartNoEvents(stream: nat, video: Video, position: nat, count: nat, buildsGrid: bool,
                        intersections: seq<Option<Json>>,
                        carModel: Image -> seq<Box>, rec: Recogniser, stopAtStart: bool, stop: seq<bool>)
    requires stopAtStart || !video.opens
    ensures var r := Play(stream, video, position, count, buildsGrid, intersections, carModel, rec, stopAtStart, stop);
      r.events == [] && r.outcome == (if stopAtStart then Stopped else OpenFailed)
  {
  }

  /** The worker that builds the grid, with more than six videos uploaded,
      ends before its first read and emits nothing. */
  lemma GridFailsBeyondSix(stream: nat, video: Video, position: nat, count: nat,
                           intersections: seq<Option<Json>>,
                           carModel: Image -> seq<Box>, rec: Recogniser, stop: seq<bool>)
    requires video.opens && count > 6
    ensures Play(stream, video, position, count, true, intersections, carModel, rec, false, stop)
      == Run(GridFailed, [])
  {
  }

  /** Up to six uploads, building the grid changes nothing. */
  lemma GridHarmlessUpToSix(stream: nat, video: Video, position: nat, count: nat,
                            intersections: seq<Option<Json>>,
                            carModel: Image -> seq<Box>, rec: Recogniser, stopAtStart: bool, stop: seq<bool>)
    requires count <= 6
    ensures Play(stream, video, position, count, true, intersections, carModel, rec, stopAtStart, stop)
      == Play(stream, video, position, count, false, intersections, carModel, rec, stopAtStart, stop)
  {
  }

  /** The events of frames `k` up to, not including, `s`, in order. */
  function EventsBetween(stream: nat, video: Video, z: Zone, carModel: Image -> seq<Box>,
                         rec: Recogniser, k: nat, s: nat): seq<Event>
    requires k <= s <= video.frameCount
    decreases s - k
  {
    if k == s then []
    else
      var frame := Frame(stream, k);
      FrameEvents(k, frame, carModel(frame), z, rec) + EventsBetween(stream, video, z, carModel, rec, k + 1, s)
  }

  /** With a zone, the loop from read `k` processes every frame up to the
      first read `s` before which a stop is requested (or to the end), and
      nothing after: its events are exactly those frames' events, and it
      stops there or ends on the failed read. */
  lemma {:induction false} RunUntilStop(stream: nat, video: Video, z: Zone,
                                        carModel: Image -> seq<Box>, rec: Recogniser,
                                        stop: seq<bool>, k: nat, s: nat)
    requires k <= s <= video.frameCount
    requires forall j :: k <= j < s ==> !StopAt(stop, j)
    requires s < video.frameCount ==> StopAt(stop, s)
    ensures var r := RunFrom(stream, video, Some(z), carModel, rec, stop, k);
      && r.events == EventsBetween(stream, video, z, carModel, rec, k, s)
      && r.outcome == (if StopAt(stop, s) then Stopped else Ended)
    decreases s - k
  {
    if k < s {
      RunUntilStop(stream, video, z, carModel, rec, stop, k + 1, s);
    }
  }

  /** A stream that starts, whose zone unpacks and whose grid does not raise,
      emits exactly the events of every frame read before the first stop
      request, whether it is stopped or runs to its end. */
  lemma PlayUntilStop(stream: nat, video: Video, position: nat, count: nat, buildsGrid: bool,
                      intersections: seq<Option<Json>>,
                      carModel: Image -> seq<Box>, rec: Recogniser, stop: seq<bool>, s: nat)
    requires video.opens && !GridRaises(count, buildsGrid) && ZoneAt(intersections, position).Some?
    requires s <= video.frameCount
    requires forall j :: 0 <= j < s ==> !StopAt(stop, j)
    requires s < video.frameCount ==> StopAt(stop, s)
    ensures var r := Play(stream, video, position, count, buildsGrid, intersections, carModel, rec, false, stop);
      && r.events == EventsBetween(stream, video, ZoneAt(intersections, position).value, carModel, rec, 0, s)
      && r.outcome == (if StopAt(stop, s) then Stopped else Ended)
  {
    RunUntilStop(stream, video, ZoneAt(intersections, position).value, carModel, rec, stop, 0, s);
  }

  /** Every event of a stream is a triggering vehicle box of a frame that
      was read before any stop, decided as `VerdictFor` says. */
  lemma PlayEvents(stream: nat, video: Video, position: nat, count: nat, buildsGrid: bool,
                   intersections: seq<Option<Json>>,
                   carModel: Image -> seq<Box>, rec: Recogniser, stopAtStart: bool, stop: seq<bool>)
    ensures var r := Play(stream, video, position, count, buildsGrid, intersections, carModel, rec, stopAtStart, stop);
      forall e :: e in r.events ==>
        && ZoneAt(intersections, position).Some? && !stopAtStart && video.opens
        && !GridRaises(count, buildsGrid)
        && e.frame < video.frameCount
        && (forall j :: 0 <= j <= e.frame ==> !StopAt(stop, j))
        && e.vehicle in carModel(Frame(stream, e.frame))
        && Triggers(e.vehicle, ZoneAt(intersections, position).value)
        && e == EventFor(e.frame, Frame(stream, e.frame), e.vehicle, rec)
  {
    if !stopAtStart && video.opens && !GridRaises(count, buildsGrid) {
      var zone := ZoneAt(intersections, position);
      var es := RunFrom(stream, video, zone, carModel, rec, stop, 0).events;
      RunEvents(stream, video, zone, carModel, rec, stop, 0);
      forall e | e in es
        ensures e.vehicle in carModel(Frame(stream, e.frame))
        ensures Triggers(e.vehicle, zone.value)
        ensures e == EventFor(e.frame, Frame(stream, e.frame), e.vehicle, rec)
      {
        FrameEventsFacts(e.frame, Frame(stream, e.frame), carModel(Frame(stream, e.frame)), zone.value, rec);
      }
    }
  }

  // ---------------------------------------------------------------------
  // Several streams
  // ---------------------------------------------------------------------

  /** A worker thread's arguments: its video, its position and the number
      of videos uploaded. */
  datatype Worker<V> = Worker(video: V, position: nat, count: nat)

  /** At most six videos: warn beyond that and start a worker for each of
      the first six, in upload order. */
  method SpawnWorkers<V>(videos: seq<V>) returns (warned: bool, workers: seq<Worker<V>>)
    ensures warned <==> |videos| > 6
    ensures |workers| == if |videos| > 6 then 6 else |videos|
    ensures forall i :: 0 <= i < |workers| ==> workers[i] == Worker(videos[i], i, |videos|)
  {
    var count := |videos|;
    var files := videos;
    warned := false;
    if |videos| > 6 {
      warned := true;
      files := videos[..6];
    }
    workers := [];
    var i := 0;
    while i < |files|
      invariant 0 <= i <= |files|
      invariant |workers| == i
      invariant forall j :: 0 <= j < i ==> workers[j] == Worker(files[j], j, count)
    {
      workers := workers + [Worker(files[i], i, count)];
      i := i + 1;
    }
  }
}
