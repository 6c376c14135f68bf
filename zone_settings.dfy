/** The zone-of-interest record of files/adminSettingsVideoZone.py
    (`area_of_interest`) and the way files/videoProcessing.py reads it back.

    The zone is four boundaries on the first frame of a video: an upper and a
    lower horizontal line and a right and a left vertical line. The settings
    page opens four sliders at default positions (taken from the saved record
    when there is one) and, on confirmation, saves them as a JSON object.
    JSON values are modelled as the two shapes the record holds: integers and
    lists of integers. */
module ZoneSettings {
  import opened Wrappers

  datatype Json = JInt(n: int) | JList(items: seq<int>)

  /** A JSON object, as `json.load` returns it. */
  type Record = map<string, Json>

  /** What opening `users/coordinates/<name>.json` gives: no such file, a file
      that cannot be read or parsed, or the decoded object. */
  datatype Stored = NoFile | Unreadable | Found(record: Record)

  /** The four slider positions: upper line `y1`, lower line `y2`, right
      line `x1`, left line `x2`. */
  datatype Selection = Selection(upper: int, lower: int, right: int, left: int)

  /** The boundaries in the unpack order `x, y, yz, xz` of the video loop. */
  datatype Zone = Zone(x: int, y: int, yz: int, xz: int)

  /** The four slider defaults, in slider order (upper, lower, right, left). */
  datatype Defaults = Defaults(upper: Json, lower: Json, right: Json, left: Json)

  /** `saved_data.get(key, fallback)`. */
  function Get(rec: Record, key: string, fallback: int): Json
  {
    if key in rec then rec[key] else JInt(fallback)
  }

  /** The slider defaults for a `width` x `height` frame. Without a saved
      file the built-in defaults stand; a saved object supplies its four keys,
      each with its own fallback (note the `width // 2` for the lower line);
      any other failure to load ends the page with an error. */
  function InitialDefaults(width: nat, height: nat, stored: Stored): (r: Result<Defaults>)
    ensures stored.Unreadable? <==> r.Err?
  {
    match stored
    case NoFile => Ok(Defaults(JInt(height / 4), JInt(height / 2), JInt(width / 2), JInt(width / 4)))
    case Unreadable => Err("the saved zone cannot be read")
    case Found(rec) =>
      Ok(Defaults(Get(rec, "y", height / 4), Get(rec, "yz", width / 2),
                  Get(rec, "x", width / 4), Get(rec, "xz", width / 2)))
  }

  /** A slider as displayed: its range and its position. */
  datatype SliderState = SliderState(lo: int, hi: int, value: int)

  /** `st.slider(label, lo, hi, value)` as first displayed. An integer
      default is taken as the position, and the range is widened just enough
      to contain it; a list default does not open a single-value slider. */
  function Slider(lo: int, hi: int, value: Json): (r: Result<SliderState>)
    ensures r.Ok? <==> value.JInt?
    ensures r.Ok? ==> r.value.value == value.n && r.value.lo <= r.value.value <= r.value.hi
    ensures r.Ok? ==> r.value.lo <= lo && hi <= r.value.hi
    ensures r.Ok? ==> (r.value.lo == lo || r.value.lo == value.n) && (r.value.hi == hi || r.value.hi == value.n)
    ensures r.Ok? && lo <= hi ==> ((r.value.lo == lo && r.value.hi == hi) <==> lo <= value.n <= hi)
  {
    if value.JInt? then
      var n := value.n;
      Ok(SliderState(if n < lo then n else lo, if n > hi then n else hi, n))
    else Err("a list default opens no single-value slider")
  }

  /** The boundaries lie on the frame: within [0, height] for the horizontal
      lines and [0, width] for the vertical ones. No order between the lines
      is required. */
  predicate OnFrame(sel: Selection, width: nat, height: nat) {
    0 <= sel.upper <= height && 0 <= sel.lower <= height
    && 0 <= sel.right <= width && 0 <= sel.left <= width
  }

  /** The four sliders of the page, in display order. */
  datatype Sliders = Sliders(upper: SliderState, lower: SliderState, right: SliderState, left: SliderState)

  function Positions(s: Sliders): Selection {
    Selection(s.upper.value, s.lower.value, s.right.value, s.left.value)
  }

  /** Every slider kept the range it was asked for: the frame's height for
      the horizontal lines, its width for the vertical ones. */
  predicate FrameRanges(s: Sliders, width: nat, height: nat) {
    && s.upper.lo == 0 && s.upper.hi == height && s.lower.lo == 0 && s.lower.hi == height
    && s.right.lo == 0 && s.right.hi == width && s.left.lo == 0 && s.left.hi == width
  }

  predicate IntDefaults(d: Defaults) {
    d.upper.JInt? && d.lower.JInt? && d.right.JInt? && d.left.JInt?
  }

  /** The sliders the page opens, or the error that ends the page. */
  function OpenSliders(width: nat, height: nat, stored: Stored): (r: Result<Sliders>)
    ensures r.Ok? ==> (FrameRanges(r.value, width, height) <==> OnFrame(Positions(r.value), width, height))
  {
    var d :- InitialDefaults(width, height, stored);
    var upper :- Slider(0, height, d.upper);
    var lower :- Slider(0, height, d.lower);
    var right :- Slider(0, width, d.right);
    var left :- Slider(0, width, d.left);
    Ok(Sliders(upper, lower, right, left))
  }

  /** The positions the four sliders open at: exactly the defaults, whenever
      all four are integers and the saved record could be read. */
  function InitialSelection(width: nat, height: nat, stored: Stored): (r: Result<Selection>)
    ensures var d := InitialDefaults(width, height, stored);
      r.Ok? <==> d.Ok? && IntDefaults(d.value)
    ensures var d := InitialDefaults(width, height, stored);
      r.Ok? ==> r.value == Selection(d.value.upper.n, d.value.lower.n, d.value.right.n, d.value.left.n)
  {
    var s :- OpenSliders(width, height, stored);
    Ok(Positions(s))
  }

  /** The object written on confirmation: frame size, the four boundaries
      under their keys, and the `intersection` tuple `(x1, y1, y2, x2)`. */
  function Save(width: nat, height: nat, sel: Selection): (rec: Record)
    ensures rec.Keys == {"frame_width", "frame_height", "x", "y", "yz", "xz", "intersection"}
    ensures rec["frame_width"] == JInt(width) && rec["frame_height"] == JInt(height)
    ensures rec["x"] == JInt(sel.right) && rec["y"] == JInt(sel.upper)
    ensures rec["yz"] == JInt(sel.lower) && rec["xz"] == JInt(sel.left)
    ensures rec["intersection"] == JList([sel.right, sel.upper, sel.lower, sel.left])
  {
    map["frame_width" := JInt(width), "frame_height" := JInt(height),
        "x" := JInt(sel.right), "y" := JInt(sel.upper),
        "yz" := JInt(sel.lower), "xz" := JInt(sel.left),
        "intersection" := JList([sel.right, sel.upper, sel.lower, sel.left])]
  }

  /** `x, y, yz, xz = value`: only a list of exactly four entries unpacks;
      anything else (the `[0, 0]` placeholder, a missing entry, a number)
      raises. */
  function Unpack(value: Option<Json>): (z: Option<Zone>)
    ensures z.Some? <==> value.Some? && value.value.JList? && |value.value.items| == 4
    ensures z.Some? ==> var v := value.value.items; z.value == Zone(v[0], v[1], v[2], v[3])
  {
    if value.Some? && value.value.JList? && |value.value.items| == 4 then
      var v := value.value.items;
      Some(Zone(v[0], v[1], v[2], v[3]))
    else None
  }

  /** What the video page stores for a stream before processing: any failure
      to open or parse the file gives the placeholder `[0, 0]`; otherwise
      `data.get('intersection')`. */
  function StreamIntersection(stored: Stored): Option<Json>
  {
    match stored
    case Found(rec) => if "intersection" in rec then Some(rec["intersection"]) else None
    case _ => Some(JList([0, 0]))
  }

  /** The zone a stream runs with, or None when its unpack raises. */
  function StreamZone(stored: Stored): Option<Zone> {
    Unpack(StreamIntersection(stored))
  }

  // ---------------------------------------------------------------------
  // Properties
  // ---------------------------------------------------------------------

  /** Without a saved file the sliders always open, at a quarter and a half
      of the height and at a half and a quarter of the width, all on the
      frame. */
  lemma NoFileOpens(width: nat, height: nat)
    ensures InitialSelection(width, height, NoFile)
      == Ok(Selection(height / 4, height / 2, width / 2, width / 4))
    ensures OnFrame(InitialSelection(width, height, NoFile).value, width, height)
  {
  }

  /** A saved object missing every key: the page opens on the fallbacks,
      the lower line at half the frame *width*; when that is below the
      frame's bottom, the lower slider's range is extended to reach it. */
  lemma EmptyRecordFallbacks(width: nat, height: nat)
    ensures InitialSelection(width, height, Found(map[]))
      == Ok(Selection(height / 4, width / 2, width / 4, width / 2))
    ensures OpenSliders(width, height, Found(map[])).Ok?
    ensures var lower := OpenSliders(width, height, Found(map[])).value.lower;
      lower.hi == (if width / 2 > height then width / 2 else height)
    ensures !OnFrame(InitialSelection(width, height, Found(map[])).value, width, height) <==> width / 2 > height
  {
  }

  /** Saving a selection and opening the page again restores the same four
      boundaries, whether or not they lie on the frame. */
  lemma SaveThenReload(width: nat, height: nat, sel: Selection)
    ensures InitialSelection(width, height, Found(Save(width, height, sel))) == Ok(sel)
  {
    var rec := Save(width, height, sel);
    assert Get(rec, "y", height / 4) == JInt(sel.upper);
    assert Get(rec, "yz", width / 2) == JInt(sel.lower);
    assert Get(rec, "x", width / 4) == JInt(sel.right);
    assert Get(rec, "xz", width / 2) == JInt(sel.left);
  }

  /** The saved `intersection` tuple unpacks in the video loop as
      x = right, y = upper, yz = lower, xz = left. */
  lemma SavedZoneUnpacks(width: nat, height: nat, sel: Selection)
    ensures StreamZone(Found(Save(width, height, sel)))
      == Some(Zone(sel.right, sel.upper, sel.lower, sel.left))
  {
  }

  /** A stream with no usable saved zone gets none. */
  lemma MissingZoneFails(stored: Stored)
    requires !stored.Found? || "intersection" !in stored.record
    ensures StreamZone(stored) == None
  {
  }

  /** Nothing orders the lines: a zone whose upper line is below its lower
      line, or whose right line is left of its left line, is saved and
      reloaded as it is. */
  lemma InvertedZoneAccepted(width: nat, height: nat)
    requires width > 0 && height > 0
    ensures var sel := Selection(height, 0, 0, width);
      && sel.upper > sel.lower && sel.right < sel.left
      && InitialSelection(width, height, Found(Save(width, height, sel))) == Ok(sel)
  {
    SaveThenReload(width, height, Selection(height, 0, 0, width));
  }
}
