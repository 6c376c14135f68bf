# Vehicle access control: a verified model

This project models, in Dafny, the sequential logic of a Streamlit
application that watches camera streams for vehicles and decides whether
to let each one in. It also models two pieces of supporting tooling.

- **Zone-triggered recognition and decision** (`files/videoProcessing.py`).
  - A vehicle box of class 0 (car) or 1 (emergency vehicle) triggers when
    its bottom edge lies strictly between the zone's upper and lower lines
    and the box lies between the left and right lines, edges included.
  - A triggering box is cropped. The plate is the first box of class 22
    that the plate/character detector finds on the crop; without one, the
    whole crop is used.
  - The characters (classes 0..21) are read off the plate in one of two
    ways, chosen by the literal test `min_y2 > max_y1`:
    - single-row: all characters sorted by their left edge;
    - two-row: the upper row (top edge above the mean top edge), then the
      lower row, each sorted by its left edge.
  - A car passes when its identifier equals a normalised allow-list entry.
    Any other vehicle passes and its identifier is cleared.
  - `play_video` repeats this frame by frame until a stop request, a failed
    read, or a zone that does not unpack. `play_multiple_videos` starts at
    most six streams. With more than six uploads, the worker that builds the
    placeholder grid raises before its first read, because the grid has a
    slot for every upload.
- **Zone configuration record** (`files/adminSettingsVideoZone.py`): the
  slider defaults, their fallbacks from a saved record, the record that is
  saved, and how the video page unpacks it.
- **Dataset label tooling** (`stratification/consolidation.py`):
  - collecting images and `.txt` label files into two directories keyed by
    file name;
  - the sorted set of class ids in label lines;
  - rewriting the first token of label lines through a mapping;
  - pairing images with their label files.
- **User registry and session routing** (`main.py`): registration and
  authentication over a map from user names to password hashes, login and
  logout, and the admin/user menus.

The detectors (YOLO models), the password hash, file contents and
directory listings are inputs. Images are symbolic: a frame of a stream, or
a crop of an image by a box. Python's string operations are modelled with
their Python meaning in `pystrings.dfy`:
- `isspace`, `strip` and `split()`;
- `' '.join`;
- `replace` of a literal;
- ASCII `lower` and `endswith`;
- code-point string order.

Modules, one per file:
- `Wrappers`: Option and Result.
- `PyStrings`: the Python string operations above.
- `Detections`: boxes, images, the character filter and the stable sort.
- `Recognition`: what `image_processing`, `number_processing` and
  `comparison_number` compute.
- `ZoneSettings`: the zone settings page.
- `VideoProcessing`: the crossing test, the decision, `play_video` and
  `play_multiple_videos`.
- `Consolidation`: the dataset tooling.
- `Accounts`: the user registry and the sessions.

Where a comment and the code disagree, the model follows the code:
- The mode test is `min_y2 > max_y1`, although the comment on the line
  before it says the opposite.
- With a saved record that lacks `yz`, the lower line falls back to
  `width // 2`, not to half the height.
- The saved record's fallbacks for the vertical lines (`x` to `width // 4`,
  `xz` to `width // 2`) are the reverse of the defaults used when there is
  no record.

## Model

| member | source | states |
|---|---|---|
| PyStrings.StripLeavesCore | files/videoProcessing.py:149 | `strip()` of margin whitespace around a core that starts and ends with non-whitespace gives exactly that core |
| PyStrings.StripEnds | files/videoProcessing.py:149 | a stripped string is empty or starts and ends with a non-whitespace character |
| PyStrings.SplitTokens | stratification/consolidation.py:42 | every element of `split()` is non-empty and contains no whitespace |
| PyStrings.SplitIgnoresStrip | stratification/consolidation.py:56 | `s.strip().split() == s.split()` for every string |
| PyStrings.SplitAllSpace | stratification/consolidation.py:56 | an all-whitespace line splits into no tokens |
| PyStrings.SplitJoin | stratification/consolidation.py:62 | splitting `' '.join(ts)` followed by whitespace gives `ts` back, for every list of tokens |
| PyStrings.RemoveAllAbsent | files/videoProcessing.py:149 | `replace(pat, '')` leaves a string in which `pat` never occurs unchanged |
| PyStrings.RemoveAllWithoutHead | files/videoProcessing.py:149 | a string without the first character of `pat` is unchanged by `replace(pat, '')` |
| PyStrings.LessIrreflexive | stratification/consolidation.py:44 | no string sorts before itself |
| PyStrings.LessTransitive | stratification/consolidation.py:44 | string order is transitive |
| PyStrings.LessTotal | stratification/consolidation.py:44 | of two different strings, one sorts before the other |
| Detections.Symbols | files/videoProcessing.py:82-83 | the character boxes are exactly the boxes of class at most 21, and there are no more of them than boxes |
| Detections.SymbolsAppend | files/videoProcessing.py:102-103 | filtering characters distributes over concatenation |
| Detections.SymbolsIdempotent | files/videoProcessing.py:89 | filtering characters twice is filtering once |
| Detections.SortByX | files/videoProcessing.py:87 | the sort by left edge yields a sequence in non-decreasing x1 that is a permutation of its input |
| Detections.InsertKeepsSorted | files/videoProcessing.py:87 | inserting into a sequence sorted by x1 keeps it sorted |
| Detections.SortByXStable | files/videoProcessing.py:115-116 | for every x1 value, the boxes with that left edge keep their input order (stability) |
| Detections.SymbolsOfSorted | files/videoProcessing.py:87-89 | sorting all boxes then keeping characters equals sorting the characters alone |
| Recognition.FirstPlateIndex | files/videoProcessing.py:56-60 | the index found is of a class-22 box and no earlier box has class 22, or there is none |
| Recognition.ImageProcessing | files/videoProcessing.py:51-72 | the crop by the first class-22 box in detection order; the image unchanged when there is no such box |
| Recognition.DigitString | files/videoProcessing.py:88 | `str(c)` of a digit class is the one decimal digit of value `c` |
| Recognition.RenderDigits | files/videoProcessing.py:88-89 | a digit-only row renders one digit per box, in order, the i-th digit having the value of the i-th class |
| Recognition.MinBottom | files/videoProcessing.py:82 | `min_y2` is some character's bottom edge and at most every other |
| Recognition.MaxTop | files/videoProcessing.py:83 | `max_y1` is some character's top edge and at least every other |
| Recognition.SingleRowTest | files/videoProcessing.py:86 | the mode test holds iff every character's top edge lies above every character's bottom edge |
| Recognition.RowsPartition | files/videoProcessing.py:94-113 | a box is in the upper row iff its top edge is above the mean (`y1 * n < sum`), otherwise in the lower row; the two rows together are a permutation of the characters |
| Recognition.RowsStep | files/videoProcessing.py:102-113 | one more detection extends the upper or lower row by that box exactly when it is a character on that side of the mean |
| Recognition.IdentifierIgnoresNonSymbols | files/videoProcessing.py:82-89 | boxes of class above 21 do not change the identifier |
| Recognition.NoSymbolsNoIdentifier | files/videoProcessing.py:82 | with no character box the identifier is '' (the `min` raises and is caught) |
| Recognition.SingleRowOrder | files/videoProcessing.py:86-89 | in single-row mode the identifier renders the characters in non-decreasing x1, as a permutation of them, equal left edges in detection order |
| Recognition.SingleRowMissingName | files/videoProcessing.py:88-89 | in single-row mode, a non-digit character missing from the names table makes the identifier '' |
| Recognition.TwoRowOrder | files/videoProcessing.py:91-122 | in two-row mode the identifier is the upper row sorted by x1 followed by the lower row sorted by x1; both rows are sorted and stable and partition the characters |
| Recognition.TwoRowMissingName | files/videoProcessing.py:111 | in two-row mode, any character (digits included) missing from the names table makes the identifier '' |
| Recognition.NumberProcessing | files/videoProcessing.py:75-135 | the loop building `upper`/`lower` and the sorts compute exactly the identifier of the plate detections |
| Recognition.ListedInIff | files/videoProcessing.py:148-153 | the scan succeeds iff some entry, after `.replace` and `strip()`, equals the identifier |
| Recognition.ComparisonNumber | files/videoProcessing.py:138-154 | the result is true iff the list was read and has an entry that normalises to the identifier; an unreadable list gives false |
| Recognition.PunctuationKept | files/videoProcessing.py:149 | the pattern is deleted literally, so `' A123-BC '` normalises to `'A123-BC'`, dash kept |
| Recognition.ListedExamples | files/videoProcessing.py:141-153 | a list holding the identifier matches; an unreadable list never does |
| VideoProcessing.HorizontalLinesExcluded | files/videoProcessing.py:235 | a bottom edge on the upper or lower line never triggers |
| VideoProcessing.VerticalLinesIncluded | files/videoProcessing.py:235 | a vehicle touching both vertical lines, bottom edge strictly inside, triggers |
| VideoProcessing.Decide | files/videoProcessing.py:239-248 | a car passes iff its identifier is listed; any other vehicle passes with identifier '' |
| VideoProcessing.UnreadableListStopsCars | files/videoProcessing.py:139-145 | with an unreadable allow-list a car never passes |
| VideoProcessing.Banner | files/videoProcessing.py:163 | "MISS" exactly when the vehicle passes, "STOP" otherwise |
| VideoProcessing.ProcessFrame | files/videoProcessing.py:231-254 | the loop over one frame's detections yields the frame's events |
| VideoProcessing.EventsOfVehicles | files/videoProcessing.py:231-235 | whatever the decision, one event per triggering box, in detection order |
| VideoProcessing.OneEventPerTrigger | files/videoProcessing.py:231-254 | the vehicles of a frame's events are exactly its triggering boxes, in order: no debouncing |
| VideoProcessing.EventsOfFacts | files/videoProcessing.py:231-235 | every event is the decision for one triggering box of the detections |
| VideoProcessing.FrameEventsFacts | files/videoProcessing.py:233-248 | every event of a frame carries the frame index and is the decision for one of its triggering vehicle boxes |
| VideoProcessing.BuildGrid | files/videoProcessing.py:203-210 | building one placeholder per uploaded video in `st.columns(3)` succeeds iff at most six were uploaded, and then every placeholder's column is one of the three |
| VideoProcessing.PlayVideo | files/videoProcessing.py:186-260 | the imperative loop yields the outcome and events of the stream as specified by `Play` |
| VideoProcessing.GridFailsBeyondSix | files/videoProcessing.py:203-210 | with more than six uploads, the worker that builds the grid ends (`GridFailed`) before its first read, with no events |
| VideoProcessing.GridHarmlessUpToSix | files/videoProcessing.py:203-210 | with at most six uploads, whether a worker builds the grid does not change its run |
| VideoProcessing.RunUntilStop | files/videoProcessing.py:212-254 | with a zone, the loop's events are exactly the events of every frame read before the first stop request (or to the end), and it stops there or ends on the failed read |
| VideoProcessing.PlayUntilStop | files/videoProcessing.py:194-254 | a stream that opens, has a zone and whose grid does not raise emits exactly the events of every frame before the first stop request, stopped or ended |
| VideoProcessing.RunEvents | files/videoProcessing.py:212-219 | every event comes from a decoded frame read before any stop request, with a zone that unpacked |
| VideoProcessing.RunInFrameOrder | files/videoProcessing.py:212-215 | events come out in non-decreasing frame order |
| VideoProcessing.EndedProcessesEveryFrame | files/videoProcessing.py:212-215 | a stream that ends on a failed read was never stopped, and every frame of it was processed |
| VideoProcessing.NoZoneNoEvents | files/videoProcessing.py:219 | a zone that does not unpack (the `[0, 0]` placeholder) yields no events, and the stream ends at its first frame |
| VideoProcessing.NoStartNoEvents | files/videoProcessing.py:194-200 | a stop request before the start, or a capture that does not open, yields no events |
| VideoProcessing.PlayEvents | files/videoProcessing.py:194-254 | every event of a stream is a triggering vehicle box of a frame read before any stop, from a worker whose grid did not raise, decided as `VerdictFor` says |
| VideoProcessing.SpawnWorkers | files/videoProcessing.py:270-281 | a warning iff there are more than six videos; one worker for each of the first `min(n, 6)` videos, worker i getting video i, position i and count n |
| ZoneSettings.InitialDefaults | files/adminSettingsVideoZone.py:70-82 | the page fails iff the saved record exists but cannot be read; otherwise the defaults or the saved values with their fallbacks |
| ZoneSettings.Slider | files/adminSettingsVideoZone.py:89-92 | a slider opens iff its default is an integer, at that value, in the smallest range containing both the given bounds and the value; the range is the one asked for iff the value lies within it |
| ZoneSettings.OpenSliders | files/adminSettingsVideoZone.py:89-92 | every slider keeps the frame's range iff the four positions lie on the frame |
| ZoneSettings.InitialSelection | files/adminSettingsVideoZone.py:70-92 | the page opens iff the saved record is readable and the four defaults are integers, and then exactly at those defaults |
| ZoneSettings.Save | files/adminSettingsVideoZone.py:104-114 | the saved record has exactly the seven keys, with the frame size, the four lines and the tuple `(x, y, yz, xz)` |
| ZoneSettings.Unpack | files/videoProcessing.py:219 | only a list of exactly four values unpacks, into `x, y, yz, xz` in that order |
| ZoneSettings.NoFileOpens | files/adminSettingsVideoZone.py:70-73 | without a saved record the sliders open at height//4, height//2, width//2, width//4, all on the frame |
| ZoneSettings.EmptyRecordFallbacks | files/adminSettingsVideoZone.py:77-80 | a saved record without keys always opens, the lower line at `width // 2`; the lower slider's range is widened to `width // 2`, leaving the line off the frame, iff `width // 2 > height` |
| ZoneSettings.SaveThenReload | files/adminSettingsVideoZone.py:75-114 | saving any selection and reopening the page restores the same four lines |
| ZoneSettings.SavedZoneUnpacks | files/adminSettingsVideoZone.py:104 | the saved tuple unpacks in the video loop as x = right, y = upper, yz = lower, xz = left |
| ZoneSettings.MissingZoneFails | files/videoProcessing.py:311-316 | a stream without a readable record, or with one lacking `intersection`, gets no zone |
| ZoneSettings.InvertedZoneAccepted | files/adminSettingsVideoZone.py:89-114 | no order between the lines is enforced: an inverted zone is saved and reloaded as it is |
| Consolidation.LastIndexFacts | stratification/consolidation.py:22 | the index found is the last occurrence, or -1 when there is none |
| Consolidation.SplitextFacts | stratification/consolidation.py:22 | `splitext` parts concatenate to the name; the extension is empty or a dot followed by no dot or separator |
| Consolidation.UpperCaseExtension | stratification/consolidation.py:22-25 | the extension is lower-cased before the test: "car.JPG" is an image |
| Consolidation.LabelExtension | stratification/consolidation.py:26-27 | "car.txt" is a label file |
| Consolidation.HiddenNameSkipped | stratification/consolidation.py:22-29 | ".png" has no extension and is skipped |
| Consolidation.LastExtensionCounts | stratification/consolidation.py:22-29 | only the last extension counts: "car.png.zip" is skipped |
| Consolidation.PlaceAllAppend | stratification/consolidation.py:18-31 | copying two batches of files in turn is copying their concatenation |
| Consolidation.PlaceListing | stratification/consolidation.py:20-31 | the loop over a directory's files copies them in order |
| Consolidation.PlaceWalk | stratification/consolidation.py:19-31 | the loop over a walk copies its directories' files in order |
| Consolidation.ConsolidateFiles | stratification/consolidation.py:8-34 | the nested loops copy all files of all walks, in order |
| Consolidation.UntouchedName | stratification/consolidation.py:25-31 | a name no copied file has keeps its old destination entries |
| Consolidation.LastWriterWins | stratification/consolidation.py:25-31 | destinations are keyed by file name: of files with the same name, the last one copied is the one left, under the directory of its kind |
| Consolidation.PlaceKeepsOthers | stratification/consolidation.py:31 | copying one file changes no entry of another name |
| Consolidation.DestinationsByKind | stratification/consolidation.py:22-31 | every destination entry is an old one or a copied file of that name whose kind is that directory's |
| Consolidation.InsertSorted | stratification/consolidation.py:44 | inserting a new string keeps strict string order and adds exactly that element |
| Consolidation.SortedLabels | stratification/consolidation.py:44 | `sorted(list(labels))` is strictly increasing and holds exactly the set's elements |
| Consolidation.SortedUnique | stratification/consolidation.py:44 | two strictly sorted sequences with the same elements are equal: the result does not depend on set order |
| Consolidation.AddLineLabels | stratification/consolidation.py:41-43 | the loop over a file's lines adds their first tokens, or fails iff some line is blank |
| Consolidation.GetClassLabels | stratification/consolidation.py:36-44 | a strictly sorted list of exactly the first tokens of the `.txt` files' lines; failure iff one of their lines is blank |
| Consolidation.LinesFailure | stratification/consolidation.py:42 | once a blank line is met the collection fails whatever follows |
| Consolidation.FilesFailure | stratification/consolidation.py:38-43 | once a file with a blank line is met the collection fails whatever follows |
| Consolidation.LabelsAreFirstTokens | stratification/consolidation.py:41-43 | every line has a first token, and the labels are exactly the lines' first tokens |
| Consolidation.AnyMappedIff | stratification/consolidation.py:53-61 | the flag is set iff some line's first token is a key of the mapping |
| Consolidation.RelabelOne | stratification/consolidation.py:56-62 | one line's rewrite, and whether its first token was mapped |
| Consolidation.RelabelLines | stratification/consolidation.py:53-63 | as many new lines as lines, each the rewrite of its line; `modified` iff some first token was mapped |
| Consolidation.ReplaceClassLabels | stratification/consolidation.py:46-66 | a `.txt` file with a mapped first token gets all its lines rewritten; every other file is left untouched |
| Consolidation.RelabelKeepsOtherTokens | stratification/consolidation.py:57-60 | the token count is kept, tokens after the first are unchanged, and an unmapped first token changes nothing |
| Consolidation.NoChaining | stratification/consolidation.py:59-60 | the mapping is applied once, for every line and mapping: a first token whose image is itself a key becomes that image, not the image's image |
| Consolidation.NoChainingExample | stratification/consolidation.py:59-60 | with 23 -> 22 and 22 -> 0, 23 becomes 22 |
| Consolidation.BlankLine | stratification/consolidation.py:56-62 | a blank line is rewritten as a bare newline |
| Consolidation.RelabelLineTokens | stratification/consolidation.py:56-62 | when the mapping's values are tokens, the rewritten line splits into the relabelled tokens |
| Consolidation.FilterImagesMembers | stratification/consolidation.py:73 | the kept images are exactly the listing's `.png/.jpg/.jpeg` names, case-insensitively |
| Consolidation.FilterLabelsMembers | stratification/consolidation.py:74 | the kept labels are exactly the listing's `.txt` names, case-insensitively |
| Consolidation.WithLabelMembers | stratification/consolidation.py:77 | an image is kept iff `stem + '.txt'` is among the labels |
| Consolidation.PairingFacts | stratification/consolidation.py:73-78 | an image is kept iff it is a `.png/.jpg/.jpeg` of the listing whose `stem + '.txt'` is a label file; the i-th label is the i-th image's stem plus `.txt` |
| Accounts.MenuFor | main.py:161-164 | four pages, with zone setup and plate database, iff the name is exactly "admin"; otherwise profile and video only |
| Accounts.App.constructor | main.py:15-26 | the registry is the database file's contents or empty, and the session is not logged in |
| Accounts.App.Authenticates | main.py:41-44 | an unknown name never authenticates |
| Accounts.App.RegisterUser | main.py:33-38 | a taken name is refused and nothing changes; a new one (any string, "" and "admin" included) is bound to the hash and saved, and then authenticates; no other name's authentication changes |
| Accounts.App.Login | main.py:139-146 | the session becomes logged in under the name iff authentication succeeds; otherwise nothing changes; the registry is never changed |
| Accounts.App.Logout | main.py:76-79 | logged out, no user name, registry unchanged |
| Accounts.App.CurrentScreen | main.py:122-164 | the login page iff not logged in; otherwise the menu of the user's name |
| Accounts.RegisterThenLogin | main.py:36-44 | after registering a new name, logging in with the same password succeeds and shows that name's menu |
| Accounts.FirstAdmin | main.py:33-38 | on an empty database, whoever registers "admin" first gets the administrator's menu |
| Accounts.LogoutShowsLogin | main.py:105-108 | after logout the login page is shown |

## Left out

- Detector calls (YOLO) are parameters: functions from an image to its boxes, in report order. Confidences and float coordinates are left out; corners are integers.
- Recognition.TwoRowOrder: the mean top edge is a float division in the source. The model compares `y1 * n < sum` exactly, which equals the source only when the float mean is exact.
- OpenCV is left out: decoding, drawing (`zone_intersest_plot`, the text rendering in `miss_stop`), colour conversion and `imwrite`. Only the MISS/STOP label choice is modelled. A crop is a symbolic image, so an empty crop that would make `imwrite` raise, and end the stream, is not distinguished.
- VideoProcessing.PlayVideo: an exception raised by a detector or by saving a crop, which would end the stream early, is not modelled.
- Threads are left out: `threading`, `add_script_run_ctx`, joins, and the shared stop flag as shared state. One stream runs sequentially, and the flag's value before each read is an input.
- VideoProcessing.Play: which worker builds the placeholder grid (lines 203-210 of `files/videoProcessing.py`) depends on thread scheduling, so it is an input (`buildsGrid`). The model does not prove that exactly one worker builds it. The placeholders themselves, and the frames shown in them, are UI and left out.
- File effects are left out or taken as inputs:
  - the identifier log and the crop saving are effects left out;
  - the allow-list CSV read is an input (`None` when unreadable, otherwise the column's cells after `str()`), fixed for a whole run;
  - the users database file is an input and an output field of `App`.
- Accounts.App.constructor: the database file is taken to decode to a map from strings to strings. A file that fails to parse, or holds other JSON, is not modelled.
- SHA-256 (section 6.2 of FIPS 180-4) is an arbitrary function parameter. Nothing assumes it is injective.
- The Streamlit UI is left out: widgets, pages, forms, uploaders, `st.rerun`. The edit-data page is left out, and `files/profile.py`, `run_main.py` and `files/editData.py` are not part of this model.
- ZoneSettings.InitialSelection: the frame image and the name file that the page reads first are not modelled; their failure ends the page with an error in the source.
- ZoneSettings.Json: JSON values are limited to integers and integer lists, the shapes the record holds.
- ZoneSettings.Slider: every list default is treated as raising. Streamlit opens a range slider for a two-element list default, which only a hand-edited record could contain; that range slider, and the zone it would give, are not modelled.
- ZoneSettings.Slider: the model follows Streamlit in widening a slider's range to contain its default. Streamlit's other argument checks are not modelled, including its handling of a zero-width range on a frame of height or width 0.
- PyStrings.Lower: Python's `str.lower` is modelled on ASCII letters only. This is exact for the extension tests, whose targets are ASCII.
- Consolidation: `os.walk`, `os.listdir` and `shutil.copy2` are inputs or left out. A destination directory is a map from file name to the file copied there, and file contents are not tracked. The `train_test_split` call, the plots, `plot_combined_class_distribution` and the module-level script are left out.
