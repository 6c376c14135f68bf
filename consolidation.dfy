/** The dataset tooling of stratification/consolidation.py: gathering
    images and label files into one place, collecting and rewriting the
    class ids of YOLO label lines, and pairing images with their labels.

    Directory listings and file contents are inputs: a walk of a source
    directory is a sequence of listings (a directory path and the file
    names in it, in the order produced), and a text file is its name and
    its lines. */
module Consolidation {
  import opened Wrappers
  import opened PyStrings

  // ---------------------------------------------------------------------
  // File names
  // ---------------------------------------------------------------------

  /** The last position of `c` in `s`, or -1. */
  function LastIndex(s: string, c: char): (r: int)
    ensures -1 <= r < |s|
  {
    if s == [] then -1
    else if s[|s| - 1] == c then |s| - 1
    else LastIndex(s[..|s| - 1], c)
  }

  lemma {:induction false} LastIndexFacts(s: string, c: char)
    ensures var r := LastIndex(s, c);
      && (r >= 0 ==> s[r] == c)
      && (forall j :: r < j < |s| ==> s[j] != c)
  {
    if s != [] && s[|s| - 1] != c {
      LastIndexFacts(s[..|s| - 1], c);
    }
  }

  /** `os.path.splitext(p)` on POSIX: the extension starts at the last '.'
      after the last '/', unless only dots precede it in the final
      component (a name such as ".png" has no extension). */
  function Splitext(p: string): (string, string) {
    var sep := LastIndex(p, '/');
    var dot := LastIndex(p, '.');
    if dot > sep && exists j :: sep + 1 <= j < dot && p[j] != '.' then (p[..dot], p[dot..])
    else (p, "")
  }

  /** The two parts put back together give the name, and the extension is
      empty or one dot followed by neither dots nor separators. */
  lemma SplitextFacts(p: string)
    ensures Splitext(p).0 + Splitext(p).1 == p
    ensures var ext := Splitext(p).1;
      ext == [] || (ext[0] == '.' && '.' !in ext[1..] && '/' !in ext)
  {
    var sep := LastIndex(p, '/');
    var dot := LastIndex(p, '.');
    LastIndexFacts(p, '/');
    LastIndexFacts(p, '.');
    if dot > sep && exists j :: sep + 1 <= j < dot && p[j] != '.' {
      var ext := p[dot..];
      assert p[..dot] + ext == p;
      forall j | 0 <= j < |ext| ensures ext[j] != '/' && (j > 0 ==> ext[j] != '.') {
        assert ext[j] == p[dot + j];
      }
    }
  }

  function Stem(p: string): string {
    Splitext(p).0
  }

  const ImageExtensions: set<string> := {".jpg", ".jpeg", ".png", ".bmp", ".gif", ".tiff"}

  datatype FileKind = ImageFile | LabelFile | Skipped

  /** Classification by the lower-cased extension. */
  function Kind(name: string): FileKind {
    var ext := Lower(Splitext(name).1);
    if ext in ImageExtensions then ImageFile
    else if ext == ".txt" then LabelFile
    else Skipped
  }

  /** `LastIndex` finds the position `k` when `c` is there and nowhere after. */
  lemma LastIndexAt(s: string, c: char, k: nat)
    requires k < |s| && s[k] == c
    requires forall j :: k < j < |s| ==> s[j] != c
    ensures LastIndex(s, c) == k
  {
    LastIndexFacts(s, c);
  }

  lemma LastIndexAbsent(s: string, c: char)
    requires c !in s
    ensures LastIndex(s, c) == -1
  {
    LastIndexFacts(s, c);
  }

  /** Upper-case extensions are recognised. */
  lemma UpperCaseExtension()
    ensures Kind("car.JPG") == ImageFile
  {
    var p := "car.JPG";
    LastIndexAt(p, '.', 3);
    LastIndexAbsent(p, '/');
    assert p[0] != '.';
    assert Splitext(p).1 == p[3..] == ".JPG";
    assert Lower(".JPG") == ".jpg";
  }

  lemma LabelExtension()
    ensures Kind("car.txt") == LabelFile
  {
    var p := "car.txt";
    LastIndexAt(p, '.', 3);
    LastIndexAbsent(p, '/');
    assert p[0] != '.';
    assert Splitext(p).1 == p[3..] == ".txt";
    assert Lower(".txt") == ".txt";
  }

  /** A leading dot alone is not an extension: ".png" is skipped. */
  lemma HiddenNameSkipped()
    ensures Kind(".png") == Skipped
  {
    var p := ".png";
    LastIndexAt(p, '.', 0);
    LastIndexAbsent(p, '/');
    assert Splitext(p).1 == "";
  }

  /** Only the last extension counts. */
  lemma LastExtensionCounts()
    ensures Kind("car.png.zip") == Skipped
  {
    var p := "car.png.zip";
    LastIndexAt(p, '.', 7);
    LastIndexAbsent(p, '/');
    assert p[0] != '.';
    assert Splitext(p).1 == p[7..] == ".zip";
    assert Lower(".zip") == ".zip";
  }

  // ---------------------------------------------------------------------
  // consolidate_files
  // ---------------------------------------------------------------------

  /** One directory of a walk: its path and the names of its files. */
  datatype Listing = Listing(root: string, files: seq<string>)

  /** A file found by a walk: the directory it is in and its name. */
  datatype SourceFile = SourceFile(root: string, name: string)

  /** The two destination directories, each a map from file name to the
      file copied there last. */
  datatype Target = Target(images: map<string, SourceFile>, labels: map<string, SourceFile>)

  function FilesOf(l: Listing): seq<SourceFile> {
    seq(|l.files|, i requires 0 <= i < |l.files| => SourceFile(l.root, l.files[i]))
  }

  /** The files of a walk, directory by directory. */
  function WalkFiles(walk: seq<Listing>): seq<SourceFile> {
    if walk == [] then [] else WalkFiles(walk[..|walk| - 1]) + FilesOf(walk[|walk| - 1])
  }

  /** The files of all walks, source directory by source directory. */
  function AllFiles(sources: seq<seq<Listing>>): seq<SourceFile> {
    if sources == [] then [] else AllFiles(sources[..|sources| - 1]) + WalkFiles(sources[|sources| - 1])
  }

  /** Copy one file to the destination its kind selects, under its own name. */
  function Place(t: Target, f: SourceFile): Target {
    match Kind(f.name)
    case ImageFile => t.(images := t.images[f.name := f])
    case LabelFile => t.(labels := t.labels[f.name := f])
    case Skipped => t
  }

  function PlaceAll(t: Target, fs: seq<SourceFile>): Target {
    if fs == [] then t else Place(PlaceAll(t, fs[..|fs| - 1]), fs[|fs| - 1])
  }

  lemma {:induction false} PlaceAllAppend(t: Target, a: seq<SourceFile>, b: seq<SourceFile>)
    ensures PlaceAll(t, a + b) == PlaceAll(PlaceAll(t, a), b)
    decreases |b|
  {
    if b == [] {
      assert a + b == a;
    } else {
      assert (a + b)[..|a + b| - 1] == a + b[..|b| - 1];
      PlaceAllAppend(t, a, b[..|b| - 1]);
    }
  }

  lemma PlaceAllSnoc(t: Target, fs: seq<SourceFile>, f: SourceFile)
    ensures PlaceAll(t, fs + [f]) == Place(PlaceAll(t, fs), f)
  {
    assert (fs + [f])[..|fs|] == fs;
  }

  lemma PlaceListingStep(t0: Target, listing: Listing, i: nat)
    requires i < |listing.files|
    ensures PlaceAll(t0, FilesOf(listing)[..i + 1])
      == Place(PlaceAll(t0, FilesOf(listing)[..i]), SourceFile(listing.root, listing.files[i]))
  {
    var fs := FilesOf(listing);
    assert fs[..i + 1] == fs[..i] + [fs[i]];
    PlaceAllSnoc(t0, fs[..i], fs[i]);
  }

  /** The innermost loop: copy the files of one directory. */
  method PlaceListing(t0: Target, listing: Listing) returns (t: Target)
    ensures t == PlaceAll(t0, FilesOf(listing))
  {
    t := t0;
    var i := 0;
    while i < |listing.files|
      invariant 0 <= i <= |listing.files|
      invariant t == PlaceAll(t0, FilesOf(listing)[..i])
    {
      var f := SourceFile(listing.root, listing.files[i]);
      PlaceListingStep(t0, listing, i);
      t := Place(t, f);
      i := i + 1;
    }
    assert FilesOf(listing)[..i] == FilesOf(listing);
  }

  /** The loop over the directories of one walk. */
  method PlaceWalk(t0: Target, walk: seq<Listing>) returns (t: Target)
    ensures t == PlaceAll(t0, WalkFiles(walk))
  {
    t := t0;
    var r := 0;
    while r < |walk|
      invariant 0 <= r <= |walk|
      invariant t == PlaceAll(t0, WalkFiles(walk[..r]))
    {
      assert walk[..r + 1][..r] == walk[..r];
      PlaceAllAppend(t0, WalkFiles(walk[..r]), FilesOf(walk[r]));
      t := PlaceListing(t, walk[r]);
      r := r + 1;
    }
    assert walk[..r] == walk;
  }

  /** `consolidate_files`: the loop over the source directories, from the
      destination directories' contents `t0`. */
  method ConsolidateFiles(sources: seq<seq<Listing>>, t0: Target) returns (t: Target)
    ensures t == PlaceAll(t0, AllFiles(sources))
  {
    t := t0;
    var d := 0;
    while d < |sources|
      invariant 0 <= d <= |sources|
      invariant t == PlaceAll(t0, AllFiles(sources[..d]))
    {
      assert sources[..d + 1][..d] == sources[..d];
      PlaceAllAppend(t0, AllFiles(sources[..d]), WalkFiles(sources[d]));
      t := PlaceWalk(t, sources[d]);
      d := d + 1;
    }
    assert sources[..d] == sources;
  }

  /** A name that none of the files has keeps its old destination entries. */
  lemma {:induction false} UntouchedName(t: Target, fs: seq<SourceFile>, n: string)
    requires forall j :: 0 <= j < |fs| ==> fs[j].name != n
    ensures var u := PlaceAll(t, fs);
      && (n in u.images <==> n in t.images) && (n in t.images ==> u.images[n] == t.images[n])
      && (n in u.labels <==> n in t.labels) && (n in t.labels ==> u.labels[n] == t.labels[n])
  {
    if fs != [] {
      UntouchedName(t, fs[..|fs| - 1], n);
    }
  }

  /** Destinations are keyed by the bare file name: of several files with the
      same name, the last one copied is the one left, in the directory its
      kind selects. */
  lemma {:induction false} LastWriterWins(t: Target, fs: seq<SourceFile>, i: nat)
    requires i < |fs|
    requires forall j :: i < j < |fs| ==> fs[j].name != fs[i].name
    ensures var u, f := PlaceAll(t, fs), fs[i];
      && (Kind(f.name) == ImageFile ==> f.name in u.images && u.images[f.name] == f)
      && (Kind(f.name) == LabelFile ==> f.name in u.labels && u.labels[f.name] == f)
  {
    var f := fs[i];
    var init, last := fs[..|fs| - 1], fs[|fs| - 1];
    assert PlaceAll(t, fs) == Place(PlaceAll(t, init), last);
    if i == |fs| - 1 {
      PlaceSelf(PlaceAll(t, init), f);
    } else {
      assert init[i] == f;
      LastWriterWins(t, init, i);
      PlaceKeepsOthers(PlaceAll(t, init), last, f.name);
    }
  }

  lemma PlaceSelf(t: Target, f: SourceFile)
    ensures var u := Place(t, f);
      && (Kind(f.name) == ImageFile ==> f.name in u.images && u.images[f.name] == f)
      && (Kind(f.name) == LabelFile ==> f.name in u.labels && u.labels[f.name] == f)
  {
  }

  /** Placing a file leaves the entries of every other name as they were. */
  lemma PlaceKeepsOthers(t: Target, g: SourceFile, name: string)
    requires g.name != name
    ensures var u := Place(t, g);
      && (name in u.images <==> name in t.images)
      && (name in t.images ==> u.images[name] == t.images[name])
      && (name in u.labels <==> name in t.labels)
      && (name in t.labels ==> u.labels[name] == t.labels[name])
  {
  }

  /** Every entry of a destination is an old one or a file of its kind. */
  lemma DestinationsByKind(t: Target, fs: seq<SourceFile>)
    ensures var u := PlaceAll(t, fs);
      && (forall n :: n in u.images ==>
            (n in t.images && u.images[n] == t.images[n])
            || (u.images[n] in fs && u.images[n].name == n && Kind(n) == ImageFile))
      && (forall n :: n in u.labels ==>
            (n in t.labels && u.labels[n] == t.labels[n])
            || (u.labels[n] in fs && u.labels[n].name == n && Kind(n) == LabelFile))
  {
    ImagesByKind(t, fs);
    LabelsByKind(t, fs);
  }

  lemma {:induction false} ImagesByKind(t: Target, fs: seq<SourceFile>)
    ensures var u := PlaceAll(t, fs);
      forall n :: n in u.images ==>
        (n in t.images && u.images[n] == t.images[n])
        || (u.images[n] in fs && u.images[n].name == n && Kind(n) == ImageFile)
  {
    if fs != [] {
      var init, f := fs[..|fs| - 1], fs[|fs| - 1];
      ImagesByKind(t, init);
      assert PlaceAll(t, fs) == Place(PlaceAll(t, init), f);
      PlaceImage(PlaceAll(t, init), f);
      assert forall g :: g in init ==> g in fs;
    }
  }

  /** An entry after placing `f` is the old entry or `f` itself. */
  lemma PlaceImage(t: Target, f: SourceFile)
    ensures var u := Place(t, f);
      forall n :: n in u.images ==>
        (n in t.images && u.images[n] == t.images[n]) || (u.images[n] == f && f.name == n && Kind(n) == ImageFile)
  {
  }

  lemma {:induction false} LabelsByKind(t: Target, fs: seq<SourceFile>)
    ensures var u := PlaceAll(t, fs);
      forall n :: n in u.labels ==>
        (n in t.labels && u.labels[n] == t.labels[n])
        || (u.labels[n] in fs && u.labels[n].name == n && Kind(n) == LabelFile)
  {
    if fs != [] {
      var init, f := fs[..|fs| - 1], fs[|fs| - 1];
      LabelsByKind(t, init);
      assert PlaceAll(t, fs) == Place(PlaceAll(t, init), f);
      PlaceLabel(PlaceAll(t, init), f);
      assert forall g :: g in init ==> g in fs;
    }
  }

  /** An entry after placing `f` is the old entry or `f` itself. */
  lemma PlaceLabel(t: Target, f: SourceFile)
    ensures var u := Place(t, f);
      forall n :: n in u.labels ==>
        (n in t.labels && u.labels[n] == t.labels[n]) || (u.labels[n] == f && f.name == n && Kind(n) == LabelFile)
  {
  }

  // ---------------------------------------------------------------------
  // get_class_labels
  // ---------------------------------------------------------------------

  /** A file of a label directory: its name and its lines. */
  datatype TextFile = TextFile(name: string, lines: seq<string>)

  /** `line.strip().split()[0]`, or None where the index raises (a blank
      line). The `strip` changes nothing here (`SplitIgnoresStrip`), so the
      specification functions below split the line directly. */
  function FirstToken(line: string): Option<string> {
    var parts := Split(line);
    if parts == [] then None else Some(parts[0])
  }

  /** The first tokens of the lines of the `.txt` files, or None if some
      line of one of them is blank. */
  function LabelsOfLines(lines: seq<string>): Option<set<string>> {
    if lines == [] then Some({})
    else
      match LabelsOfLines(lines[..|lines| - 1])
      case None => None
      case Some(labels) =>
        match FirstToken(lines[|lines| - 1])
        case None => None
        case Some(t) => Some(labels + {t})
  }

  function LabelsOfFiles(files: seq<TextFile>): Option<set<string>> {
    if files == [] then Some({})
    else
      var f := files[|files| - 1];
      match LabelsOfFiles(files[..|files| - 1])
      case None => None
      case Some(labels) =>
        if !EndsWith(f.name, ".txt") then Some(labels)
        else
          match LabelsOfLines(f.lines)
          case None => None
          case Some(more) => Some(labels + more)
  }

  function Elements(s: seq<string>): set<string> {
    set y | y in s
  }

  /** String order strictly increasing along the sequence. */
  predicate StrictlySorted(s: seq<string>) {
    forall i, j :: 0 <= i < j < |s| ==> Less(s[i], s[j])
  }

  /** Insert `x` at its place in a strictly sorted sequence without it. */
  function InsertSorted(s: seq<string>, x: string): (r: seq<string>)
    requires StrictlySorted(s) && x !in s
    ensures StrictlySorted(r)
    ensures Elements(r) == Elements(s) + {x}
    ensures |r| == |s| + 1
  {
    if s == [] then [x]
    else if Less(x, s[0]) then
      forall j | 0 <= j < |s| ensures Less(x, s[j]) {
        if j > 0 { LessTransitive(x, s[0], s[j]); }
      }
      [x] + s
    else
      LessTotal(x, s[0]);
      var rest := InsertSorted(s[1..], x);
      forall j | 0 <= j < |rest| ensures Less(s[0], rest[j]) {
        assert rest[j] in Elements(rest);
        if rest[j] != x {
          assert rest[j] in Elements(s[1..]);
          var k :| 0 <= k < |s[1..]| && s[1..][k] == rest[j];
          assert s[k + 1] == rest[j];
        }
      }
      assert s == [s[0]] + s[1..];
      assert Elements(s) == {s[0]} + Elements(s[1..]);
      assert Elements([s[0]] + rest) == {s[0]} + Elements(rest);
      [s[0]] + rest
  }

  /** `sorted(list(labels))`: the labels once each, in string order. */
  method SortedLabels(labels: set<string>) returns (r: seq<string>)
    ensures StrictlySorted(r)
    ensures Elements(r) == labels
  {
    r := [];
    var rest := labels;
    while rest != {}
      invariant StrictlySorted(r)
      invariant Elements(r) + rest == labels
      invariant Elements(r) !! rest
      decreases |rest|
    {
      var x :| x in rest;
      r := InsertSorted(r, x);
      rest := rest - {x};
    }
  }

  /** A strictly sorted sequence is fixed by its elements: whatever order
      the set is listed in, the sorted result is the same. */
  lemma {:induction false} SortedUnique(a: seq<string>, b: seq<string>)
    requires StrictlySorted(a) && StrictlySorted(b)
    requires Elements(a) == Elements(b)
    ensures a == b
  {
    if a != [] && b != [] {
      assert a[0] in Elements(a) && b[0] in Elements(b);
      if a[0] != b[0] {
        var i :| 0 <= i < |b| && b[i] == a[0];
        var j :| 0 <= j < |a| && a[j] == b[0];
        assert Less(b[0], a[0]) by { if i == 0 { } }
        assert Less(a[0], b[0]) by { if j == 0 { } }
        LessTransitive(a[0], b[0], a[0]);
        LessIrreflexive(a[0]);
      }
      forall y ensures y in a[1..] <==> y in b[1..] {
        if y in a[1..] {
          var k :| 1 <= k < |a| && a[k] == y;
          LessIrreflexive(y);
          assert y in Elements(a);
          assert y != b[0];
        }
        if y in b[1..] {
          var k :| 1 <= k < |b| && b[k] == y;
          LessIrreflexive(y);
          assert y in Elements(b);
          assert y != a[0];
        }
      }
      SortedTailOf(a);
      SortedTailOf(b);
      SortedUnique(a[1..], b[1..]);
      assert a == [a[0]] + a[1..] && b == [b[0]] + b[1..];
    } else {
      HeadInElements(a);
      HeadInElements(b);
    }
  }

  lemma HeadInElements(s: seq<string>)
    ensures s != [] ==> s[0] in Elements(s)
  {
  }

  lemma SortedTailOf(s: seq<string>)
    requires s != [] && StrictlySorted(s)
    ensures StrictlySorted(s[1..])
  {
    var t := s[1..];
    forall i, j | 0 <= i < j < |t| ensures Less(t[i], t[j]) {
      assert t[i] == s[i + 1] && t[j] == s[j + 1];
    }
  }

  /** The lines of one `.txt` file added to the labels collected so far;
      None where a blank line raises. */
  method AddLineLabels(lines: seq<string>, labels: set<string>) returns (r: Option<set<string>>)
    ensures r.None? <==> LabelsOfLines(lines).None?
    ensures r.Some? ==> r.value == labels + LabelsOfLines(lines).value
  {
    var classLabels := labels;
    var i := 0;
    while i < |lines|
      invariant 0 <= i <= |lines|
      invariant LabelsOfLines(lines[..i]).Some?
      invariant classLabels == labels + LabelsOfLines(lines[..i]).value
    {
      assert lines[..i + 1][..i] == lines[..i];
      var parts := Split(Strip(lines[i]));
      SplitIgnoresStrip(lines[i]);
      if parts == [] {
        LinesFailure(lines, i + 1);
        return None;
      }
      classLabels := classLabels + {parts[0]};
      i := i + 1;
    }
    assert lines[..i] == lines;
    r := Some(classLabels);
  }

  /** `get_class_labels` over the listing of a label directory. */
  method GetClassLabels(files: seq<TextFile>) returns (r: Option<seq<string>>)
    ensures r.None? <==> LabelsOfFiles(files).None?
    ensures r.Some? ==> StrictlySorted(r.value) && Elements(r.value) == LabelsOfFiles(files).value
  {
    var classLabels: set<string> := {};
    var k := 0;
    while k < |files|
      invariant 0 <= k <= |files|
      invariant LabelsOfFiles(files[..k]) == Some(classLabels)
    {
      var file := files[k];
      assert files[..k + 1][..k] == files[..k];
      if EndsWith(file.name, ".txt") {
        var added := AddLineLabels(file.lines, classLabels);
        if added.None? {
          FilesFailure(files, k + 1);
          return None;
        }
        classLabels := added.value;
      }
      k := k + 1;
    }
    assert files[..k] == files;
    var sorted := SortedLabels(classLabels);
    r := Some(sorted);
  }

  /** A blank line makes the whole collection raise. */
  lemma {:induction false} LinesFailure(lines: seq<string>, n: nat)
    requires n <= |lines| && LabelsOfLines(lines[..n]).None?
    ensures LabelsOfLines(lines).None?
    decreases |lines| - n
  {
    if n < |lines| {
      assert lines[..n + 1][..n] == lines[..n];
      LinesFailure(lines, n + 1);
    } else {
      assert lines[..n] == lines;
    }
  }

  lemma {:induction false} FilesFailure(files: seq<TextFile>, n: nat)
    requires n <= |files| && LabelsOfFiles(files[..n]).None?
    ensures LabelsOfFiles(files).None?
    decreases |files| - n
  {
    if n < |files| {
      assert files[..n + 1][..n] == files[..n];
      FilesFailure(files, n + 1);
    } else {
      assert files[..n] == files;
    }
  }

  /** The collected labels are exactly the first tokens of the lines of the
      `.txt` files. */
  lemma LabelsAreFirstTokens(lines: seq<string>)
    requires LabelsOfLines(lines).Some?
    ensures forall i :: 0 <= i < |lines| ==> FirstToken(lines[i]).Some?
    ensures forall t :: t in LabelsOfLines(lines).value <==>
      exists i :: 0 <= i < |lines| && FirstToken(lines[i]) == Some(t)
  {
    LinesHaveTokens(lines);
    LabelsOfTokens(lines);
  }

  lemma {:induction false} LinesHaveTokens(lines: seq<string>)
    requires LabelsOfLines(lines).Some?
    ensures forall i :: 0 <= i < |lines| ==> FirstToken(lines[i]).Some?
  {
    if lines != [] {
      var init := lines[..|lines| - 1];
      LinesHaveTokens(init);
      forall i | 0 <= i < |lines| ensures FirstToken(lines[i]).Some? {
        if i < |init| { assert lines[i] == init[i]; }
      }
    }
  }

  lemma {:induction false} LabelsOfTokens(lines: seq<string>)
    requires LabelsOfLines(lines).Some?
    ensures forall t :: t in LabelsOfLines(lines).value <==>
      exists i :: 0 <= i < |lines| && FirstToken(lines[i]) == Some(t)
  {
    if lines != [] {
      var init, last := lines[..|lines| - 1], lines[|lines| - 1];
      LabelsOfTokens(init);
      var labels := LabelsOfLines(init).value;
      var t0 := FirstToken(last).value;
      assert LabelsOfLines(lines).value == labels + {t0};
      assert lines == init + [last];
      forall t ensures t in labels + {t0} <==>
        exists i :: 0 <= i < |lines| && FirstToken(lines[i]) == Some(t)
      {
        LabelStep(init, last, lines, labels, t0, t);
      }
    }
  }

  lemma LabelStep(init: seq<string>, last: string, lines: seq<string>,
                  labels: set<string>, t0: string, t: string)
    requires lines == init + [last]
    requires forall t :: t in labels <==>
      exists i :: 0 <= i < |init| && FirstToken(init[i]) == Some(t)
    requires FirstToken(last) == Some(t0)
    ensures t in labels + {t0} <==>
      exists i :: 0 <= i < |lines| && FirstToken(lines[i]) == Some(t)
  {
    if t in labels {
      var i :| 0 <= i < |init| && FirstToken(init[i]) == Some(t);
      assert lines[i] == init[i];
    }
    if t == t0 {
      assert lines[|lines| - 1] == last;
    }
    if exists i :: 0 <= i < |lines| && FirstToken(lines[i]) == Some(t) {
      var i :| 0 <= i < |lines| && FirstToken(lines[i]) == Some(t);
      if i < |init| { assert lines[i] == init[i]; }
    }
  }

  // ---------------------------------------------------------------------
  // replace_class_labels
  // ---------------------------------------------------------------------

  /** Replace the first token when it is a key of the mapping, once. */
  function RelabelTokens(parts: seq<string>, mapping: map<string, string>): seq<string> {
    if parts != [] && parts[0] in mapping then [mapping[parts[0]]] + parts[1..] else parts
  }

  /** The rewritten line: the tokens joined by single spaces, and a newline. */
  function RelabelLine(line: string, mapping: map<string, string>): string {
    Join(RelabelTokens(Split(line), mapping)) + "\n"
  }

  predicate Mapped(line: string, mapping: map<string, string>) {
    var parts := Split(line);
    parts != [] && parts[0] in mapping
  }

  /** Some line of `lines[..n]` has a mapped first token. */
  predicate AnyMapped(lines: seq<string>, n: nat, mapping: map<string, string>)
    requires n <= |lines|
  {
    n > 0 && (AnyMapped(lines, n - 1, mapping) || Mapped(lines[n - 1], mapping))
  }

  lemma {:induction false} AnyMappedIff(lines: seq<string>, n: nat, mapping: map<string, string>)
    requires n <= |lines|
    ensures AnyMapped(lines, n, mapping) <==> exists i :: 0 <= i < n && Mapped(lines[i], mapping)
  {
    if n > 0 {
      AnyMappedIff(lines, n - 1, mapping);
    }
  }

  /** The body of the loop for one line: its rewrite, and whether its first
      token was mapped. */
  method RelabelOne(line: string, mapping: map<string, string>) returns (newLine: string, mapped: bool)
    ensures newLine == RelabelLine(line, mapping)
    ensures mapped == Mapped(line, mapping)
  {
    var parts := Split(Strip(line));
    SplitIgnoresStrip(line);
    mapped := false;
    if parts != [] {
      var oldClass := parts[0];
      if oldClass in mapping {
        parts := [mapping[oldClass]] + parts[1..];
        mapped := true;
      }
    }
    newLine := Join(parts) + "\n";
  }

  /** The loop over the lines of one file: the new lines, and whether any
      first token was mapped. */
  method RelabelLines(lines: seq<string>, mapping: map<string, string>)
    returns (newLines: seq<string>, modified: bool)
    ensures |newLines| == |lines|
    ensures forall i :: 0 <= i < |lines| ==> newLines[i] == RelabelLine(lines[i], mapping)
    ensures modified <==> exists i :: 0 <= i < |lines| && Mapped(lines[i], mapping)
  {
    modified := false;
    newLines := [];
    var i := 0;
    while i < |lines|
      invariant 0 <= i <= |lines|
      invariant |newLines| == i
      invariant forall j :: 0 <= j < i ==> newLines[j] == RelabelLine(lines[j], mapping)
      invariant modified == AnyMapped(lines, i, mapping)
    {
      var newLine, mapped := RelabelOne(lines[i], mapping);
      RelabelStep(lines, i, newLines, newLine, mapping);
      AnyMappedStep(lines, i, mapping, mapped);
      newLines := newLines + [newLine];
      modified := modified || mapped;
      i := i + 1;
    }
    AnyMappedIff(lines, |lines|, mapping);
  }

  lemma AnyMappedStep(lines: seq<string>, i: nat, mapping: map<string, string>, mapped: bool)
    requires i < |lines| && mapped == Mapped(lines[i], mapping)
    ensures AnyMapped(lines, i + 1, mapping) == (AnyMapped(lines, i, mapping) || mapped)
  {
  }

  lemma RelabelStep(lines: seq<string>, i: nat, done: seq<string>, line: string,
                    mapping: map<string, string>)
    requires i < |lines| && |done| == i
    requires forall j :: 0 <= j < i ==> done[j] == RelabelLine(lines[j], mapping)
    requires line == RelabelLine(lines[i], mapping)
    ensures forall j :: 0 <= j <= i ==> (done + [line])[j] == RelabelLine(lines[j], mapping)
  {
  }

  /** `replace_class_labels`: every `.txt` file with a mapped line is
      rewritten; the others are left as they are. */
  method ReplaceClassLabels(files: seq<TextFile>, mapping: map<string, string>)
    returns (result: seq<TextFile>)
    ensures |result| == |files|
    ensures forall k :: 0 <= k < |files| ==> result[k].name == files[k].name
    ensures forall k :: 0 <= k < |files| ==>
      if EndsWith(files[k].name, ".txt")
         && exists i :: 0 <= i < |files[k].lines| && Mapped(files[k].lines[i], mapping)
      then result[k].lines == seq(|files[k].lines|, i requires 0 <= i < |files[k].lines| =>
                                    RelabelLine(files[k].lines[i], mapping))
      else result[k] == files[k]
  {
    result := [];
    var k := 0;
    while k < |files|
      invariant 0 <= k <= |files|
      invariant |result| == k
      invariant forall j :: 0 <= j < k ==> result[j].name == files[j].name
      invariant forall j :: 0 <= j < k ==>
        if EndsWith(files[j].name, ".txt")
           && exists i :: 0 <= i < |files[j].lines| && Mapped(files[j].lines[i], mapping)
        then result[j].lines == seq(|files[j].lines|, i requires 0 <= i < |files[j].lines| =>
                                      RelabelLine(files[j].lines[i], mapping))
        else result[j] == files[j]
    {
      var file := files[k];
      var next := file;
      if EndsWith(file.name, ".txt") {
        var newLines, modified := RelabelLines(file.lines, mapping);
        if modified {
          next := TextFile(file.name, newLines);
        }
      }
      result := result + [next];
      k := k + 1;
    }
  }

  /** Only the first token can change; the others stay, in order. */
  lemma RelabelKeepsOtherTokens(parts: seq<string>, mapping: map<string, string>)
    ensures |RelabelTokens(parts, mapping)| == |parts|
    ensures parts != [] ==> RelabelTokens(parts, mapping)[1..] == parts[1..]
    ensures parts != [] && parts[0] !in mapping ==> RelabelTokens(parts, mapping) == parts
  {
  }

  /** The mapping is applied once: a first token whose image is itself a key
      is replaced by that image, not by the image's image. */
  lemma NoChaining(parts: seq<string>, mapping: map<string, string>)
    requires parts != [] && parts[0] in mapping && mapping[parts[0]] in mapping
    ensures var once, twice := mapping[parts[0]], mapping[mapping[parts[0]]];
      && RelabelTokens(parts, mapping) == [once] + parts[1..]
      && (twice != once ==> RelabelTokens(parts, mapping)[0] != twice)
  {
  }

  /** With 23 -> 22 and 22 -> 0, a first token 23 becomes 22, not 0. */
  lemma NoChainingExample()
    ensures RelabelTokens(["23", "0.5"], map["23" := "22", "22" := "0"]) == ["22", "0.5"]
  {
    var parts := ["23", "0.5"];
    assert parts[1..] == ["0.5"];
  }

  /** A blank line becomes a bare newline. */
  lemma BlankLine(line: string, mapping: map<string, string>)
    requires AllSpace(line)
    ensures RelabelLine(line, mapping) == "\n"
  {
    SplitAllSpace(line);
  }

  /** When the mapping's values are tokens, splitting a rewritten line gives
      the relabelled tokens back: one line in, one line out, other tokens
      unchanged. */
  lemma RelabelLineTokens(line: string, mapping: map<string, string>)
    requires forall k :: k in mapping ==> IsToken(mapping[k])
    ensures Split(RelabelLine(line, mapping)) == RelabelTokens(Split(line), mapping)
  {
    var parts := RelabelTokens(Split(line), mapping);
    SplitTokens(line);
    forall k | 0 <= k < |parts| ensures IsToken(parts[k]) {
      var orig := Split(line);
      if orig != [] && orig[0] in mapping && k > 0 {
        assert parts[k] == orig[k];
      }
    }
    assert AllSpace("\n");
    SplitJoin(parts, "\n");
  }

  // ---------------------------------------------------------------------
  // Pairing images with labels (stratify_and_split_dataset)
  // ---------------------------------------------------------------------

  predicate IsPairedImage(name: string) {
    var n := Lower(name);
    EndsWith(n, ".png") || EndsWith(n, ".jpg") || EndsWith(n, ".jpeg")
  }

  predicate IsLabelName(name: string) {
    EndsWith(Lower(name), ".txt")
  }

  function FilterImages(names: seq<string>): seq<string> {
    if names == [] then []
    else (if IsPairedImage(names[0]) then [names[0]] else []) + FilterImages(names[1..])
  }

  function FilterLabels(names: seq<string>): seq<string> {
    if names == [] then []
    else (if IsLabelName(names[0]) then [names[0]] else []) + FilterLabels(names[1..])
  }

  function LabelFor(image: string): string {
    Stem(image) + ".txt"
  }

  function WithLabel(images: seq<string>, labels: seq<string>): seq<string> {
    if images == [] then []
    else (if LabelFor(images[0]) in labels then [images[0]] else []) + WithLabel(images[1..], labels)
  }

  /** The image files kept and their label files, index by index. */
  function Pair(imageListing: seq<string>, labelListing: seq<string>): (r: (seq<string>, seq<string>)) {
    var images := WithLabel(FilterImages(imageListing), FilterLabels(labelListing));
    (images, seq(|images|, i requires 0 <= i < |images| => LabelFor(images[i])))
  }

  lemma {:induction false} FilterImagesMembers(names: seq<string>)
    ensures forall f :: f in FilterImages(names) <==> f in names && IsPairedImage(f)
  {
    if names != [] { FilterImagesMembers(names[1..]); }
  }

  lemma {:induction false} FilterLabelsMembers(names: seq<string>)
    ensures forall f :: f in FilterLabels(names) <==> f in names && IsLabelName(f)
  {
    if names != [] { FilterLabelsMembers(names[1..]); }
  }

  lemma {:induction false} WithLabelMembers(images: seq<string>, labels: seq<string>)
    ensures forall f :: f in WithLabel(images, labels) <==> f in images && LabelFor(f) in labels
  {
    if images != [] { WithLabelMembers(images[1..], labels); }
  }

  /** After pairing, every kept image is a `.png/.jpg/.jpeg` file of the
      image listing whose label `stem + '.txt'` is a `.txt` file of the
      label listing, every such image is kept, and the label at position i
      is the label of the image at position i. */
  lemma PairingFacts(imageListing: seq<string>, labelListing: seq<string>)
    ensures var (images, labels) := Pair(imageListing, labelListing);
      && |labels| == |images|
      && (forall i :: 0 <= i < |images| ==> labels[i] == Stem(images[i]) + ".txt")
      && (forall f :: f in images <==>
            f in imageListing && IsPairedImage(f)
            && LabelFor(f) in labelListing && IsLabelName(LabelFor(f)))
  {
    FilterImagesMembers(imageListing);
    FilterLabelsMembers(labelListing);
    WithLabelMembers(FilterImages(imageListing), FilterLabels(labelListing));
  }
}
