/** Plate localisation, character ordering and the allow-list comparison of
    files/videoProcessing.py (`image_processing`, `number_processing`,
    `comparison_number`). The plate/character detector is a parameter
    `plateModel: Image -> seq<Box>`; its `names` table is a map from class id
    to the character it stands for. */
module Recognition {
  import opened Wrappers
  import opened PyStrings
  import opened Detections

  // ---------------------------------------------------------------------
  // Plate localisation (image_processing)
  // ---------------------------------------------------------------------

  /** The position of the first plate box in detection order, or |dets|. */
  function FirstPlateIndex(dets: seq<Box>): (k: nat)
    ensures k <= |dets|
    ensures k < |dets| ==> dets[k].cls == PlateClass
    ensures forall j :: 0 <= j < k ==> dets[j].cls != PlateClass
  {
    if dets == [] then 0
    else if dets[0].cls == PlateClass then 0
    else 1 + FirstPlateIndex(dets[1..])
  }

  /** The image that `image_processing` returns for `image` when the detector
      reported `dets` on it. */
  function PlateOf(image: Image, dets: seq<Box>): Image {
    var k := FirstPlateIndex(dets);
    if k < |dets| then Crop(image, dets[k]) else image
  }

  /** Crop the image to the first box of the plate class; without one, the
      image is returned as it is. */
  method ImageProcessing(image: Image, plateModel: Image -> seq<Box>) returns (plate: Image)
    ensures var dets := plateModel(image);
      (forall j :: 0 <= j < |dets| ==> dets[j].cls != PlateClass) ==> plate == image
    ensures var dets := plateModel(image);
      forall k :: 0 <= k < |dets| && dets[k].cls == PlateClass
        && (forall j :: 0 <= j < k ==> dets[j].cls != PlateClass)
        ==> plate == Crop(image, dets[k])
    ensures plate == PlateOf(image, plateModel(image))
  {
    var dets := plateModel(image);
    var i := 0;
    while i < |dets| && dets[i].cls != PlateClass
      invariant 0 <= i <= |dets|
      invariant forall j :: 0 <= j < i ==> dets[j].cls != PlateClass
    {
      i := i + 1;
    }
    if i < |dets| {
      plate := Crop(image, dets[i]);
    } else {
      plate := image;
    }
  }

  // ---------------------------------------------------------------------
  // Character ordering (number_processing)
  // ---------------------------------------------------------------------

  /** `str(c)` for a digit class. */
  function DigitString(c: nat): (r: string)
    requires c < 10
    ensures |r| == 1 && '0' <= r[0] <= '9' && r[0] as int - '0' as int == c
  {
    [('0' as int + c) as char]
  }

  /** The branch of `get_val` that applies needs no name for digit classes. */
  predicate HasSymbol(b: Box, names: map<nat, string>) {
    b.cls < 10 || b.cls in names
  }

  predicate AllHaveSymbols(bs: seq<Box>, names: map<nat, string>) {
    forall i :: 0 <= i < |bs| ==> HasSymbol(bs[i], names)
  }

  /** Every box has an entry in the names table (`results.names[int(cls)]`). */
  predicate AllNamed(bs: seq<Box>, names: map<nat, string>) {
    forall i :: 0 <= i < |bs| ==> bs[i].cls in names
  }

  /** `get_val`: the decimal digit for classes below 10, the name otherwise. */
  function Symbol(b: Box, names: map<nat, string>): string
    requires HasSymbol(b, names)
  {
    if b.cls < 10 then DigitString(b.cls) else names[b.cls]
  }

  /** `''.join(map(get_val, bs))`: one symbol per box, in order. */
  function Render(bs: seq<Box>, names: map<nat, string>): string
    requires AllHaveSymbols(bs, names)
  {
    if bs == [] then "" else Symbol(bs[0], names) + Render(bs[1..], names)
  }

  /** A digit-only plate renders as one decimal digit per box. */
  lemma {:induction false} RenderDigits(bs: seq<Box>, names: map<nat, string>)
    requires forall i :: 0 <= i < |bs| ==> bs[i].cls < 10
    ensures |Render(bs, names)| == |bs|
    ensures forall i :: 0 <= i < |bs| ==> Render(bs, names)[i] as int == '0' as int + bs[i].cls
  {
    if bs != [] {
      RenderDigits(bs[1..], names);
      assert Render(bs, names) == DigitString(bs[0].cls) + Render(bs[1..], names);
      forall i | 0 <= i < |bs| ensures Render(bs, names)[i] as int == '0' as int + bs[i].cls {
        if i > 0 { assert bs[1..][i - 1] == bs[i]; }
      }
    }
  }

  /** The lowest bottom edge (`min_y2`). */
  function MinBottom(cs: seq<Box>): (m: int)
    requires cs != []
    ensures forall i :: 0 <= i < |cs| ==> m <= cs[i].y2
    ensures exists i :: 0 <= i < |cs| && m == cs[i].y2
  {
    if |cs| == 1 then cs[0].y2
    else
      var m := MinBottom(cs[1..]);
      assert forall i :: 1 <= i < |cs| ==> cs[i] == cs[1..][i - 1];
      if cs[0].y2 <= m then cs[0].y2 else m
  }

  /** The highest top edge (`max_y1`). */
  function MaxTop(cs: seq<Box>): (m: int)
    requires cs != []
    ensures forall i :: 0 <= i < |cs| ==> cs[i].y1 <= m
    ensures exists i :: 0 <= i < |cs| && m == cs[i].y1
  {
    if |cs| == 1 then cs[0].y1
    else
      var m := MaxTop(cs[1..]);
      assert forall i :: 1 <= i < |cs| ==> cs[i] == cs[1..][i - 1];
      if cs[0].y1 >= m then cs[0].y1 else m
  }

  /** The test `min_y2 > max_y1` holds exactly when every character's bottom
      edge lies below every character's top edge. */
  lemma SingleRowTest(cs: seq<Box>)
    requires cs != []
    ensures MinBottom(cs) > MaxTop(cs) <==>
      forall i, j :: 0 <= i < |cs| && 0 <= j < |cs| ==> cs[j].y1 < cs[i].y2
  {
    var lo := MinBottom(cs);
    var hi := MaxTop(cs);
    var i :| 0 <= i < |cs| && lo == cs[i].y2;
    var j :| 0 <= j < |cs| && hi == cs[j].y1;
  }

  /** The sum of the top edges (numerator of `avg_y`). */
  function SumTop(cs: seq<Box>): int {
    if cs == [] then 0 else SumTop(cs[..|cs| - 1]) + cs[|cs| - 1].y1
  }

  /** `y < avg_y`, that is `y < total / n`, without division (n > 0). */
  predicate AboveMean(b: Box, n: nat, total: int) {
    b.y1 * n < total
  }

  /** The upper row, in the order `upper.append` builds it. */
  function UpperRow(cs: seq<Box>, n: nat, total: int): seq<Box> {
    if cs == [] then []
    else (UpperRow(cs[..|cs| - 1], n, total)
      + (if AboveMean(cs[|cs| - 1], n, total) then [cs[|cs| - 1]] else []))
  }

  /** The lower row, in the order `lower.append` builds it. */
  function LowerRow(cs: seq<Box>, n: nat, total: int): seq<Box> {
    if cs == [] then []
    else (LowerRow(cs[..|cs| - 1], n, total)
      + (if AboveMean(cs[|cs| - 1], n, total) then [] else [cs[|cs| - 1]]))
  }

  /** The two rows split the characters: a box is in the upper row iff its top
      edge is above the mean, and in the lower row otherwise. */
  lemma RowsPartition(cs: seq<Box>, n: nat, total: int)
    ensures multiset(UpperRow(cs, n, total)) + multiset(LowerRow(cs, n, total)) == multiset(cs)
    ensures forall b :: b in UpperRow(cs, n, total) <==> b in cs && AboveMean(b, n, total)
    ensures forall b :: b in LowerRow(cs, n, total) <==> b in cs && !AboveMean(b, n, total)
  {
    RowsMultiset(cs, n, total);
    UpperMembers(cs, n, total);
    LowerMembers(cs, n, total);
  }

  lemma {:induction false} RowsMultiset(cs: seq<Box>, n: nat, total: int)
    ensures multiset(UpperRow(cs, n, total)) + multiset(LowerRow(cs, n, total)) == multiset(cs)
  {
    if cs != [] {
      var init, last := cs[..|cs| - 1], cs[|cs| - 1];
      RowsMultiset(init, n, total);
      assert cs == init + [last];
    }
  }

  lemma {:induction false} UpperMembers(cs: seq<Box>, n: nat, total: int)
    ensures forall b :: b in UpperRow(cs, n, total) <==> b in cs && AboveMean(b, n, total)
  {
    if cs != [] {
      var init, last := cs[..|cs| - 1], cs[|cs| - 1];
      UpperMembers(init, n, total);
      assert cs == init + [last];
      var tail := if AboveMean(last, n, total) then [last] else [];
      assert UpperRow(cs, n, total) == UpperRow(init, n, total) + tail;
      forall b ensures b in UpperRow(cs, n, total) <==> b in cs && AboveMean(b, n, total) {
        assert b in cs <==> b in init || b == last;
      }
    }
  }

  lemma {:induction false} LowerMembers(cs: seq<Box>, n: nat, total: int)
    ensures forall b :: b in LowerRow(cs, n, total) <==> b in cs && !AboveMean(b, n, total)
  {
    if cs != [] {
      var init, last := cs[..|cs| - 1], cs[|cs| - 1];
      LowerMembers(init, n, total);
      assert cs == init + [last];
      var tail := if AboveMean(last, n, total) then [] else [last];
      assert LowerRow(cs, n, total) == LowerRow(init, n, total) + tail;
      forall b ensures b in LowerRow(cs, n, total) <==> b in cs && !AboveMean(b, n, total) {
        assert b in cs <==> b in init || b == last;
      }
    }
  }

  lemma SortedRowNamed(row: seq<Box>, cs: seq<Box>, names: map<nat, string>)
    requires AllNamed(cs, names)
    requires forall b :: b in row ==> b in cs
    ensures AllHaveSymbols(SortByX(row), names)
  {
    var sorted := SortByX(row);
    forall i | 0 <= i < |sorted| ensures HasSymbol(sorted[i], names) {
      assert sorted[i] in multiset(sorted);
      assert sorted[i] in row;
      var j :| 0 <= j < |cs| && cs[j] == sorted[i];
    }
  }

  /** The single-row rendering: a box whose class has no symbol makes the
      lookup raise, and the identifier stays ''. */
  function SingleRow(row: seq<Box>, names: map<nat, string>): string {
    if AllHaveSymbols(row, names) then Render(row, names) else ""
  }

  /** The two-row rendering: every character needs an entry in the names
      table, digits included (the tuple built for each box looks the name up);
      then the upper row sorted by x1, followed by the lower row sorted by x1. */
  function TwoRows(cs: seq<Box>, names: map<nat, string>): string
    requires cs != []
  {
    if !AllNamed(cs, names) then ""
    else
      var n := |cs|;
      var total := SumTop(cs);
      RowsPartition(cs, n, total);
      SortedRowNamed(UpperRow(cs, n, total), cs, names);
      SortedRowNamed(LowerRow(cs, n, total), cs, names);
      Render(SortByX(UpperRow(cs, n, total)), names) + Render(SortByX(LowerRow(cs, n, total)), names)
  }

  /** The identifier `number_processing` returns for the detections `dets` of
      the plate detector:
      - no character box: `min` of an empty sequence raises, result '';
      - `min_y2 > max_y1`: all boxes sorted by x1, characters kept, rendered;
      - otherwise: upper row then lower row, each sorted by x1.
      A missing entry in the names table raises a KeyError, result ''. */
  function Identifier(dets: seq<Box>, names: map<nat, string>): string {
    var cs := Symbols(dets);
    if cs == [] then ""
    else if MinBottom(cs) > MaxTop(cs) then SingleRow(Symbols(SortByX(dets)), names)
    else TwoRows(cs, names)
  }

  /** Boxes of classes above 21 (the plate, anything else) do not affect the
      identifier. */
  lemma IdentifierIgnoresNonSymbols(dets: seq<Box>, names: map<nat, string>)
    ensures Identifier(dets, names) == Identifier(Symbols(dets), names)
  {
    var cs := Symbols(dets);
    SymbolsIdempotent(dets);
    assert Symbols(cs) == cs;
    SymbolsOfSorted(dets);
    SymbolsOfSorted(cs);
    assert Symbols(SortByX(cs)) == Symbols(SortByX(dets));
  }

  /** Single-row mode: the identifier renders the characters in non-decreasing
      x1, as a permutation of them that keeps boxes with equal x1 in detection
      order. */
  lemma SingleRowOrder(dets: seq<Box>, names: map<nat, string>)
    requires Symbols(dets) != [] && MinBottom(Symbols(dets)) > MaxTop(Symbols(dets))
    requires AllHaveSymbols(SortByX(Symbols(dets)), names)
    ensures var row := SortByX(Symbols(dets));
      && Identifier(dets, names) == Render(row, names)
      && SortedByX(row)
      && multiset(row) == multiset(Symbols(dets))
      && forall k :: WithX(row, k) == WithX(Symbols(dets), k)
  {
    SymbolsOfSorted(dets);
    forall k ensures WithX(SortByX(Symbols(dets)), k) == WithX(Symbols(dets), k) {
      SortByXStable(Symbols(dets), k);
    }
  }

  /** Single-row mode with a character whose name is missing: ''. */
  lemma SingleRowMissingName(dets: seq<Box>, names: map<nat, string>)
    requires Symbols(dets) != [] && MinBottom(Symbols(dets)) > MaxTop(Symbols(dets))
    requires exists b :: b in Symbols(dets) && !HasSymbol(b, names)
    ensures Identifier(dets, names) == ""
  {
    var cs := Symbols(dets);
    SymbolsOfSorted(dets);
    var b :| b in cs && !HasSymbol(b, names);
    MissingInRow(SortByX(cs), cs, b, names);
  }

  lemma MissingInRow(row: seq<Box>, cs: seq<Box>, b: Box, names: map<nat, string>)
    requires multiset(row) == multiset(cs)
    requires b in cs && !HasSymbol(b, names)
    ensures !AllHaveSymbols(row, names)
  {
    assert b in multiset(row);
    var i :| 0 <= i < |row| && row[i] == b;
  }

  /** Two-row mode: the upper row (top edge above the mean) sorted by x1,
      then the lower row sorted by x1; each row is sorted and stable, and the
      rows partition the characters. */
  lemma TwoRowOrder(dets: seq<Box>, names: map<nat, string>)
    requires Symbols(dets) != [] && !(MinBottom(Symbols(dets)) > MaxTop(Symbols(dets)))
    requires AllNamed(Symbols(dets), names)
    ensures var cs := Symbols(dets);
      var n, total := |cs|, SumTop(cs);
      var up, low := UpperRow(cs, n, total), LowerRow(cs, n, total);
      && AllHaveSymbols(SortByX(up), names) && AllHaveSymbols(SortByX(low), names)
      && Identifier(dets, names) == Render(SortByX(up), names) + Render(SortByX(low), names)
      && (forall b :: b in up <==> b in cs && b.y1 * n < total)
      && (forall b :: b in low <==> b in cs && b.y1 * n >= total)
      && multiset(up) + multiset(low) == multiset(cs)
      && SortedByX(SortByX(up)) && SortedByX(SortByX(low))
      && (forall k :: WithX(SortByX(up), k) == WithX(up, k))
      && (forall k :: WithX(SortByX(low), k) == WithX(low, k))
  {
    var cs := Symbols(dets);
    var n, total := |cs|, SumTop(cs);
    var up, low := UpperRow(cs, n, total), LowerRow(cs, n, total);
    RowsPartition(cs, n, total);
    SortedRowNamed(up, cs, names);
    SortedRowNamed(low, cs, names);
    forall k ensures WithX(SortByX(up), k) == WithX(up, k) {
      SortByXStable(up, k);
    }
    forall k ensures WithX(SortByX(low), k) == WithX(low, k) {
      SortByXStable(low, k);
    }
  }

  /** Two-row mode with a character class missing from the names table: ''. */
  lemma TwoRowMissingName(dets: seq<Box>, names: map<nat, string>)
    requires Symbols(dets) != [] && !(MinBottom(Symbols(dets)) > MaxTop(Symbols(dets)))
    requires !AllNamed(Symbols(dets), names)
    ensures Identifier(dets, names) == ""
  {
  }

  lemma {:induction false} SymbolsNone(dets: seq<Box>)
    requires forall i :: 0 <= i < |dets| ==> !IsSymbol(dets[i])
    ensures Symbols(dets) == []
  {
    if dets != [] {
      SymbolsNone(dets[1..]);
    }
  }

  /** No character box at all: ''. */
  lemma NoSymbolsNoIdentifier(dets: seq<Box>, names: map<nat, string>)
    requires forall i :: 0 <= i < |dets| ==> !IsSymbol(dets[i])
    ensures Identifier(dets, names) == ""
  {
    SymbolsNone(dets);
  }

  lemma {:induction false} RowsAppend(cs: seq<Box>, b: Box, n: nat, total: int)
    ensures UpperRow(cs + [b], n, total) == UpperRow(cs, n, total) + (if AboveMean(b, n, total) then [b] else [])
    ensures LowerRow(cs + [b], n, total) == LowerRow(cs, n, total) + (if AboveMean(b, n, total) then [] else [b])
  {
    assert (cs + [b])[..|cs + [b]| - 1] == cs;
  }

  /** One more box of the detection order extends the rows the way the loop
      of `number_processing` does. */
  lemma RowsStep(boxes: seq<Box>, i: nat, n: nat, total: int, names: map<nat, string>)
    requires i < |boxes|
    requires AllNamed(Symbols(boxes[..i]), names)
    requires IsSymbol(boxes[i]) ==> boxes[i].cls in names
    ensures var b, cs, cs' := boxes[i], Symbols(boxes[..i]), Symbols(boxes[..i + 1]);
      && UpperRow(cs', n, total) == UpperRow(cs, n, total)
           + (if IsSymbol(b) && AboveMean(b, n, total) then [b] else [])
      && LowerRow(cs', n, total) == LowerRow(cs, n, total)
           + (if IsSymbol(b) && !AboveMean(b, n, total) then [b] else [])
      && AllNamed(cs', names)
  {
    var b := boxes[i];
    var cs := Symbols(boxes[..i]);
    assert boxes[..i + 1] == boxes[..i] + [b];
    SymbolsAppend(boxes[..i], [b]);
    SymbolsCons(b, []);
    assert Symbols([b]) == if IsSymbol(b) then [b] else [];
    if IsSymbol(b) {
      assert Symbols(boxes[..i + 1]) == cs + [b];
      RowsAppend(cs, b, n, total);
      AllNamedAppend(cs, b, names);
    } else {
      assert Symbols(boxes[..i + 1]) == cs;
    }
  }

  lemma AllNamedAppend(cs: seq<Box>, b: Box, names: map<nat, string>)
    requires AllNamed(cs, names) && b.cls in names
    ensures AllNamed(cs + [b], names)
  {
    var t := cs + [b];
    forall k | 0 <= k < |t| ensures t[k].cls in names {
      if k < |cs| { assert t[k] == cs[k]; }
    }
  }

  /** A character anywhere in the detections without a names entry. */
  lemma MissingName(boxes: seq<Box>, i: nat, names: map<nat, string>)
    requires i < |boxes| && IsSymbol(boxes[i]) && boxes[i].cls !in names
    ensures !AllNamed(Symbols(boxes), names)
  {
    var cs := Symbols(boxes);
    assert boxes[i] in boxes;
    assert boxes[i] in cs;
  }

  /** `number_processing`: detect on the plate image and order the
      characters; the identifier log it appends to is an effect left out. */
  method NumberProcessing(image: Image, plateModel: Image -> seq<Box>, names: map<nat, string>)
    returns (autoNumber: string)
    ensures autoNumber == Identifier(plateModel(image), names)
  {
    var boxes := plateModel(image);
    autoNumber := "";
    var cs := Symbols(boxes);
    if cs == [] {
      return;
    }
    var minY2 := MinBottom(cs);
    var maxY1 := MaxTop(cs);
    if minY2 > maxY1 {
      var row := Symbols(SortByX(boxes));
      if !AllHaveSymbols(row, names) {
        return;
      }
      autoNumber := Render(row, names);
    } else {
      var n := |cs|;
      var total := SumTop(cs);
      var upper: seq<Box> := [];
      var lower: seq<Box> := [];
      var i := 0;
      while i < |boxes|
        invariant 0 <= i <= |boxes|
        invariant upper == UpperRow(Symbols(boxes[..i]), n, total)
        invariant lower == LowerRow(Symbols(boxes[..i]), n, total)
        invariant AllNamed(Symbols(boxes[..i]), names)
      {
        var b := boxes[i];
        if IsSymbol(b) {
          if b.cls !in names {
            MissingName(boxes, i, names);
            return;
          }
          var y := b.y1;
          if y * n < total {
            upper := upper + [b];
          } else {
            lower := lower + [b];
          }
        }
        RowsStep(boxes, i, n, total, names);
        i := i + 1;
      }
      assert boxes[..i] == boxes;
      RowsPartition(cs, n, total);
      SortedRowNamed(upper, cs, names);
      SortedRowNamed(lower, cs, names);
      upper := SortByX(upper);
      lower := SortByX(lower);
      autoNumber := Render(upper, names) + Render(lower, names);
    }
  }

  // ---------------------------------------------------------------------
  // Allow-list comparison (comparison_number)
  // ---------------------------------------------------------------------

  /** The first argument of `.replace` at the comparison: a raw string that is
      deleted literally, not as a regular expression. */
  const Punctuation: string := "[^\\w\\s]"

  /** `str(cell).replace(r'[^\w\s]', '').strip()` for a cell already turned
      into its `str`. */
  function Normalize(cell: string): string {
    Strip(RemoveAll(cell, Punctuation))
  }

  /** Some entry of `db`, normalised, equals the identifier exactly. */
  predicate ListedIn(id: string, db: seq<string>) {
    db != [] && (Normalize(db[0]) == id || ListedIn(id, db[1..]))
  }

  /** The identifier is on the allow-list. An unreadable list (`None`) is
      the empty list. */
  predicate Listed(id: string, allowList: Option<seq<string>>) {
    allowList.Some? && ListedIn(id, allowList.value)
  }

  /** The search succeeds exactly when some entry normalises to the identifier. */
  lemma {:induction false} ListedInIff(id: string, db: seq<string>)
    ensures ListedIn(id, db) <==> exists i :: 0 <= i < |db| && Normalize(db[i]) == id
  {
    if db != [] {
      ListedInIff(id, db[1..]);
      if exists i :: 1 <= i < |db| && Normalize(db[i]) == id {
        var i :| 1 <= i < |db| && Normalize(db[i]) == id;
        assert Normalize(db[1..][i - 1]) == id;
      }
    }
  }

  /** `comparison_number`: scan the list, stop at the first match. */
  method ComparisonNumber(id: string, allowList: Option<seq<string>>) returns (passed: bool)
    ensures passed <==> Listed(id, allowList)
  {
    passed := false;
    if allowList.None? {
      return;
    }
    var db := allowList.value;
    var i := 0;
    while i < |db|
      invariant 0 <= i <= |db|
      invariant ListedIn(id, db) == ListedIn(id, db[i..])
    {
      assert db[i..][1..] == db[i + 1..];
      var cell := Normalize(db[i]);
      if cell == id {
        passed := true;
        return;
      }
      i := i + 1;
    }
  }

  /** A string without the bracket survives `.replace` whole; `strip` then
      takes away the surrounding blanks only: punctuation such as '-' is kept. */
  lemma PunctuationKept()
    ensures Normalize(" A123-BC ") == "A123-BC"
  {
    var core := "A123-BC";
    var s := " " + core + " ";
    assert s == " A123-BC ";
    assert Punctuation[0] == '[';
    RemoveAllWithoutHead(s, Punctuation);
    StripLeavesCore(" ", core, " ");
  }

  /** An entry equal to the identifier is a match; an unreadable list never is. */
  lemma ListedExamples(id: string)
    requires IsToken(id) && '[' !in id
    ensures Listed(id, Some([id]))
    ensures !Listed(id, None)
  {
    assert Punctuation[0] == '[';
    RemoveAllWithoutHead(id, Punctuation);
    StripLeavesCore("", id, "");
    assert "" + id + "" == id;
    assert Normalize([id][0]) == id;
    assert ListedIn(id, [id]);
  }
}
