/** What the two detectors return, and the ordering the recognition code
    applies to it.

    A detection is an axis-aligned box with integer corners and a class id.
    Images are symbolic: a decoded frame of a stream, or a crop of another
    image by a box (`image[y1:y2, x1:x2]`). The detectors are then functions
    from images to detection sequences, in the order the detector reports
    them. */
module Detections {

  /** A detected box: corners (x1, y1) top-left and (x2, y2) bottom-right,
      and the detector's class id. */
  datatype Box = Box(x1: int, y1: int, x2: int, y2: int, cls: nat)

  /** A frame of stream `stream` at read position `index`, or a crop of an
      image by a box. */
  datatype Image = Frame(stream: nat, index: nat) | Crop(source: Image, region: Box)

  /** The class id of a licence plate in the plate/character detector. */
  const PlateClass: nat := 22

  /** Character classes are 0..21 of the plate/character detector. */
  const LastSymbolClass: nat := 21

  predicate IsSymbol(b: Box) {
    b.cls <= LastSymbolClass
  }

  /** The character boxes of a detection sequence, in detection order
      (the comprehension `[box for box in boxes if cls <= 21]`). */
  function Symbols(s: seq<Box>): (r: seq<Box>)
    ensures |r| <= |s|
    ensures forall b :: b in r <==> b in s && IsSymbol(b)
  {
    if s == [] then []
    else (if IsSymbol(s[0]) then [s[0]] else []) + Symbols(s[1..])
  }

  lemma {:induction false} SymbolsAppend(s: seq<Box>, t: seq<Box>)
    ensures Symbols(s + t) == Symbols(s) + Symbols(t)
  {
    if s == [] {
      assert s + t == t;
    } else {
      assert (s + t)[1..] == s[1..] + t;
      SymbolsAppend(s[1..], t);
    }
  }

  lemma {:induction false} SymbolsIdempotent(s: seq<Box>)
    ensures Symbols(Symbols(s)) == Symbols(s)
  {
    if s != [] {
      SymbolsIdempotent(s[1..]);
      SymbolsAppend(if IsSymbol(s[0]) then [s[0]] else [], Symbols(s[1..]));
    }
  }

  /** Non-decreasing left edges. */
  predicate SortedByX(s: seq<Box>) {
    forall i, j :: 0 <= i < j < |s| ==> s[i].x1 <= s[j].x1
  }

  /** The boxes whose left edge is `k`, in their order in `s`. */
  function WithX(s: seq<Box>, k: int): seq<Box> {
    if s == [] then []
    else (if s[0].x1 == k then [s[0]] else []) + WithX(s[1..], k)
  }

  /** Insert `b` in front of the first box whose left edge is not smaller. */
  function Insert(b: Box, s: seq<Box>): (r: seq<Box>)
    ensures |r| == |s| + 1
    ensures multiset(r) == multiset(s) + multiset{b}
  {
    if s == [] || b.x1 <= s[0].x1 then [b] + s
    else
      assert s == [s[0]] + s[1..];
      [s[0]] + Insert(b, s[1..])
  }

  /** Python's stable `sorted(s, key=lambda box: box.x1)`, as an insertion sort. */
  function SortByX(s: seq<Box>): (r: seq<Box>)
    ensures SortedByX(r)
    ensures multiset(r) == multiset(s)
  {
    if s == [] then []
    else
      var rest := SortByX(s[1..]);
      InsertKeepsSorted(s[0], rest);
      assert s == [s[0]] + s[1..];
      Insert(s[0], rest)
  }

  lemma {:induction false} InsertKeepsSorted(b: Box, s: seq<Box>)
    requires SortedByX(s)
    ensures SortedByX(Insert(b, s))
  {
    if s == [] || b.x1 <= s[0].x1 {
      ConsSorted(b, s);
    } else {
      var rest := s[1..];
      SortedTail(s);
      InsertKeepsSorted(b, rest);
      InsertBound(b, rest, s[0].x1);
      ConsSorted(s[0], Insert(b, rest));
    }
  }

  /** A box no further right than every box of a sorted sequence can go in
      front of it. */
  lemma ConsSorted(h: Box, s: seq<Box>)
    requires SortedByX(s)
    requires forall j :: 0 <= j < |s| ==> h.x1 <= s[j].x1
    ensures SortedByX([h] + s)
  {
    var r := [h] + s;
    forall i, j | 0 <= i < j < |r| ensures r[i].x1 <= r[j].x1 {
      assert r[j] == s[j - 1];
      if i > 0 { assert r[i] == s[i - 1]; }
    }
  }

  /** A lower bound on the left edges survives an insertion that respects it. */
  lemma {:induction false} InsertBound(b: Box, s: seq<Box>, lo: int)
    requires lo <= b.x1
    requires forall j :: 0 <= j < |s| ==> lo <= s[j].x1
    ensures forall j :: 0 <= j < |Insert(b, s)| ==> lo <= Insert(b, s)[j].x1
  {
    if s == [] || b.x1 <= s[0].x1 {
      var r := [b] + s;
      forall j | 0 <= j < |r| ensures lo <= r[j].x1 {
        if j > 0 { assert r[j] == s[j - 1]; }
      }
    } else {
      var rest := s[1..];
      forall j | 0 <= j < |rest| ensures lo <= rest[j].x1 {
        assert rest[j] == s[j + 1];
      }
      InsertBound(b, rest, lo);
      var r := [s[0]] + Insert(b, rest);
      forall j | 0 <= j < |r| ensures lo <= r[j].x1 {
        if j > 0 { assert r[j] == Insert(b, rest)[j - 1]; }
      }
    }
  }

  lemma {:induction false} InsertWithX(b: Box, s: seq<Box>, k: int)
    ensures WithX(Insert(b, s), k) == (if b.x1 == k then [b] else []) + WithX(s, k)
  {
    if s == [] || b.x1 <= s[0].x1 {
      WithXCons(b, s, k);
    } else {
      var h, tail := s[0], s[1..];
      assert s == [h] + tail;
      InsertWithX(b, tail, k);
      WithXCons(h, Insert(b, tail), k);
      WithXCons(h, tail, k);
      if h.x1 != k {
        assert [] + WithX(Insert(b, tail), k) == WithX(Insert(b, tail), k);
        assert [] + WithX(tail, k) == WithX(tail, k);
      } else {
        assert b.x1 != k;
        assert [] + WithX(tail, k) == WithX(tail, k);
        assert [] + WithX(s, k) == WithX(s, k);
      }
    }
  }

  lemma WithXCons(h: Box, s: seq<Box>, k: int)
    ensures WithX([h] + s, k) == (if h.x1 == k then [h] else []) + WithX(s, k)
  {
    var r := [h] + s;
    assert r[0] == h && r[1..] == s;
  }

  /** Stability: boxes with equal left edges keep their detection order. */
  lemma {:induction false} SortByXStable(s: seq<Box>, k: int)
    ensures WithX(SortByX(s), k) == WithX(s, k)
  {
    if s != [] {
      SortByXStable(s[1..], k);
      InsertWithX(s[0], SortByX(s[1..]), k);
    }
  }

  lemma SymbolsCons(b: Box, s: seq<Box>)
    ensures Symbols([b] + s) == (if IsSymbol(b) then [b] else []) + Symbols(s)
  {
    assert ([b] + s)[1..] == s;
  }

  lemma SortedTail(s: seq<Box>)
    requires s != [] && SortedByX(s)
    ensures SortedByX(s[1..])
  {
    var rest := s[1..];
    forall i, j | 0 <= i < j < |rest| ensures rest[i].x1 <= rest[j].x1 {
      assert rest[i] == s[i + 1] && rest[j] == s[j + 1];
    }
  }

  /** An inserted box that belongs in front stays in front of the characters. */
  lemma SymbolsInsertFront(b: Box, s: seq<Box>)
    requires SortedByX(s) && IsSymbol(b)
    requires s == [] || b.x1 <= s[0].x1
    ensures Insert(b, Symbols(s)) == [b] + Symbols(s)
  {
    var t := Symbols(s);
    if t != [] {
      assert t[0] in s;
      var j :| 0 <= j < |s| && s[j] == t[0];
      assert j == 0 || s[0].x1 <= s[j].x1;
    }
  }

  lemma {:induction false} SymbolsInsert(b: Box, s: seq<Box>)
    requires SortedByX(s)
    ensures Symbols(Insert(b, s)) == if IsSymbol(b) then Insert(b, Symbols(s)) else Symbols(s)
  {
    if s == [] || b.x1 <= s[0].x1 {
      assert Insert(b, s) == [b] + s;
      SymbolsCons(b, s);
      if IsSymbol(b) {
        SymbolsInsertFront(b, s);
      }
    } else {
      var rest := s[1..];
      assert s == [s[0]] + rest;
      SortedTail(s);
      SymbolsInsert(b, rest);
      SymbolsInsertBehind(b, s[0], rest);
    }
  }

  /** The step of `SymbolsInsert` when `b` goes behind the first box `h`. */
  lemma SymbolsInsertBehind(b: Box, h: Box, rest: seq<Box>)
    requires b.x1 > h.x1
    requires Symbols(Insert(b, rest)) == if IsSymbol(b) then Insert(b, Symbols(rest)) else Symbols(rest)
    ensures Symbols(Insert(b, [h] + rest)) == if IsSymbol(b) then Insert(b, Symbols([h] + rest)) else Symbols([h] + rest)
  {
    var ir, sr := Insert(b, rest), Symbols(rest);
    InsertBehind(b, h, rest);
    SymbolsCons(h, ir);
    SymbolsCons(h, rest);
    if !IsSymbol(h) {
      assert [] + Symbols(ir) == Symbols(ir) && [] + sr == sr;
    } else if IsSymbol(b) {
      InsertBehind(b, h, sr);
    }
  }

  lemma InsertBehind(b: Box, h: Box, s: seq<Box>)
    requires b.x1 > h.x1
    ensures Insert(b, [h] + s) == [h] + Insert(b, s)
  {
    var t := [h] + s;
    assert t[0] == h && t[1..] == s;
  }

  /** Sorting all boxes and then keeping the characters gives the same
      sequence as sorting the characters alone. */
  lemma {:induction false} SymbolsOfSorted(s: seq<Box>)
    ensures Symbols(SortByX(s)) == SortByX(Symbols(s))
  {
    if s != [] {
      assert s == [s[0]] + s[1..];
      SymbolsOfSorted(s[1..]);
      SymbolsInsert(s[0], SortByX(s[1..]));
      SymbolsCons(s[0], s[1..]);
      if IsSymbol(s[0]) {
        assert Symbols(s) == [s[0]] + Symbols(s[1..]);
        assert SortByX(Symbols(s)) == Insert(s[0], SortByX(Symbols(s[1..])));
      } else {
        assert Symbols(s) == Symbols(s[1..]);
      }
    }
  }
}
