/** The few Python `str` operations the modelled code relies on, with their
    Python meaning: `isspace`, `strip`, `split()` with no argument, `' '.join`,
    `replace(old, '')` (literal, not a regular expression), ASCII `lower`,
    `endswith` and the code-point order used by `sorted` on strings. */
module PyStrings {

  /** Python's `str.isspace` for one character: the ASCII whitespace and
      separators 0x09-0x0D, 0x1C-0x1F, space, and the Unicode spaces. */
  predicate IsSpace(c: char) {
    c == ' ' || ('\t' <= c <= '\r') || ('\U{1C}' <= c <= '\U{1F}')
    || c == '\U{85}' || c == '\U{A0}' || c == '\U{1680}'
    || ('\U{2000}' <= c <= '\U{200A}') || c == '\U{2028}' || c == '\U{2029}'
    || c == '\U{202F}' || c == '\U{205F}' || c == '\U{3000}'
  }

  predicate AllSpace(s: string) {
    forall i :: 0 <= i < |s| ==> IsSpace(s[i])
  }

  /** `s.lstrip()`: the suffix of `s` left after dropping leading whitespace. */
  function LStrip(s: string): (r: string)
    ensures |r| <= |s|
  {
    if s != [] && IsSpace(s[0]) then LStrip(s[1..]) else s
  }

  /** The length of `s[..n]` once its trailing whitespace is dropped. */
  function KeptLength(s: string, n: nat): (k: nat)
    requires n <= |s|
    ensures k <= n
  {
    if n > 0 && IsSpace(s[n - 1]) then KeptLength(s, n - 1) else n
  }

  /** `s.rstrip()`: the prefix of `s` left after dropping trailing whitespace. */
  function RStrip(s: string): string {
    s[..KeptLength(s, |s|)]
  }

  /** `s.strip()`. */
  function Strip(s: string): string {
    RStrip(LStrip(s))
  }

  lemma {:induction false} LStripFront(s: string)
    ensures LStrip(s) == [] || !IsSpace(LStrip(s)[0])
  {
    if s != [] && IsSpace(s[0]) {
      LStripFront(s[1..]);
    }
  }

  lemma {:induction false} KeptLengthBack(s: string, n: nat)
    requires n <= |s|
    ensures var k := KeptLength(s, n); k == 0 || !IsSpace(s[k - 1])
  {
    if n > 0 && IsSpace(s[n - 1]) {
      KeptLengthBack(s, n - 1);
    }
  }

  /** What `strip()` leaves starts and ends with a non-whitespace character. */
  lemma StripEnds(s: string)
    ensures var r := Strip(s); r == [] || (!IsSpace(r[0]) && !IsSpace(r[|r| - 1]))
  {
    var l := LStrip(s);
    LStripFront(s);
    KeptLengthBack(l, |l|);
    var k := KeptLength(l, |l|);
    if k > 0 {
      assert Strip(s)[0] == l[0];
      assert Strip(s)[k - 1] == l[k - 1];
    }
  }

  /** `strip()` removes exactly the surrounding whitespace: whatever core the
      string has between whitespace margins is what is left. */
  lemma {:induction false} StripLeavesCore(front: string, core: string, back: string)
    requires AllSpace(front) && AllSpace(back)
    requires core == [] || (!IsSpace(core[0]) && !IsSpace(core[|core| - 1]))
    ensures Strip(front + core + back) == core
  {
    if core == [] {
      assert front + core + back == front + back;
      LStripSpaces(front, back);
      assert LStrip(front + back) == [];
    } else {
      var rest := core + back;
      assert rest[0] == core[0];
      assert !AllSpace(rest);
      assert front + core + back == front + rest;
      LStripSpaces(front, rest);
      RStripSpaces(core, back);
    }
  }

  lemma {:induction false} LStripAllSpace(s: string)
    requires AllSpace(s)
    ensures LStrip(s) == []
  {
    if s != [] {
      LStripAllSpace(s[1..]);
    }
  }

  lemma {:induction false} LStripSpaces(front: string, rest: string)
    requires AllSpace(front)
    requires rest == [] || !IsSpace(rest[0]) || AllSpace(rest)
    ensures LStrip(front + rest) == if AllSpace(rest) then [] else rest
  {
    if front == [] {
      assert front + rest == rest;
      if AllSpace(rest) { LStripAllSpace(rest); }
    } else {
      assert (front + rest)[1..] == front[1..] + rest;
      LStripSpaces(front[1..], rest);
    }
  }

  lemma {:induction false} KeptLengthOfCore(core: string, back: string, n: nat)
    requires AllSpace(back)
    requires core != [] && !IsSpace(core[|core| - 1])
    requires |core| <= n <= |core + back|
    ensures KeptLength(core + back, n) == |core|
  {
    var s := core + back;
    if n > |core| {
      assert s[n - 1] == back[n - 1 - |core|];
      KeptLengthOfCore(core, back, n - 1);
    } else {
      assert s[n - 1] == core[|core| - 1];
    }
  }

  lemma RStripSpaces(core: string, back: string)
    requires AllSpace(back)
    requires core != [] && !IsSpace(core[|core| - 1])
    ensures RStrip(core + back) == core
  {
    KeptLengthOfCore(core, back, |core + back|);
    assert (core + back)[..|core|] == core;
  }

  /** One element of `s.split()`: a non-empty run without whitespace. */
  predicate IsToken(t: string) {
    t != [] && forall i :: 0 <= i < |t| ==> !IsSpace(t[i])
  }

  /** The length of the leading run of non-whitespace characters. */
  function WordLength(s: string): (n: nat)
    ensures n <= |s|
    ensures forall i :: 0 <= i < n ==> !IsSpace(s[i])
    ensures n == |s| || IsSpace(s[n])
  {
    if s == [] || IsSpace(s[0]) then 0 else 1 + WordLength(s[1..])
  }

  /** `s.split()` with no separator: the maximal whitespace-free runs, in order. */
  function Split(s: string): seq<string>
    decreases |s|
  {
    if s == [] then []
    else if IsSpace(s[0]) then Split(s[1..])
    else
      var n := WordLength(s);
      [s[..n]] + Split(s[n..])
  }

  /** Every element of `split()` is a token. */
  lemma {:induction false} SplitTokens(s: string)
    ensures forall k :: 0 <= k < |Split(s)| ==> IsToken(Split(s)[k])
    decreases |s|
  {
    if s != [] {
      if IsSpace(s[0]) {
        SplitTokens(s[1..]);
      } else {
        var n := WordLength(s);
        SplitTokens(s[n..]);
        var ts := Split(s);
        assert ts == [s[..n]] + Split(s[n..]);
        forall k | 0 <= k < |ts| ensures IsToken(ts[k]) {
          if k > 0 { assert ts[k] == Split(s[n..])[k - 1]; }
        }
      }
    }
  }

  /** Whitespace at the end does not change the leading run. */
  lemma {:induction false} WordLengthAppendSpace(s: string, t: string)
    requires AllSpace(t)
    ensures WordLength(s + t) == WordLength(s)
  {
    if s == [] {
      assert s + t == t;
    } else if !IsSpace(s[0]) {
      assert (s + t)[1..] == s[1..] + t;
      WordLengthAppendSpace(s[1..], t);
    }
  }

  /** Trailing whitespace does not change `split()`. */
  lemma {:induction false} SplitAppendSpace(s: string, t: string)
    requires AllSpace(t)
    ensures Split(s + t) == Split(s)
    decreases |s|
  {
    if s == [] {
      assert s + t == t;
      SplitAllSpace(t);
    } else if IsSpace(s[0]) {
      assert (s + t)[1..] == s[1..] + t;
      SplitAppendSpace(s[1..], t);
    } else {
      var n := WordLength(s);
      WordLengthAppendSpace(s, t);
      assert (s + t)[..n] == s[..n];
      assert (s + t)[n..] == s[n..] + t;
      SplitAppendSpace(s[n..], t);
    }
  }

  /** Leading whitespace does not change `split()`. */
  lemma {:induction false} SplitLStrip(s: string)
    ensures Split(LStrip(s)) == Split(s)
  {
    if s != [] && IsSpace(s[0]) {
      SplitLStrip(s[1..]);
    }
  }

  lemma {:induction false} KeptLengthDropsSpaces(s: string, n: nat)
    requires n <= |s|
    ensures forall j :: KeptLength(s, n) <= j < n ==> IsSpace(s[j])
  {
    if n > 0 && IsSpace(s[n - 1]) {
      KeptLengthDropsSpaces(s, n - 1);
    }
  }

  /** `s.strip().split()` is `s.split()`: splitting already ignores the
      surrounding whitespace. */
  lemma SplitIgnoresStrip(s: string)
    ensures Split(Strip(s)) == Split(s)
  {
    var l := LStrip(s);
    var k := KeptLength(l, |l|);
    KeptLengthDropsSpaces(l, |l|);
    assert l == l[..k] + l[k..];
    assert AllSpace(l[k..]) by {
      forall j | 0 <= j < |l| - k ensures IsSpace(l[k..][j]) {
        assert l[k..][j] == l[k + j];
      }
    }
    SplitAppendSpace(l[..k], l[k..]);
    SplitLStrip(s);
  }

  /** `' '.join(ts)`. */
  function Join(ts: seq<string>): string {
    if |ts| == 0 then ""
    else if |ts| == 1 then ts[0]
    else ts[0] + " " + Join(ts[1..])
  }

  lemma {:induction false} SplitAllSpace(s: string)
    requires AllSpace(s)
    ensures Split(s) == []
    decreases |s|
  {
    if s != [] {
      SplitAllSpace(s[1..]);
    }
  }

  lemma {:induction false} SplitLeadingToken(t: string, rest: string)
    requires IsToken(t)
    requires rest == [] || IsSpace(rest[0])
    ensures Split(t + rest) == [t] + Split(rest)
  {
    var s := t + rest;
    WordLengthOfToken(t, rest);
    assert s[..|t|] == t && s[|t|..] == rest;
  }

  lemma {:induction false} WordLengthOfToken(t: string, rest: string)
    requires forall i :: 0 <= i < |t| ==> !IsSpace(t[i])
    requires rest == [] || IsSpace(rest[0])
    ensures WordLength(t + rest) == |t|
  {
    if t == [] {
      assert t + rest == rest;
    } else {
      assert (t + rest)[1..] == t[1..] + rest;
      WordLengthOfToken(t[1..], rest);
    }
  }

  /** Splitting a space-joined token list, followed by whitespace, gives the
      tokens back: `' '.join` and `split()` are inverse on token lists. */
  lemma {:induction false} SplitJoin(ts: seq<string>, tail: string)
    requires forall k :: 0 <= k < |ts| ==> IsToken(ts[k])
    requires AllSpace(tail)
    ensures Split(Join(ts) + tail) == ts
  {
    if |ts| == 0 {
      assert Join(ts) + tail == tail;
      SplitAllSpace(tail);
    } else if |ts| == 1 {
      SplitLeadingToken(ts[0], tail);
      SplitAllSpace(tail);
    } else {
      var inner := Join(ts[1..]) + tail;
      var rest := " " + inner;
      assert Join(ts) == ts[0] + " " + Join(ts[1..]);
      assert Join(ts) + tail == ts[0] + rest;
      assert IsToken(ts[0]) && IsSpace(rest[0]);
      SplitLeadingToken(ts[0], rest);
      assert rest[1..] == inner;
      assert Split(rest) == Split(inner);
      SplitJoin(ts[1..], tail);
      assert ts == [ts[0]] + ts[1..];
    }
  }

  /** `pat` occurs in `s` starting at position `i`. */
  predicate OccursAt(s: string, pat: string, i: int) {
    0 <= i && i + |pat| <= |s| && s[i..i + |pat|] == pat
  }

  /** `s.replace(pat, '')`: delete the non-overlapping occurrences of the
      literal `pat`, scanning left to right. */
  function RemoveAll(s: string, pat: string): (r: string)
    requires pat != []
    ensures |r| <= |s|
    decreases |s|
  {
    if |s| < |pat| then s
    else if s[..|pat|] == pat then RemoveAll(s[|pat|..], pat)
    else [s[0]] + RemoveAll(s[1..], pat)
  }

  /** A string in which the literal never occurs is left as it is. */
  lemma {:induction false} RemoveAllAbsent(s: string, pat: string)
    requires pat != []
    requires forall i :: !OccursAt(s, pat, i)
    ensures RemoveAll(s, pat) == s
    decreases |s|
  {
    if |s| >= |pat| {
      assert !OccursAt(s, pat, 0);
      assert s[0..|pat|] == s[..|pat|];
      forall i ensures !OccursAt(s[1..], pat, i) {
        if OccursAt(s[1..], pat, i) {
          assert s[1..][i..i + |pat|] == s[i + 1..i + 1 + |pat|];
          assert OccursAt(s, pat, i + 1);
        }
      }
      RemoveAllAbsent(s[1..], pat);
    }
  }

  /** When the first character of `pat` never appears in `s`, `pat` cannot
      occur and `replace` leaves `s` unchanged. */
  lemma RemoveAllWithoutHead(s: string, pat: string)
    requires pat != [] && pat[0] !in s
    ensures RemoveAll(s, pat) == s
  {
    forall i ensures !OccursAt(s, pat, i) {
      if 0 <= i && i + |pat| <= |s| {
        assert s[i..i + |pat|][0] == s[i];
      }
    }
    RemoveAllAbsent(s, pat);
  }

  /** Python's `str.lower` restricted to ASCII letters. */
  function LowerChar(c: char): char {
    if 'A' <= c <= 'Z' then (c as int + 32) as char else c
  }

  function Lower(s: string): (r: string)
    ensures |r| == |s|
  {
    if s == [] then [] else [LowerChar(s[0])] + Lower(s[1..])
  }

  /** `s.endswith(suffix)`. */
  predicate EndsWith(s: string, suffix: string) {
    |suffix| <= |s| && s[|s| - |suffix|..] == suffix
  }

  /** Python's `<` on strings: code-point lexicographic order. */
  predicate Less(a: string, b: string)
    decreases |a|
  {
    if a == [] then b != []
    else if b == [] then false
    else if a[0] == b[0] then Less(a[1..], b[1..])
    else a[0] < b[0]
  }

  lemma {:induction false} LessIrreflexive(a: string)
    ensures !Less(a, a)
    decreases |a|
  {
    if a != [] { LessIrreflexive(a[1..]); }
  }

  lemma {:induction false} LessTransitive(a: string, b: string, c: string)
    requires Less(a, b) && Less(b, c)
    ensures Less(a, c)
    decreases |a|
  {
    if a != [] && b != [] && c != [] && a[0] == b[0] && b[0] == c[0] {
      LessTransitive(a[1..], b[1..], c[1..]);
    }
  }

  lemma {:induction false} LessTotal(a: string, b: string)
    requires a != b
    ensures Less(a, b) || Less(b, a)
    decreases |a|
  {
    if a != [] && b != [] && a[0] == b[0] {
      assert a == [a[0]] + a[1..] && b == [b[0]] + b[1..];
      LessTotal(a[1..], b[1..]);
    }
  }
}
