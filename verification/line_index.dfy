/**
 * The locator's line arithmetic (backend/app/core/matcher.py): the table of
 * line-start offsets, the conversion of an offset into a 1-based line number
 * by `bisect_right`, and the ±80-line search window around a preferred line.
 */
module LineIndex {
  import opened Wrappers
  import opened Text

  /** The offsets at which the lines of `raw` start: 0, then one past every newline. */
  function LineStarts(raw: string): (r: seq<int>)
    ensures |r| >= 1 && r[0] == 0
    ensures forall k :: 0 <= k < |r| ==> 0 <= r[k] <= |raw|
    ensures Increasing(r) && NonDecreasing(r)
  {
    if raw == [] then [0]
    else LineStarts(raw[..|raw| - 1]) + (if raw[|raw| - 1] == '\n' then [|raw|] else [])
  }

  predicate Increasing(s: seq<int>) {
    forall i, j :: 0 <= i < j < |s| ==> s[i] < s[j]
  }

  predicate NonDecreasing(s: seq<int>) {
    forall i, j :: 0 <= i < j < |s| ==> s[i] <= s[j]
  }

  /** `_build_line_index`. */
  method BuildLineIndex(raw: string) returns (starts: seq<int>)
    ensures starts == LineStarts(raw)
    ensures |starts| == Count(raw, '\n') + 1
  {
    starts := [0];
    var i := 0;
    while i < |raw|
      invariant 0 <= i <= |raw|
      invariant starts == LineStarts(raw[..i])
    {
      assert raw[..i + 1][..i] == raw[..i];
      if raw[i] == '\n' {
        starts := starts + [i + 1];
      }
      i := i + 1;
    }
    assert raw[..i] == raw;
    LineStartsShape(raw);
  }

  /**
   * The line index has one entry more than there are newlines, and its later
   * entries are exactly the offsets that follow a newline.
   */
  lemma {:induction false} LineStartsShape(raw: string)
    ensures |LineStarts(raw)| == Count(raw, '\n') + 1
    ensures forall k :: 1 <= k < |LineStarts(raw)| ==>
              1 <= LineStarts(raw)[k] && raw[LineStarts(raw)[k] - 1] == '\n'
    ensures forall p :: 1 <= p <= |raw| && raw[p - 1] == '\n' ==> p in LineStarts(raw)
  {
    if raw != [] {
      var init := raw[..|raw| - 1];
      LineStartsShape(init);
      var prev := LineStarts(init);
      forall k | 1 <= k < |prev| ensures raw[prev[k] - 1] == '\n' {
        assert init[prev[k] - 1] == '\n';
      }
      forall p | 1 <= p <= |raw| && raw[p - 1] == '\n' ensures p in LineStarts(raw) {
        if p < |raw| {
          assert init[p - 1] == '\n';
          assert p in prev;
        } else {
          assert LineStarts(raw)[|LineStarts(raw)| - 1] == p;
        }
      }
    }
  }

  /**
   * The line index of a prefix of `raw` is a prefix of its line index, and
   * the remaining entries lie past the prefix.
   */
  lemma {:induction false} LineStartsOfPrefix(raw: string, n: nat)
    requires n <= |raw|
    ensures var p, r := LineStarts(raw[..n]), LineStarts(raw);
      |p| <= |r| && r[..|p|] == p && forall k :: |p| <= k < |r| ==> n < r[k]
    decreases |raw| - n
  {
    if n < |raw| {
      var init := raw[..|raw| - 1];
      LineStartsOfPrefix(init, n);
      assert init[..n] == raw[..n];
    } else {
      assert raw[..n] == raw;
    }
  }

  /**
   * `bisect.bisect_right(a, x, lo, hi)`: the insertion point after every
   * entry not above `x`, found by halving.
   */
  function BisectRight(a: seq<int>, x: int, lo: nat, hi: nat): (r: nat)
    requires lo <= hi <= |a|
    requires NonDecreasing(a)
    ensures lo <= r <= hi
    ensures forall i :: lo <= i < r ==> a[i] <= x
    ensures forall i :: r <= i < hi ==> x < a[i]
    decreases hi - lo
  {
    if lo >= hi then lo
    else
      var mid := (lo + hi) / 2;
      if x < a[mid] then BisectRight(a, x, lo, mid) else BisectRight(a, x, mid + 1, hi)
  }

  /**
   * `_offset_to_line_1based`: one more than the index of the last line start
   * not after `offset`.
   */
  function OffsetToLine(starts: seq<int>, offset: int): (r: int)
    requires NonDecreasing(starts)
    ensures 0 <= r <= |starts|
    ensures forall i :: 0 <= i < r ==> starts[i] <= offset
    ensures forall i :: r <= i < |starts| ==> offset < starts[i]
    ensures |starts| > 0 && starts[0] <= offset ==> 1 <= r
  {
    BisectRight(starts, offset, 0, |starts|) - 1 + 1
  }

  /** A later offset never lies on an earlier line. */
  lemma OffsetToLineMonotone(starts: seq<int>, a: int, b: int)
    requires NonDecreasing(starts)
    ensures a <= b ==> OffsetToLine(starts, a) <= OffsetToLine(starts, b)
  {
    var ra := OffsetToLine(starts, a);
    if ra > 0 {
      assert starts[ra - 1] <= a;
    }
  }

  /** On the line index of `raw`, the line of an offset is one plus the newlines before it. */
  lemma OffsetToLineCountsNewlines(raw: string, offset: nat)
    requires offset <= |raw|
    ensures OffsetToLine(LineStarts(raw), offset) == Count(raw[..offset], '\n') + 1
  {
    LineStartsShape(raw[..offset]);
    LineStartsOfPrefix(raw, offset);
    var p, r := LineStarts(raw[..offset]), LineStarts(raw);
    assert r[|p| - 1] == p[|p| - 1];
    if |p| < |r| {
      assert offset < r[|p|];
    }
  }

  /** `_slice_to_lines_1based`: the lines of both ends of a slice. */
  function SliceToLines(starts: seq<int>, s: int, e: int): (r: (int, int))
    requires NonDecreasing(starts)
    ensures s <= e ==> r.0 <= r.1
    ensures |starts| > 0 && starts[0] <= s ==> 1 <= r.0
    ensures r.1 <= |starts|
  {
    OffsetToLineMonotone(starts, s, e);
    (OffsetToLine(starts, s), OffsetToLine(starts, e))
  }

  /** Python's `s[i]`: negative indices count from the end; `None` is `IndexError`. */
  function PyIndex(s: seq<int>, i: int): (r: Option<int>)
    ensures r.Some? <==> -|s| <= i < |s|
    ensures 0 <= i < |s| ==> r == Some(s[i])
  {
    if 0 <= i < |s| then Some(s[i])
    else if -|s| <= i < 0 then Some(s[|s| + i])
    else None
  }

  /** Lines on either side of the preferred line that the start-tag search looks at. */
  const WindowLines := 80

  /**
   * `_find_window`: the offsets between which a start tag is first searched.
   * `None` stands for the `IndexError` raised for a line far outside the index.
   */
  function FindWindow(rawLen: nat, starts: seq<int>, preferLine: Option<int>): (r: Option<(int, int)>)
    requires |starts| >= 1
  {
    match preferLine
    case None => Some((0, rawLen))
    case Some(p) =>
      var lo := if 1 > p - WindowLines then 1 else p - WindowLines;
      var hi := if |starts| < p + WindowLines then |starts| else p + WindowLines;
      match PyIndex(starts, lo - 1)
      case None => None
      case Some(ws) =>
        // `hi - 1 < len(starts)` always holds, so `len(raw)` is never chosen.
        match PyIndex(starts, hi - 1)
        case None => None
        case Some(we) => Some((ws, we))
  }

  /**
   * With no preferred line the window is the whole text; a preferred line of
   * the index gets a window that begins at most 80 lines before it and ends
   * at the start of the line at most 80 lines after it (or of the last line),
   * so it contains the preferred line's start; lines far outside the index
   * raise.
   */
  lemma FindWindowShape(rawLen: nat, starts: seq<int>, preferLine: Option<int>)
    requires |starts| >= 1 && NonDecreasing(starts)
    ensures preferLine.None? ==> FindWindow(rawLen, starts, preferLine) == Some((0, rawLen))
    ensures preferLine.Some? && 1 <= preferLine.value <= |starts| ==>
      var p := preferLine.value;
      var w := FindWindow(rawLen, starts, preferLine);
      && w.Some?
      && w.value.0 == starts[if p - WindowLines < 1 then 0 else p - WindowLines - 1]
      && w.value.1 == starts[if |starts| < p + WindowLines then |starts| - 1 else p + WindowLines - 1]
      && w.value.0 <= starts[p - 1] <= w.value.1
    ensures preferLine.Some? ==>
      (FindWindow(rawLen, starts, preferLine).None? <==>
         preferLine.value > |starts| + WindowLines || preferLine.value < -|starts| - WindowLines + 1)
  {
  }
}
