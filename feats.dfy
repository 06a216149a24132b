// The glyph features of one blob that are computed on demand and cached:
// the runs of black pixels in every row and column, the horizontal bars and
// the vertical bars. The profiles of the blob are an external collaborator;
// of them only the largest value of the width profile is used here.

module Feats {
  import opened Common
  import opened Geometry
  import opened Sequences

  // ---------------------------------------------------------------------
  // Run-length scans

  /** True if position `x` (counted from `base`) lies on the line and is black. */
  predicate BlackAt(bits: seq<bool>, base: int, x: int)
  {
    0 <= x - base < |bits| && bits[x - base]
  }

  /**
   * The runs the scan records from index `k` on, `l` being the index where
   * the open run began, or -1. A run ends at the first white pixel or at the
   * last pixel of the line; positions are reported counted from `base`.
   */
  function RunsFrom(bits: seq<bool>, base: int, k: nat, l: int): (runs: seq<Csegment>)
    requires k <= |bits|
    ensures |runs| <= |bits| - k
    ensures l < 0 && (forall j :: k <= j < |bits| ==> !bits[j]) ==> runs == []
    decreases |bits| - k
  {
    if k == |bits| then []
    else
      var l1 := if l < 0 && bits[k] then k else l;
      if l1 >= 0 && (!bits[k] || k == |bits| - 1) then
        [Csegment(base + l1, base + (if bits[k] then k else k - 1))] + RunsFrom(bits, base, k + 1, -1)
      else RunsFrom(bits, base, k + 1, l1)
  }

  /** One step of the scan: the run closed at index `k`, if any, followed by the runs after it. */
  lemma RunsFromUnfold(bits: seq<bool>, base: int, k: nat, l: int)
    requires k < |bits|
    ensures var l1 := if l < 0 && bits[k] then k else l;
      RunsFrom(bits, base, k, l) ==
        if l1 >= 0 && (!bits[k] || k == |bits| - 1) then
          [Csegment(base + l1, base + (if bits[k] then k else k - 1))] + RunsFrom(bits, base, k + 1, -1)
        else RunsFrom(bits, base, k + 1, l1)
  {
  }

  /** The runs of black pixels along a line whose first pixel is at `base`. */
  function Runs(bits: seq<bool>, base: int): seq<Csegment>
  {
    RunsFrom(bits, base, 0, -1)
  }

  /** Every run lies on the line at or after position `from`. */
  ghost predicate RunsInside(bits: seq<bool>, base: int, runs: seq<Csegment>, from: int)
  {
    forall j :: 0 <= j < |runs| ==> from <= runs[j].left <= runs[j].right < base + |bits|
  }

  /** Every pixel of every run is black. */
  ghost predicate RunsBlack(bits: seq<bool>, base: int, runs: seq<Csegment>)
  {
    forall j, x :: 0 <= j < |runs| && runs[j].left <= x <= runs[j].right ==> BlackAt(bits, base, x)
  }

  /** No run can be extended by a black pixel at either end. */
  ghost predicate RunsMaximal(bits: seq<bool>, base: int, runs: seq<Csegment>)
  {
    forall j :: 0 <= j < |runs| ==>
      !BlackAt(bits, base, runs[j].left - 1) && !BlackAt(bits, base, runs[j].right + 1)
  }

  /** The runs come in order, with a gap between consecutive ones. */
  ghost predicate RunsApart(runs: seq<Csegment>)
  {
    forall i, j :: 0 <= i < j < |runs| ==> runs[i].right + 1 < runs[j].left
  }

  /** Every black pixel at or after `from` lies in one of the runs. */
  ghost predicate RunsCover(bits: seq<bool>, base: int, runs: seq<Csegment>, from: int)
  {
    forall x :: BlackAt(bits, base, x) && x >= from ==> exists j :: 0 <= j < |runs| && runs[j].Includes(x)
  }

  /**
   * `runs` lists, in order, maximal runs of black pixels of the line lying
   * at or after position `from`, and every black pixel from there on lies
   * in one of them.
   */
  ghost predicate RunsAfter(bits: seq<bool>, base: int, runs: seq<Csegment>, from: int)
  {
    RunsInside(bits, base, runs, from) && RunsBlack(bits, base, runs) && RunsMaximal(bits, base, runs) &&
    RunsApart(runs) && RunsCover(bits, base, runs, from)
  }

  /** `runs` lists exactly the maximal runs of black pixels of the line, in order. */
  ghost predicate IsRunList(bits: seq<bool>, base: int, runs: seq<Csegment>)
  {
    RunsAfter(bits, base, runs, base)
  }

  /** A maximal black run followed by the runs after it makes the runs from its left end on. */
  lemma ConsRun(bits: seq<bool>, base: int, seg: Csegment, rest: seq<Csegment>, from: int, next: int)
    requires RunsAfter(bits, base, rest, next)
    requires from <= seg.left <= seg.right < next
    requires forall x :: seg.left <= x <= seg.right ==> BlackAt(bits, base, x)
    requires !BlackAt(bits, base, seg.left - 1) && !BlackAt(bits, base, seg.right + 1)
    requires forall x :: from <= x < next && BlackAt(bits, base, x) ==> seg.Includes(x)
    requires seg.right < base + |bits|
    ensures RunsAfter(bits, base, [seg] + rest, from)
  {
    var runs := [seg] + rest;
    assert forall j :: 0 < j < |runs| ==> runs[j] == rest[j - 1];
    ConsInside(bits, base, seg, rest, from, next);
    ConsBlack(bits, base, seg, rest);
    ConsApart(bits, base, seg, rest, next);
    ConsCover(bits, base, seg, rest, from, next);
  }

  lemma ConsInside(bits: seq<bool>, base: int, seg: Csegment, rest: seq<Csegment>, from: int, next: int)
    requires RunsInside(bits, base, rest, next) && RunsMaximal(bits, base, rest)
    requires from <= seg.left <= seg.right < base + |bits| && seg.right < next
    requires !BlackAt(bits, base, seg.left - 1) && !BlackAt(bits, base, seg.right + 1)
    ensures RunsInside(bits, base, [seg] + rest, from) && RunsMaximal(bits, base, [seg] + rest)
  {
    var runs := [seg] + rest;
    assert forall j :: 0 < j < |runs| ==> runs[j] == rest[j - 1];
  }

  lemma ConsBlack(bits: seq<bool>, base: int, seg: Csegment, rest: seq<Csegment>)
    requires RunsBlack(bits, base, rest)
    requires forall x :: seg.left <= x <= seg.right ==> BlackAt(bits, base, x)
    ensures RunsBlack(bits, base, [seg] + rest)
  {
    var runs := [seg] + rest;
    forall j, x | 0 <= j < |runs| && runs[j].left <= x <= runs[j].right
      ensures BlackAt(bits, base, x)
    {
      if j > 0 { assert runs[j] == rest[j - 1]; }
    }
  }

  lemma ConsApart(bits: seq<bool>, base: int, seg: Csegment, rest: seq<Csegment>, next: int)
    requires RunsApart(rest) && RunsInside(bits, base, rest, next) && RunsBlack(bits, base, rest)
    requires seg.right < next && !BlackAt(bits, base, seg.right + 1)
    ensures RunsApart([seg] + rest)
  {
    var runs := [seg] + rest;
    forall i, j | 0 <= i < j < |runs|
      ensures runs[i].right + 1 < runs[j].left
    {
      assert runs[j] == rest[j - 1];
      if i > 0 {
        assert runs[i] == rest[i - 1];
      } else {
        assert BlackAt(bits, base, rest[j - 1].left);
      }
    }
  }

  lemma ConsCover(bits: seq<bool>, base: int, seg: Csegment, rest: seq<Csegment>, from: int, next: int)
    requires RunsCover(bits, base, rest, next)
    requires forall x :: from <= x < next && BlackAt(bits, base, x) ==> seg.Includes(x)
    ensures RunsCover(bits, base, [seg] + rest, from)
  {
    var runs := [seg] + rest;
    forall x | BlackAt(bits, base, x) && x >= from
      ensures exists j :: 0 <= j < |runs| && runs[j].Includes(x)
    {
      if x < next {
        assert runs[0].Includes(x);
      } else {
        var j :| 0 <= j < |rest| && rest[j].Includes(x);
        assert runs[j + 1].Includes(x);
      }
    }
  }

  /** Where the runs recorded from index `k` on can begin: at the open run, else at `k`. */
  function RunStart(k: nat, l: int): int
  {
    if l >= 0 then l else k
  }

  lemma {:induction false} RunsFromSpec(bits: seq<bool>, base: int, k: nat, l: int)
    requires k <= |bits|
    requires l == -1 || 0 <= l < k < |bits|
    requires l == -1 ==> k == 0 || k == |bits| || !bits[k - 1]
    requires l >= 0 ==> (l == 0 || !bits[l - 1]) && forall x :: l <= x < k ==> bits[x]
    ensures RunsAfter(bits, base, RunsFrom(bits, base, k, l), base + RunStart(k, l))
    decreases |bits| - k
  {
    if k < |bits| {
      var l1 := if l < 0 && bits[k] then k else l;
      if l1 >= 0 && (!bits[k] || k == |bits| - 1) {
        RunsFromSpec(bits, base, k + 1, -1);
        CloseRunSpec(bits, base, k, l);
      } else {
        assert RunsFrom(bits, base, k, l) == RunsFrom(bits, base, k + 1, l1);
        RunsFromSpec(bits, base, k + 1, l1);
        if l1 < 0 {
          SkipWhite(bits, base, RunsFrom(bits, base, k + 1, l1), base + k);
        }
      }
    } else {
      assert RunsFrom(bits, base, k, l) == [];
    }
  }

  /** The run the scan closes at index `k` is maximal, and with the runs after it makes the runs from its start. */
  lemma CloseRunSpec(bits: seq<bool>, base: int, k: nat, l: int)
    requires k < |bits|
    requires l == -1 || 0 <= l < k
    requires l == -1 ==> k == 0 || !bits[k - 1]
    requires l >= 0 ==> (l == 0 || !bits[l - 1]) && forall x :: l <= x < k ==> bits[x]
    requires var l1 := if l < 0 && bits[k] then k else l; l1 >= 0 && (!bits[k] || k == |bits| - 1)
    requires RunsAfter(bits, base, RunsFrom(bits, base, k + 1, -1), base + k + 1)
    ensures RunsAfter(bits, base, RunsFrom(bits, base, k, l), base + RunStart(k, l))
  {
    var l1 := if l < 0 && bits[k] then k else l;
    var right := if bits[k] then k else k - 1;
    var seg := Csegment(base + l1, base + right);
    var rest := RunsFrom(bits, base, k + 1, -1);
    assert RunsFrom(bits, base, k, l) == [seg] + rest;
    assert forall x :: l1 <= x <= right ==> bits[x];
    assert right + 1 == |bits| || !bits[right + 1];
    assert forall x :: base + RunStart(k, l) <= x < base + k + 1 && BlackAt(bits, base, x) ==> seg.Includes(x);
    ConsRun(bits, base, seg, rest, base + RunStart(k, l), base + k + 1);
  }

  /** Runs listed from one position on are listed from the position before, when that one is white. */
  lemma SkipWhite(bits: seq<bool>, base: int, runs: seq<Csegment>, from: int)
    requires RunsAfter(bits, base, runs, from + 1) && !BlackAt(bits, base, from)
    ensures RunsAfter(bits, base, runs, from)
  {
  }

  /** The scan lists exactly the maximal runs of the line. */
  lemma RunsAreMaximal(bits: seq<bool>, base: int)
    ensures IsRunList(bits, base, Runs(bits, base))
  {
    RunsFromSpec(bits, base, 0, -1);
  }

  /** `s` is the first of `runs` that includes `x`. */
  ghost predicate FirstHolding(runs: seq<Csegment>, x: int, s: Csegment)
  {
    exists i :: 0 <= i < |runs| && runs[i] == s && s.Includes(x) &&
      forall j :: 0 <= j < i ==> !runs[j].Includes(x)
  }

  /** The first of `runs` that includes `x`, or the empty segment when none does. */
  method FindRun(runs: seq<Csegment>, x: int) returns (s: Csegment)
    ensures FirstHolding(runs, x, s) ||
      (s == EmptySegment && forall j :: 0 <= j < |runs| ==> !runs[j].Includes(x))
  {
    var i := 0;
    while i < |runs|
      invariant 0 <= i <= |runs|
      invariant forall j :: 0 <= j < i ==> !runs[j].Includes(x)
    {
      if runs[i].Includes(x) {
        return runs[i];
      }
      i := i + 1;
    }
    s := EmptySegment;
  }

  /** The run `FindRun` picks in a pixel's column holds the pixel when it is black and is empty when it is white. */
  lemma FoundRunIsVSegment(b: Blob, row: int, col: int, s: Csegment)
    requires b.WellFormed() && b.InRows(row) && b.InCols(col)
    requires var runs := ColScans(b)[col - b.rect.left];
      FirstHolding(runs, row, s) ||
      (s == EmptySegment && forall j :: 0 <= j < |runs| ==> !runs[j].Includes(row))
    ensures b.GetBit(row, col) ==> FirstHolding(ColScans(b)[col - b.rect.left], row, s)
    ensures !b.GetBit(row, col) ==> s == EmptySegment
  {
    var c := col - b.rect.left;
    RunsCoverBlack(ColumnBits(b, c), b.rect.top, row);
    assert b.GetBit(row, col) == BlackAt(ColumnBits(b, c), b.rect.top, row);
  }

  /** A position lies in one of the runs exactly when it is black. */
  lemma RunsCoverBlack(bits: seq<bool>, base: int, x: int)
    ensures BlackAt(bits, base, x) <==>
      exists j :: 0 <= j < |Runs(bits, base)| && Runs(bits, base)[j].Includes(x)
  {
    RunsAreMaximal(bits, base);
  }

  /**
   * The run-length scan of one line whose first pixel is at `base`: `l` is
   * where the open run began, or -1 while the scan is on white pixels.
   */
  method ScanLine(bits: seq<bool>, base: int) returns (line: seq<Csegment>)
    requires 0 <= base
    ensures line == Runs(bits, base)
  {
    var l := -1;
    line := [];
    var k := 0;
    while k < |bits|
      invariant 0 <= k <= |bits|
      invariant l == -1 || base <= l < base + k < base + |bits|
      invariant line + RunsFrom(bits, base, k, if l < 0 then -1 else l - base) == Runs(bits, base)
    {
      var black := bits[k];
      ghost var l0 := if l < 0 then -1 else l - base;
      var closed := [];
      if l < 0 && black { l := base + k; }
      if l >= 0 && (!black || k == |bits| - 1) {
        closed := [Csegment(l, base + (if black then k else k - 1))];
        l := -1;
      }
      ghost var rest := RunsFrom(bits, base, k + 1, if l < 0 then -1 else l - base);
      RunsFromUnfold(bits, base, k, l0);
      assert RunsFrom(bits, base, k, l0) == closed + rest;
      AppendAssoc(line, closed, rest);
      line := line + closed;
      k := k + 1;
    }
  }

  /** The pixels of column `col` (counted from the blob's left edge), top to bottom. */
  function ColumnBits(b: Blob, c: nat): (bits: seq<bool>)
    requires b.WellFormed() && c < b.rect.Width()
    ensures |bits| == b.rect.Height()
  {
    seq(|b.bits|, r requires 0 <= r < |b.bits| => b.bits[r][c])
  }

  /** The runs of every row of the blob, in columns of the page. */
  function RowScans(b: Blob): (scans: seq<seq<Csegment>>)
    requires b.WellFormed()
    ensures |scans| == b.rect.Height()
  {
    seq(|b.bits|, r requires 0 <= r < |b.bits| => Runs(b.bits[r], b.rect.left))
  }

  /** The runs of every column of the blob, in rows of the page. */
  function ColScans(b: Blob): (scans: seq<seq<Csegment>>)
    requires b.WellFormed()
    ensures |scans| == b.rect.Width()
  {
    seq(b.rect.Width(), c requires 0 <= c < b.rect.Width() => Runs(ColumnBits(b, c), b.rect.top))
  }

  // ---------------------------------------------------------------------
  // Horizontal bars

  /**
   * The index of the first run of largest size from `j` on, given the best
   * index `jmax` among the runs before `j` (-1 while none has a positive size).
   */
  function LongestIndex(runs: seq<Csegment>, j: nat, jmax: int): (k: int)
    requires j <= |runs| && -1 <= jmax < j
    ensures -1 <= k < |runs| && (jmax >= 0 ==> k >= 0)
    decreases |runs| - j
  {
    if j == |runs| then jmax
    else
      var maxsize := if jmax >= 0 then runs[jmax].Size() else 0;
      LongestIndex(runs, j + 1, if maxsize < runs[j].Size() then j else jmax)
  }

  /** The index found is the first run of largest size, or -1 when every run is empty. */
  lemma {:induction false} LongestIndexIsFirstLongest(runs: seq<Csegment>, j: nat, jmax: int)
    requires j <= |runs| && -1 <= jmax < j
    requires jmax >= 0 ==> runs[jmax].Size() > 0 && forall i :: 0 <= i < j ==>
      runs[i].Size() <= runs[jmax].Size() && (i < jmax ==> runs[i].Size() < runs[jmax].Size())
    requires jmax < 0 ==> forall i :: 0 <= i < j ==> runs[i].Size() == 0
    ensures var k := LongestIndex(runs, j, jmax);
      (k >= 0 ==> forall i :: 0 <= i < |runs| ==>
         runs[i].Size() <= runs[k].Size() && (i < k ==> runs[i].Size() < runs[k].Size())) &&
      (k < 0 ==> forall i :: 0 <= i < |runs| ==> runs[i].Size() == 0)
    decreases |runs| - j
  {
    if j < |runs| {
      var maxsize := if jmax >= 0 then runs[jmax].Size() else 0;
      LongestIndexIsFirstLongest(runs, j + 1, if maxsize < runs[j].Size() then j else jmax);
    }
  }

  /**
   * The segment that stands for a row: its only run, else its first longest
   * run, else (no run, or only empty ones) an empty segment.
   */
  function Representative(runs: seq<Csegment>): (s: Csegment)
    ensures s == EmptySegment || s in runs
    ensures forall j :: 0 <= j < |runs| ==> runs[j].Size() <= s.Size()
  {
    if |runs| == 1 then runs[0]
    else
      LongestIndexIsFirstLongest(runs, 0, -1);
      var k := LongestIndex(runs, 0, -1);
      if k >= 0 then runs[k] else EmptySegment
  }

  /** The representative segment of every row. */
  function RowSegments(b: Blob): (segv: seq<Csegment>)
    requires b.WellFormed()
    ensures |segv| == b.rect.Height()
  {
    seq(|b.bits|, r requires 0 <= r < |b.bits| => Representative(RowScans(b)[r]))
  }

  /** The first row from `begin` to `end` whose segment is at least two thirds of `width`, or `end + 1`. */
  function TrimTop(segv: seq<Csegment>, begin: int, end: int, width: int): (b1: int)
    requires 0 <= begin <= end + 1 && end < |segv|
    ensures begin <= b1 <= end + 1
    decreases end + 1 - begin
  {
    if begin <= end && 3 * segv[begin].Size() < 2 * width then TrimTop(segv, begin + 1, end, width)
    else begin
  }

  /** Trimming from the top skips exactly the thin rows before the first wide one. */
  lemma {:induction false} TrimTopSkipsThin(segv: seq<Csegment>, begin: int, end: int, width: int)
    requires 0 <= begin <= end + 1 && end < |segv|
    ensures var b1 := TrimTop(segv, begin, end, width);
      (b1 <= end ==> 3 * segv[b1].Size() >= 2 * width) &&
      forall k :: begin <= k < b1 ==> 3 * segv[k].Size() < 2 * width
    decreases end + 1 - begin
  {
    if begin <= end && 3 * segv[begin].Size() < 2 * width {
      TrimTopSkipsThin(segv, begin + 1, end, width);
    }
  }

  /** The last row from `begin` to `end` whose segment is at least two thirds of `width`, or `begin - 1`. */
  function TrimBottom(segv: seq<Csegment>, begin: int, end: int, width: int): (e1: int)
    requires 0 <= begin <= end + 1 && end < |segv|
    ensures begin - 1 <= e1 <= end
    decreases end + 1 - begin
  {
    if begin <= end && 3 * segv[end].Size() < 2 * width then TrimBottom(segv, begin, end - 1, width)
    else end
  }

  /** Trimming from the bottom skips exactly the thin rows after the last wide one. */
  lemma {:induction false} TrimBottomSkipsThin(segv: seq<Csegment>, begin: int, end: int, width: int)
    requires 0 <= begin <= end + 1 && end < |segv|
    ensures var e1 := TrimBottom(segv, begin, end, width);
      (begin <= e1 ==> 3 * segv[e1].Size() >= 2 * width) &&
      forall k :: e1 < k <= end ==> 3 * segv[k].Size() < 2 * width
    decreases end + 1 - begin
  {
    if begin <= end && 3 * segv[end].Size() < 2 * width {
      TrimBottomSkipsThin(segv, begin, end - 1, width);
    }
  }

  /** Some row among the `margin` rows above `begin` is at most two thirds of `width`. */
  predicate ClearAbove(segv: seq<Csegment>, begin: int, margin: int, width: int)
    requires 0 <= margin <= begin < |segv|
  {
    ThinRowIn(segv, begin - margin, begin, width)
  }

  /** Some row among the `margin` rows below `end` is at most two thirds of `width`. */
  predicate ClearBelow(segv: seq<Csegment>, end: int, margin: int, width: int)
    requires 0 <= end && 0 <= margin && end + margin < |segv|
  {
    ThinRowIn(segv, end + 1, end + margin + 1, width)
  }

  /** Some row from `lo` up to `hi` (exclusive) is at most two thirds of `width`. */
  predicate ThinRowIn(segv: seq<Csegment>, lo: int, hi: int, width: int)
    requires 0 <= lo && hi <= |segv|
    decreases hi - lo
  {
    lo < hi && (3 * segv[lo].Size() <= 2 * width || ThinRowIn(segv, lo + 1, hi, width))
  }

  lemma {:induction false} ThinRowInExists(segv: seq<Csegment>, lo: int, hi: int, width: int)
    requires 0 <= lo && hi <= |segv|
    ensures ThinRowIn(segv, lo, hi, width) <==> (exists k :: lo <= k < hi && 3 * segv[k].Size() <= 2 * width)
    decreases hi - lo
  {
    if lo < hi {
      ThinRowInExists(segv, lo + 1, hi, width);
      assert 3 * segv[lo].Size() <= 2 * width ==> lo <= lo < hi;
    }
  }

  /**
   * The bar a closed candidate yields (none or one): rows `begin..end` and
   * columns `l..r`, trimmed of thin rows at both ends, kept only if it is
   * at least one row high and no higher than wide, and if rows at most two
   * thirds of its width lie within a margin above and below it (where the
   * blob extends that far).
   */
  function CloseBar(segv: seq<Csegment>, begin: int, end: int, l: int, r: int, top: int): seq<Rect>
    requires 0 <= begin <= end + 1 && end < |segv|
  {
    var width := r - l + 1;
    var b1 := TrimTop(segv, begin, end, width);
    var e1 := TrimBottom(segv, b1, end, width);
    AcceptBar(segv, b1, e1, l, r, top)
  }

  /** The trimmed rows `b1..e1` and columns `l..r` as a bar, if it passes the height and margin tests. */
  function AcceptBar(segv: seq<Csegment>, b1: int, e1: int, l: int, r: int, top: int): seq<Rect>
    requires 0 <= b1 && e1 < |segv|
  {
    var width := r - l + 1;
    var height := e1 - b1 + 1;
    if height < 1 || height > width then []
    else
      var margin := Max(height, |segv| / 10 + 1);
      if b1 >= margin && !ClearAbove(segv, b1, margin, width) then []
      else if e1 + margin < |segv| && !ClearBelow(segv, e1, margin, width) then []
      else [Rect(l, b1 + top, r, e1 + top)]
  }

  /** The scan over rows is outside a candidate bar, or inside one begun at row `begin` spanning columns `l..r`. */
  datatype BarState = Outside | Inside(begin: int, l: int, r: int)

  /**
   * One row of the two-state scan: the bars closed at row `i` (none or one)
   * and the state after it. A row whose segment is longer than `limit`
   * begins a candidate; the candidate goes on while such rows overlap the
   * previous one, and is closed at the first row that does not continue it,
   * or at the last row.
   */
  function Step(segv: seq<Csegment>, limit: int, top: int, i: nat, st: BarState): (r: (seq<Rect>, BarState))
    requires i < |segv|
    requires st.Inside? ==> 0 <= st.begin < i
    ensures |r.0| <= 1 && (r.0 != [] ==> r.1 == Outside)
    ensures r.1.Inside? ==> 0 <= r.1.begin <= i && (i < |segv| - 1)
  {
    var seg := segv[i];
    var st1 := if st.Outside? && seg.Size() > limit then Inside(i, seg.left, seg.right) else st;
    if st1.Outside? then ([], Outside)
    else
      var ext := seg.Size() > limit && (i <= st1.begin || seg.Overlaps(segv[i - 1]));
      var l := if ext && seg.left < st1.l then seg.left else st1.l;
      var r := if ext && seg.right > st1.r then seg.right else st1.r;
      if ext && i < |segv| - 1 then ([], Inside(st1.begin, l, r))
      else
        var end := if seg.Size() <= limit then i - 1 else i;
        (CloseBar(segv, st1.begin, end, l, r, top), Outside)
  }

  /** The bars the scan finds from row `i` on, in state `st`. */
  function ScanBars(segv: seq<Csegment>, limit: int, top: int, i: nat, st: BarState): (bars: seq<Rect>)
    requires i <= |segv|
    requires st.Inside? ==> 0 <= st.begin < i
    ensures |bars| <= |segv| - i
    decreases |segv| - i
  {
    if i == |segv| then []
    else
      var (closed, st') := Step(segv, limit, top, i, st);
      closed + ScanBars(segv, limit, top, i + 1, st')
  }

  /** One step of the scan over rows: the bars closed at row `i`, then those after it. */
  lemma ScanBarsUnfold(segv: seq<Csegment>, limit: int, top: int, i: nat, st: BarState)
    requires i < |segv|
    requires st.Inside? ==> 0 <= st.begin < i
    ensures var (closed, st') := Step(segv, limit, top, i, st);
      ScanBars(segv, limit, top, i, st) == closed + ScanBars(segv, limit, top, i + 1, st')
  {
  }

  /** The smallest width of the bars; the first one when several tie. */
  function MinWidth(bars: seq<Rect>): (w: int)
    requires |bars| > 0
    ensures exists k :: 0 <= k < |bars| && bars[k].Width() == w
    ensures forall k :: 0 <= k < |bars| ==> w <= bars[k].Width()
  {
    if |bars| == 1 then bars[0].Width()
    else
      var m := MinWidth(bars[..|bars| - 1]);
      assert forall k :: 0 <= k < |bars| - 1 ==> bars[..|bars| - 1][k] == bars[k];
      if bars[|bars| - 1].Width() < m then bars[|bars| - 1].Width() else m
  }

  /** Flags the bars not of the smallest width. */
  function WiderThanMin(bars: seq<Rect>): (keep: seq<bool>)
    requires |bars| > 0
    ensures |keep| == |bars|
    ensures forall k :: 0 <= k < |bars| ==> keep[k] == (bars[k].Width() != MinWidth(bars))
  {
    seq(|bars|, k requires 0 <= k < |bars| => bars[k].Width() != MinWidth(bars))
  }

  /** One pruning round: every bar of the smallest width goes, the others stay in order. */
  function DropNarrowest(bars: seq<Rect>): (r: seq<Rect>)
    requires |bars| > 0
    ensures |r| < |bars|
  {
    var keep := WiderThanMin(bars);
    var k :| 0 <= k < |bars| && bars[k].Width() == MinWidth(bars);
    SelectLength(bars, keep);
    CountBelowLength(keep, k);
    Select(bars, keep)
  }

  /** Rounds of pruning while more than three bars remain. */
  function Prune(bars: seq<Rect>): (r: seq<Rect>)
    ensures |r| <= 3 && |r| <= |bars|
    ensures |bars| <= 3 ==> r == bars
    decreases |bars|
  {
    if |bars| <= 3 then bars else Prune(DropNarrowest(bars))
  }

  /** The horizontal bars of a blob, as the detector leaves them. */
  function HBarsOf(b: Blob, wpmax: int): (bars: seq<Rect>)
    requires b.WellFormed()
    ensures |bars| <= 3
  {
    Prune(ScanBars(RowSegments(b), Div(wpmax + 1, 2), b.rect.top, 0, Outside))
  }

  /** Bar `a` lies wholly above bar `c`. */
  predicate Above(a: Rect, c: Rect) { a.bottom < c.top }

  /** Bar `a` lies wholly left of bar `c`, with a gap between them. */
  predicate LeftOf(a: Rect, c: Rect) { a.right < c.left }

  /**
   * A horizontal bar of a blob whose rows run from `top` over `height` rows
   * and whose long segments lie in columns `lo..hi`: at least one row
   * high, no higher than wide, inside those rows and columns.
   */
  predicate HBarShape(r: Rect, top: int, height: int, lo: int, hi: int)
  {
    1 <= r.Height() <= r.Width() && top <= r.top && r.bottom < top + height && lo <= r.left && r.right <= hi
  }

  /** Every bar has the shape of a horizontal bar within those rows and columns. */
  predicate BarsWithin(bars: seq<Rect>, top: int, height: int, lo: int, hi: int)
  {
    forall k :: 0 <= k < |bars| ==> HBarShape(bars[k], top, height, lo, hi)
  }

  /** What the closing of a candidate yields is a bar within its rows and columns. */
  lemma CloseBarShape(segv: seq<Csegment>, begin: int, end: int, l: int, r: int, top: int, lo: int, hi: int)
    requires 0 <= begin <= end + 1 && end < |segv|
    requires lo <= l && r <= hi
    ensures |CloseBar(segv, begin, end, l, r, top)| <= 1
    ensures forall k :: 0 <= k < |CloseBar(segv, begin, end, l, r, top)| ==>
      HBarShape(CloseBar(segv, begin, end, l, r, top)[k], top + begin, |segv| - begin, lo, hi) &&
      CloseBar(segv, begin, end, l, r, top)[k].bottom <= top + end
  {
  }

  /** The first row the bars closed from row `i` on, in state `st`, can reach. */
  function ScanFrom(i: nat, st: BarState): int
  {
    if st.Inside? then st.begin else i
  }

  /**
   * A step closes bars only into the state outside a candidate; they lie
   * from the candidate's first row to row `i`; a candidate kept open keeps
   * its first row and columns within the long segments.
   */
  lemma StepShape(segv: seq<Csegment>, limit: int, top: int, i: nat, st: BarState, lo: int, hi: int)
    requires i < |segv|
    requires st.Inside? ==> 0 <= st.begin < i && lo <= st.l && st.r <= hi
    requires LongWithin(segv, limit, lo, hi)
    ensures var (closed, st') := Step(segv, limit, top, i, st);
      |closed| <= 1 && (closed != [] ==> st'.Outside?) &&
      (st'.Inside? ==> st'.begin == ScanFrom(i, st) && lo <= st'.l && st'.r <= hi) &&
      BarsWithin(closed, top + ScanFrom(i, st), |segv| - ScanFrom(i, st), lo, hi) &&
      forall k :: 0 <= k < |closed| ==> closed[k].bottom <= top + i
  {
    var seg := segv[i];
    var st1 := if st.Outside? && seg.Size() > limit then Inside(i, seg.left, seg.right) else st;
    if st1.Inside? {
      var ext := seg.Size() > limit && (i <= st1.begin || seg.Overlaps(segv[i - 1]));
      var l := if ext && seg.left < st1.l then seg.left else st1.l;
      var r := if ext && seg.right > st1.r then seg.right else st1.r;
      var end := if seg.Size() <= limit then i - 1 else i;
      CloseBarShape(segv, st1.begin, end, l, r, top, lo, hi);
    }
  }

  /**
   * The scan yields bars within the rows still to come (from the open
   * candidate's first row on) and within the columns of the long segments,
   * from top to bottom, each above the next.
   */
  lemma {:induction false} ScanBarsShape(segv: seq<Csegment>, limit: int, top: int, i: nat, st: BarState, lo: int, hi: int, bars: seq<Rect>)
    requires i <= |segv|
    requires st.Inside? ==> 0 <= st.begin < i && lo <= st.l && st.r <= hi
    requires LongWithin(segv, limit, lo, hi)
    requires bars == ScanBars(segv, limit, top, i, st)
    ensures BarsWithin(bars, top + ScanFrom(i, st), |segv| - ScanFrom(i, st), lo, hi)
    ensures TopToBottom(bars)
    decreases |segv| - i
  {
    if i < |segv| {
      var closed, st' := ScanStep(segv, limit, top, i, st, lo, hi);
      var rest := ScanBars(segv, limit, top, i + 1, st');
      ScanBarsShape(segv, limit, top, i + 1, st', lo, hi, rest);
      var from, next := ScanFrom(i, st), ScanFrom(i + 1, st');
      AppendWithin(closed, rest, top + from, |segv| - from, top + next, |segv| - next, lo, hi);
      AppendOrdered(closed, rest, top + next, |segv| - next, lo, hi);
    }
  }

  /** The facts about one step of the scan that the shape proof uses. */
  lemma ScanStep(segv: seq<Csegment>, limit: int, top: int, i: nat, st: BarState, lo: int, hi: int)
    returns (closed: seq<Rect>, st': BarState)
    requires i < |segv|
    requires st.Inside? ==> 0 <= st.begin < i && lo <= st.l && st.r <= hi
    requires LongWithin(segv, limit, lo, hi)
    ensures st'.Inside? ==> st'.begin == ScanFrom(i, st) && 0 <= st'.begin < i + 1 && lo <= st'.l && st'.r <= hi
    ensures ScanFrom(i, st) <= ScanFrom(i + 1, st')
    ensures ScanBars(segv, limit, top, i, st) == closed + ScanBars(segv, limit, top, i + 1, st')
    ensures TopToBottom(closed) && (closed != [] ==> st'.Outside?)
    ensures BarsWithin(closed, top + ScanFrom(i, st), |segv| - ScanFrom(i, st), lo, hi)
    ensures EndAbove(closed, top + ScanFrom(i + 1, st'))
  {
    var step := Step(segv, limit, top, i, st);
    closed, st' := step.0, step.1;
    ScanBarsUnfold(segv, limit, top, i, st);
    StepShape(segv, limit, top, i, st, lo, hi);
  }

  /** Bars within rows from `top` followed by bars within rows from `next`, a later row, lie within rows from `top`. */
  lemma AppendWithin(closed: seq<Rect>, rest: seq<Rect>, top: int, height: int, next: int, restHeight: int, lo: int, hi: int)
    requires BarsWithin(closed, top, height, lo, hi)
    requires BarsWithin(rest, next, restHeight, lo, hi) && next + restHeight == top + height
    requires top <= next
    ensures BarsWithin(closed + rest, top, height, lo, hi)
  {
    var all := closed + rest;
    forall k | 0 <= k < |all|
      ensures HBarShape(all[k], top, height, lo, hi)
    {
      if k < |closed| {
        assert all[k] == closed[k];
      } else {
        assert all[k] == rest[k - |closed|];
      }
    }
  }

  /** Every segment longer than `limit` lies within columns `lo..hi`. */
  predicate LongWithin(segv: seq<Csegment>, limit: int, lo: int, hi: int)
  {
    forall k :: 0 <= k < |segv| && segv[k].Size() > limit ==> lo <= segv[k].left && segv[k].right <= hi
  }

  /** Every bar ends above row `row`. */
  predicate EndAbove(bars: seq<Rect>, row: int)
  {
    forall k :: 0 <= k < |bars| ==> bars[k].bottom < row
  }

  /** Each bar lies wholly above every later one. */
  predicate TopToBottom(bars: seq<Rect>)
  {
    forall j, k :: 0 <= j < k < |bars| ==> bars[j].bottom < bars[k].top
  }

  lemma TopToBottomInOrder(bars: seq<Rect>)
    requires TopToBottom(bars)
    ensures InOrder(bars, Above)
  {
    forall j, k | 0 <= j < k < |bars|
      ensures Above(bars[j], bars[k])
    {
    }
  }

  /** Bars above row `next` followed by bars from row `next` on, both top to bottom, stay top to bottom. */
  lemma AppendOrdered(closed: seq<Rect>, rest: seq<Rect>, next: int, restHeight: int, lo: int, hi: int)
    requires EndAbove(closed, next)
    requires BarsWithin(rest, next, restHeight, lo, hi)
    requires TopToBottom(closed) && TopToBottom(rest)
    ensures TopToBottom(closed + rest)
  {
    var all := closed + rest;
    forall j, k | 0 <= j < k < |all|
      ensures all[j].bottom < all[k].top
    {
      if j < |closed| {
        assert all[j] == closed[j];
        if k < |closed| { assert all[k] == closed[k]; } else { assert all[k] == rest[k - |closed|]; }
      } else {
        assert all[j] == rest[j - |closed|] && all[k] == rest[k - |closed|];
      }
    }
  }

  /** Pruning keeps at most three bars, each one of the bars given, in their order. */
  lemma {:induction false} PruneShape(bars: seq<Rect>)
    ensures |Prune(bars)| <= 3 && (|bars| <= 3 ==> Prune(bars) == bars)
    ensures forall x :: x in Prune(bars) ==> x in bars
    ensures InOrder(bars, Above) ==> InOrder(Prune(bars), Above)
    decreases |bars|
  {
    if |bars| > 3 {
      var keep := WiderThanMin(bars);
      SelectMembers(bars, keep);
      if InOrder(bars, Above) {
        SelectKeepsOrder(bars, keep, Above);
      }
      assert DropNarrowest(bars) == Select(bars, keep);
      PruneShape(DropNarrowest(bars));
    }
  }

  /** Each run that stands for a row lies inside the blob's columns, or is empty. */
  lemma RowSegmentsInside(b: Blob)
    requires b.WellFormed()
    ensures forall k :: 0 <= k < |RowSegments(b)| ==>
      RowSegments(b)[k] == EmptySegment ||
      (b.rect.left <= RowSegments(b)[k].left <= RowSegments(b)[k].right <= b.rect.right)
  {
    forall k | 0 <= k < |RowSegments(b)|
      ensures RowSegments(b)[k] == EmptySegment ||
        (b.rect.left <= RowSegments(b)[k].left <= RowSegments(b)[k].right <= b.rect.right)
    {
      var runs := RowScans(b)[k];
      RunsAreMaximal(b.bits[k], b.rect.left);
      assert runs == Runs(b.bits[k], b.rect.left);
      var s := Representative(runs);
      if s != EmptySegment {
        var j :| 0 <= j < |runs| && runs[j] == s;
      }
    }
  }

  /**
   * The horizontal bars of a blob number at most three; each is at least one
   * row high, no higher than wide and inside the blob, and each lies above
   * the next.
   */
  lemma HBarsShape(b: Blob, wpmax: int)
    requires b.WellFormed() && wpmax >= 0
    ensures |HBarsOf(b, wpmax)| <= 3
    ensures forall k :: 0 <= k < |HBarsOf(b, wpmax)| ==>
      HBarShape(HBarsOf(b, wpmax)[k], b.rect.top, b.rect.Height(), b.rect.left, b.rect.right)
    ensures InOrder(HBarsOf(b, wpmax), Above)
  {
    var segv := RowSegments(b);
    var limit := Div(wpmax + 1, 2);
    assert limit >= 0;
    RowSegmentsInside(b);
    var bars := ScanBars(segv, limit, b.rect.top, 0, Outside);
    ScanBarsShape(segv, limit, b.rect.top, 0, Outside, b.rect.left, b.rect.right, bars);
    TopToBottomInOrder(bars);
    assert |segv| == b.rect.Height();
    PruneShape(bars);
    forall k | 0 <= k < |Prune(bars)|
      ensures HBarShape(Prune(bars)[k], b.rect.top, b.rect.Height(), b.rect.left, b.rect.right)
    {
      assert Prune(bars)[k] in bars;
    }
  }

  /** Pruning drops every bar of the smallest width at once: widths 10, 10, 4, 4 leave the two of width 10. */
  lemma PruneDropsAllNarrowest()
    ensures Prune([Rect(0, 0, 9, 1), Rect(0, 3, 9, 4), Rect(0, 6, 3, 7), Rect(0, 9, 3, 10)]) ==
            [Rect(0, 0, 9, 1), Rect(0, 3, 9, 4)]
  {
    var bars := [Rect(0, 0, 9, 1), Rect(0, 3, 9, 4), Rect(0, 6, 3, 7), Rect(0, 9, 3, 10)];
    assert MinWidth(bars) == 4;
    var keep := WiderThanMin(bars);
    assert keep == [true, true, false, false];
    assert Select(bars, keep) == [Rect(0, 0, 9, 1), Rect(0, 3, 9, 4)];
  }

  // ---------------------------------------------------------------------
  // Vertical bars

  /**
   * The longest vertical run through column `col` from row `row` on,
   * counting white pixels next to a black one in a neighbouring column as
   * part of the run, and how many such bridged pixels the column has in all.
   * Only the rows strictly between the top and bottom rows are looked at.
   */
  function RunCount(b: Blob, col: int, row: int, c: int, c2: int, count: int): (r: (int, int))
    requires b.WellFormed() && b.InCols(col) && b.rect.top < row
    ensures count <= r.0 <= Max(count, Max(c, 0) + (b.rect.bottom - row))
    ensures c2 <= r.1 <= c2 + Max(0, b.rect.bottom - row)
    decreases b.rect.bottom - row
  {
    if row >= b.rect.bottom then (count, c2)
    else
      var black := b.GetBit(row, col);
      var bridged := !black &&
        ((col > b.rect.left && b.GetBit(row, col - 1)) || (col < b.rect.right && b.GetBit(row, col + 1)));
      var c' := if black || bridged then c + 1 else c;
      var c2' := if bridged then c2 + 1 else c2;
      if (black || bridged) && row < b.rect.bottom - 1 then RunCount(b, col, row + 1, c', c2', count)
      else RunCount(b, col, row + 1, 0, c2', if c' > count then c' else count)
  }

  /** The count of a column, or 0 when without its bridged pixels it falls below two thirds of `limit`. */
  function ColumnCount(b: Blob, col: int, limit: int): (count: int)
    requires b.WellFormed() && b.InCols(col)
    ensures 0 <= count <= Max(0, b.rect.Height() - 2)
    ensures count != 0 ==> count * 3 >= limit * 2
  {
    var (count, c2) := RunCount(b, col, b.rect.top + 1, 0, 0, 0);
    if (count - c2) * 3 < limit * 2 then 0 else count
  }

  /** The limit a column count is compared with: the blob height less 3, or less a tenth from 40 rows on. */
  function VLimit(height: int): int
  {
    height - (if height < 40 then 3 else height / 10)
  }

  /**
   * One column of the four-state scan: the bar closed at column `col` (none
   * or one), the new state and the new first column of the candidate.
   * States 1 and 2 are weak and medium candidates, state 3 a confirmed bar,
   * closed at the first column below two thirds of `limit` or at the last
   * column `last`; a bar spans rows `top..bottom`.
   */
  function VStep(count: int, limit: int, col: int, last: int, top: int, bottom: int,
                 state: int, begin: int): (r: (seq<Rect>, int, int))
    ensures |r.0| <= 1 && (r.0 != [] ==> state == 3 && r.1 == 0)
    ensures 0 <= state <= 3 ==> 0 <= r.1 <= 3
  {
    if state == 0 then
      if count >= limit then ([], 3, col)
      else if count * 4 >= limit * 3 then ([], 2, col)
      else if count * 3 >= limit * 2 then ([], 1, col)
      else ([], 0, begin)
    else if state == 1 then
      if count >= limit then ([], 3, begin)
      else if count * 4 >= limit * 3 then ([], 2, begin)
      else if count * 3 < limit * 2 then ([], 0, begin)
      else ([], 1, col)
    else if state == 2 then
      if count >= limit then ([], 3, begin)
      else if count * 3 < limit * 2 then ([], 0, begin)
      else if count * 4 < limit * 3 then ([], 1, begin)
      else ([], 2, begin)
    else if state == 3 && (count * 3 < limit * 2 || col == last) then
      var end := if count * 3 < limit * 2 then col - 1 else col;
      ([Rect(begin, top, end, bottom)], 0, begin)
    else ([], state, begin)
  }

  /** The count of every column of the blob (0 off the blob). */
  function ColumnCounts(b: Blob, limit: int): int -> int
  {
    c => if b.WellFormed() && b.InCols(c) then ColumnCount(b, c, limit) else 0
  }

  /** The bars the scan finds from column `col` to column `last`, given the count of every column. */
  function ScanVBars(counts: int -> int, limit: int, col: int, last: int, top: int, bottom: int,
                     state: int, begin: int): (bars: seq<Rect>)
    ensures |bars| <= Max(0, last + 1 - col)
    decreases last + 1 - col
  {
    if col > last then []
    else
      var (closed, state', begin') := VStep(counts(col), limit, col, last, top, bottom, state, begin);
      closed + ScanVBars(counts, limit, col + 1, last, top, bottom, state', begin')
  }

  /** One step of the vertical scan: the bars closed at column `col`, then those after it. */
  lemma ScanVBarsUnfold(counts: int -> int, limit: int, col: int, last: int, top: int, bottom: int, state: int, begin: int)
    requires col <= last
    ensures var (closed, state', begin') := VStep(counts(col), limit, col, last, top, bottom, state, begin);
      ScanVBars(counts, limit, col, last, top, bottom, state, begin) ==
      closed + ScanVBars(counts, limit, col + 1, last, top, bottom, state', begin')
  {
  }

  /** The bars found so far, then the bars closed at column `col`, then the scan after it, are the bars found so far and the scan from `col`. */
  lemma ScanVBarsStep(counts: int -> int, limit: int, col: int, last: int, top: int, bottom: int, state: int, begin: int,
                      bars: seq<Rect>, closed: seq<Rect>, state': int, begin': int)
    requires col <= last
    requires (closed, state', begin') == VStep(counts(col), limit, col, last, top, bottom, state, begin)
    ensures bars + closed + ScanVBars(counts, limit, col + 1, last, top, bottom, state', begin') ==
            bars + ScanVBars(counts, limit, col, last, top, bottom, state, begin)
  {
    ScanVBarsUnfold(counts, limit, col, last, top, bottom, state, begin);
    AppendAssoc(bars, closed, ScanVBars(counts, limit, col + 1, last, top, bottom, state', begin'));
  }

  /**
   * A step closes a bar only from a confirmed candidate, spanning from its
   * first column to at most column `col`, and returns to the idle state; an
   * open candidate begins at column `col` at the latest.
   */
  lemma VStepShape(count: int, limit: int, col: int, last: int, top: int, bottom: int, state: int, begin: int, lo: int)
    requires 0 <= state <= 3 && col <= last
    requires state == 0 ==> lo <= col
    requires state != 0 ==> lo <= begin < col
    ensures var (closed, state', begin') := VStep(count, limit, col, last, top, bottom, state, begin);
      0 <= state' <= 3 && |closed| <= 1 &&
      (closed != [] ==> state' == 0 && closed[0].top == top && closed[0].bottom == bottom &&
                        lo <= closed[0].left <= closed[0].right <= col && closed[0].right <= last) &&
      (closed == [] && state' != 0 ==> lo <= begin' < col + 1)
  {
  }

  /**
   * The scan yields bars spanning rows `top..bottom`, inside the columns
   * still to come (from the open candidate's first column on), each left of
   * the next.
   */
  lemma {:induction false} ScanVBarsShape(counts: int -> int, limit: int, col: int, last: int, top: int, bottom: int,
                                          state: int, begin: int, lo: int, bars: seq<Rect>)
    requires 0 <= state <= 3
    requires state == 0 ==> lo <= col
    requires state != 0 ==> lo <= begin < col
    requires bars == ScanVBars(counts, limit, col, last, top, bottom, state, begin)
    ensures VBarsWithin(bars, top, bottom, lo, last)
    ensures InOrder(bars, LeftOf)
    decreases last + 1 - col
  {
    if col <= last {
      var (closed, state', begin') := VStep(counts(col), limit, col, last, top, bottom, state, begin);
      var rest := ScanVBars(counts, limit, col + 1, last, top, bottom, state', begin');
      ScanVBarsUnfold(counts, limit, col, last, top, bottom, state, begin);
      VStepShape(counts(col), limit, col, last, top, bottom, state, begin, lo);
      if closed == [] {
        ScanVBarsShape(counts, limit, col + 1, last, top, bottom, state', begin', lo, rest);
        assert closed + rest == rest;
      } else {
        ScanVBarsShape(counts, limit, col + 1, last, top, bottom, state', begin', col + 1, rest);
        AppendRightOf(closed[0], rest, lo, col, last, top, bottom);
      }
    }
  }

  /** Every bar spans rows `top..bottom` and lies within columns `lo..last`. */
  predicate VBarsWithin(bars: seq<Rect>, top: int, bottom: int, lo: int, last: int)
  {
    forall j :: 0 <= j < |bars| ==>
      bars[j].top == top && bars[j].bottom == bottom && lo <= bars[j].left <= bars[j].right <= last
  }

  /** A bar ending at column `col` followed by bars from column `col + 1` on stays in order. */
  lemma AppendRightOf(bar: Rect, rest: seq<Rect>, lo: int, col: int, last: int, top: int, bottom: int)
    requires bar.top == top && bar.bottom == bottom && lo <= bar.left <= bar.right <= col
    requires VBarsWithin(rest, top, bottom, col + 1, last)
    requires InOrder(rest, LeftOf) && col <= last
    ensures VBarsWithin([bar] + rest, top, bottom, lo, last)
    ensures InOrder([bar] + rest, LeftOf)
  {
    var all := [bar] + rest;
    forall i, j | 0 <= i < j < |all|
      ensures LeftOf(all[i], all[j])
    {
      assert all[j] == rest[j - 1];
      if i > 0 { assert all[i] == rest[i - 1]; }
    }
    forall j | 0 <= j < |all|
      ensures all[j].top == top && all[j].bottom == bottom && lo <= all[j].left <= all[j].right <= last
    {
      if j > 0 { assert all[j] == rest[j - 1]; }
    }
  }

  /** The vertical bars of a blob. */
  function VBarsOf(b: Blob): (bars: seq<Rect>)
    ensures |bars| <= Max(0, b.rect.Width())
  {
    var limit := VLimit(b.rect.Height());
    ScanVBars(ColumnCounts(b, limit), limit, b.rect.left, b.rect.right, b.rect.top, b.rect.bottom, 0, 0)
  }

  /** The vertical bars of a blob span its rows, lie inside its columns and each lies left of the next. */
  lemma VBarsShape(b: Blob)
    ensures forall j :: 0 <= j < |VBarsOf(b)| ==>
      VBarsOf(b)[j].top == b.rect.top && VBarsOf(b)[j].bottom == b.rect.bottom &&
      b.rect.left <= VBarsOf(b)[j].left <= VBarsOf(b)[j].right <= b.rect.right
    ensures InOrder(VBarsOf(b), LeftOf)
  {
    var limit := VLimit(b.rect.Height());
    ScanVBarsShape(ColumnCounts(b, limit), limit, b.rect.left, b.rect.right, b.rect.top, b.rect.bottom, 0, 0, b.rect.left, VBarsOf(b));
  }

  // ---------------------------------------------------------------------
  // The features of one blob, computed on demand

  /** The scan state of the two-state bar scan, from the method's variables. */
  function BarStateOf(state: int, begin: int, l: int, r: int): BarState
  {
    if state == 0 then Outside else Inside(begin, l, r)
  }

  class Features {
    /** The blob these features belong to. */
    const b: Blob
    /** The largest value of the blob's width profile. */
    const wpmax: int
    var hbarInitialized: bool
    var vbarInitialized: bool
    var hbar: seq<Rect>
    var vbar: seq<Rect>
    var rowScan: seq<seq<Csegment>>
    var colScan: seq<seq<Csegment>>

    /** Each cache is either not yet filled or holds what its scan computes. */
    ghost predicate Valid()
      reads this
    {
      b.WellFormed() && 0 <= b.rect.left && 0 <= b.rect.top && wpmax >= 0 &&
      (rowScan == [] || rowScan == RowScans(b)) &&
      (colScan == [] || colScan == ColScans(b)) &&
      hbar == (if hbarInitialized then HBarsOf(b, wpmax) else []) &&
      vbar == (if vbarInitialized then VBarsOf(b) else [])
    }

    constructor(blob: Blob, widthMax: int)
      requires blob.WellFormed() && 0 <= blob.rect.left && 0 <= blob.rect.top && widthMax >= 0
      ensures Valid() && b == blob && wpmax == widthMax
      ensures !hbarInitialized && !vbarInitialized && rowScan == [] && colScan == []
    {
      b := blob;
      wpmax := widthMax;
      hbarInitialized := false;
      vbarInitialized := false;
      hbar := [];
      vbar := [];
      rowScan := [];
      colScan := [];
    }

    /** Records the runs of black pixels of every row. */
    method RowScanInit()
      requires Valid() && rowScan == []
      modifies this
      ensures Valid() && rowScan == RowScans(b)
      ensures colScan == old(colScan) && hbar == old(hbar) && vbar == old(vbar)
      ensures hbarInitialized == old(hbarInitialized) && vbarInitialized == old(vbarInitialized)
    {
      rowScan := ScanEveryRow();
    }

    /** Records the runs of black pixels of every column. */
    method ColScanInit()
      requires Valid() && colScan == []
      modifies this
      ensures Valid() && colScan == ColScans(b)
      ensures rowScan == old(rowScan) && hbar == old(hbar) && vbar == old(vbar)
      ensures hbarInitialized == old(hbarInitialized) && vbarInitialized == old(vbarInitialized)
    {
      colScan := ScanEveryColumn();
    }

    /** The runs of black pixels of every row, scanning the rows top to bottom. */
    method ScanEveryRow() returns (scan: seq<seq<Csegment>>)
      requires b.WellFormed() && 0 <= b.rect.left
      ensures scan == RowScans(b)
    {
      scan := seq(b.rect.Height(), _ => []);
      var row := b.rect.top;
      while row <= b.rect.bottom
        invariant b.rect.top <= row <= b.rect.bottom + 1
        invariant |scan| == b.rect.Height()
        invariant forall k :: 0 <= k < row - b.rect.top ==> scan[k] == RowScans(b)[k]
        invariant forall k :: row - b.rect.top <= k < |scan| ==> scan[k] == []
      {
        var line := ScanLine(b.bits[row - b.rect.top], b.rect.left);
        scan := scan[row - b.rect.top := line];
        row := row + 1;
      }
    }

    /** The runs of black pixels of every column, scanning the columns left to right. */
    method ScanEveryColumn() returns (scan: seq<seq<Csegment>>)
      requires b.WellFormed() && 0 <= b.rect.top
      ensures scan == ColScans(b)
    {
      scan := seq(b.rect.Width(), _ => []);
      var col := b.rect.left;
      while col <= b.rect.right
        invariant b.rect.left <= col <= b.rect.right + 1
        invariant |scan| == b.rect.Width()
        invariant forall k :: 0 <= k < col - b.rect.left ==> scan[k] == ColScans(b)[k]
        invariant forall k :: col - b.rect.left <= k < |scan| ==> scan[k] == []
      {
        var line := ScanLine(ColumnBits(b, col - b.rect.left), b.rect.top);
        scan := scan[col - b.rect.left := line];
        col := col + 1;
      }
    }

    /** The number of runs of black pixels crossing row `row`, scanning the rows first if need be. */
    method SegmentsInRow(row: int) returns (n: int)
      requires Valid() && b.InRows(row)
      modifies this
      ensures Valid() && rowScan == RowScans(b)
      ensures n == |Runs(b.bits[row - b.rect.top], b.rect.left)|
      ensures colScan == old(colScan) && hbar == old(hbar) && vbar == old(vbar)
      ensures hbarInitialized == old(hbarInitialized) && vbarInitialized == old(vbarInitialized)
    {
      if rowScan == [] { RowScanInit(); }
      n := |rowScan[row - b.rect.top]|;
    }

    /** The number of runs of black pixels crossing column `col`, scanning the columns first if need be. */
    method SegmentsInCol(col: int) returns (n: int)
      requires Valid() && b.InCols(col)
      modifies this
      ensures Valid() && colScan == ColScans(b)
      ensures n == |Runs(ColumnBits(b, col - b.rect.left), b.rect.top)|
      ensures rowScan == old(rowScan) && hbar == old(hbar) && vbar == old(vbar)
      ensures hbarInitialized == old(hbarInitialized) && vbarInitialized == old(vbarInitialized)
    {
      if colScan == [] { ColScanInit(); }
      n := |colScan[col - b.rect.left]|;
    }

    /**
     * The vertical run of black pixels through (row, col): the run of the
     * column holding that pixel when it is black, an empty segment when it
     * is white.
     */
    method VSegment(row: int, col: int) returns (s: Csegment)
      requires Valid() && b.InRows(row) && b.InCols(col)
      modifies this
      ensures Valid() && colScan == ColScans(b)
      ensures b.GetBit(row, col) ==> FirstHolding(colScan[col - b.rect.left], row, s)
      ensures !b.GetBit(row, col) ==> s == EmptySegment
      ensures rowScan == old(rowScan) && hbar == old(hbar) && vbar == old(vbar)
      ensures hbarInitialized == old(hbarInitialized) && vbarInitialized == old(vbarInitialized)
    {
      var segments := SegmentsInCol(col);
      var c := col - b.rect.left;
      s := FindRun(colScan[c], row);
      FoundRunIsVSegment(b, row, col, s);
    }

    /** The representative segment of every row, from the row scans. */
    method RowSegmentsOf() returns (segv: seq<Csegment>)
      requires b.WellFormed() && rowScan == RowScans(b)
      ensures segv == RowSegments(b)
    {
      segv := [];
      var i := 0;
      while i < |rowScan|
        invariant 0 <= i <= |rowScan| && segv == RowSegments(b)[..i]
      {
        var runs := rowScan[i];
        if |runs| == 1 {
          segv := segv + [runs[0]];
        } else {
          var maxsize := 0;
          var jmax := -1;
          var j := 0;
          while j < |runs|
            invariant 0 <= j <= |runs| && -1 <= jmax < j
            invariant maxsize == (if jmax >= 0 then runs[jmax].Size() else 0)
            invariant LongestIndex(runs, j, jmax) == LongestIndex(runs, 0, -1)
          {
            var size := runs[j].Size();
            if maxsize < size {
              maxsize := size;
              jmax := j;
            }
            j := j + 1;
          }
          if jmax >= 0 {
            segv := segv + [runs[jmax]];
          } else {
            segv := segv + [EmptySegment];
          }
        }
        assert RowSegments(b)[..i + 1] == RowSegments(b)[..i] + [Representative(runs)];
        i := i + 1;
      }
    }

    /** Some row among the `margin` rows above `begin` is at most two thirds of `width`. */
    static method ClearRowAbove(segv: seq<Csegment>, begin: int, margin: int, width: int) returns (good: bool)
      requires 0 <= margin <= begin < |segv|
      ensures good == ClearAbove(segv, begin, margin, width)
    {
      good := false;
      var j := margin;
      while j > 0
        invariant 0 <= j <= margin
        invariant forall k :: begin - margin <= k < begin - j ==> 3 * segv[k].Size() > 2 * width
      {
        if 3 * segv[begin - j].Size() <= 2 * width {
          good := true;
          ThinRowInExists(segv, begin - margin, begin, width);
          return;
        }
        j := j - 1;
      }
      ThinRowInExists(segv, begin - margin, begin, width);
    }

    /** Some row among the `margin` rows below `end` is at most two thirds of `width`. */
    static method ClearRowBelow(segv: seq<Csegment>, end: int, margin: int, width: int) returns (good: bool)
      requires 0 <= end && 0 <= margin && end + margin < |segv|
      ensures good == ClearBelow(segv, end, margin, width)
    {
      good := false;
      var j := margin;
      while j > 0
        invariant 0 <= j <= margin
        invariant forall k :: end + j < k <= end + margin ==> 3 * segv[k].Size() > 2 * width
      {
        if 3 * segv[end + j].Size() <= 2 * width {
          good := true;
          ThinRowInExists(segv, end + 1, end + margin + 1, width);
          return;
        }
        j := j - 1;
      }
      ThinRowInExists(segv, end + 1, end + margin + 1, width);
    }

    /** Drops the rows at both ends of a candidate that are shorter than two thirds of `width`. */
    static method Trim(segv: seq<Csegment>, begin0: int, end0: int, width: int) returns (begin: int, end: int)
      requires 0 <= begin0 <= end0 + 1 && end0 < |segv|
      ensures begin == TrimTop(segv, begin0, end0, width)
      ensures end == TrimBottom(segv, begin, end0, width)
    {
      begin, end := begin0, end0;
      while begin <= end && 3 * segv[begin].Size() < 2 * width
        invariant begin0 <= begin <= end + 1
        invariant TrimTop(segv, begin, end, width) == TrimTop(segv, begin0, end0, width)
        decreases end - begin
      {
        begin := begin + 1;
      }
      while begin <= end && 3 * segv[end].Size() < 2 * width
        invariant begin - 1 <= end <= end0
        invariant TrimBottom(segv, begin, end, width) == TrimBottom(segv, begin, end0, width)
      {
        end := end - 1;
      }
    }

    /**
     * Closes a candidate bar of rows `begin..end` and columns `l..r`:
     * trims thin rows at both ends and returns the bar, if it passes the
     * height and margin tests.
     */
    static method CloseCandidate(segv: seq<Csegment>, begin0: int, end0: int, l: int, r: int, top: int)
      returns (bars: seq<Rect>)
      requires 0 <= begin0 <= end0 + 1 && end0 < |segv|
      ensures bars == CloseBar(segv, begin0, end0, l, r, top)
    {
      var width := r - l + 1;
      var begin, end := Trim(segv, begin0, end0, width);
      assert CloseBar(segv, begin0, end0, l, r, top) == AcceptBar(segv, begin, end, l, r, top);
      bars := Accept(segv, begin, end, l, r, top);
    }

    /** The bar of rows `begin..end` and columns `l..r`, if it passes the height and margin tests. */
    static method Accept(segv: seq<Csegment>, begin: int, end: int, l: int, r: int, top: int) returns (bars: seq<Rect>)
      requires 0 <= begin && end < |segv|
      ensures bars == AcceptBar(segv, begin, end, l, r, top)
    {
      var width := r - l + 1;
      var height := end - begin + 1;
      bars := [];
      if height < 1 || height > width { return; }
      var margin := Max(height, |segv| / 10 + 1);
      if begin >= margin {
        var good := ClearRowAbove(segv, begin, margin, width);
        if !good { return; }
      }
      if end + margin < |segv| {
        var good := ClearRowBelow(segv, end, margin, width);
        if !good { return; }
      }
      bars := [Rect(l, begin + top, r, end + top)];
    }

    /** The bars the scan over the rows' segments finds, before pruning. */
    static method ScanRows(segv: seq<Csegment>, limit: int, top: int) returns (bars: seq<Rect>)
      ensures bars == ScanBars(segv, limit, top, 0, Outside)
    {
      var state, begin, l, r := 0, 0, 0, 0;
      bars := [];
      var i := 0;
      while i < |segv|
        invariant 0 <= i <= |segv| && (state == 0 || state == 1)
        invariant state == 1 ==> 0 <= begin < i
        invariant bars + ScanBars(segv, limit, top, i, BarStateOf(state, begin, l, r)) == ScanBars(segv, limit, top, 0, Outside)
      {
        ScanBarsUnfold(segv, limit, top, i, BarStateOf(state, begin, l, r));
        var closed;
        closed, state, begin, l, r := RowStep(segv, limit, top, i, state, begin, l, r);
        AppendAssoc(bars, closed, ScanBars(segv, limit, top, i + 1, BarStateOf(state, begin, l, r)));
        bars := bars + closed;
        i := i + 1;
      }
    }

    /** One row of the bar scan, with the fall-through from the outside state into the candidate state. */
    static method RowStep(segv: seq<Csegment>, limit: int, top: int, i: nat, state0: int, begin0: int, l0: int, r0: int)
      returns (closed: seq<Rect>, state: int, begin: int, l: int, r: int)
      requires i < |segv| && (state0 == 0 || state0 == 1)
      requires state0 == 1 ==> 0 <= begin0 < i
      ensures (closed, BarStateOf(state, begin, l, r)) == Step(segv, limit, top, i, BarStateOf(state0, begin0, l0, r0))
      ensures (state == 0 || state == 1) && (state == 1 ==> 0 <= begin <= i)
    {
      state, begin, l, r := state0, begin0, l0, r0;
      closed := [];
      var seg := segv[i];
      var fallThrough := false;
      if state == 0 {
        if seg.Size() > limit {
          state, begin, l, r := 1, i, seg.left, seg.right;
          fallThrough := i >= |segv| - 1;
        }
      } else {
        fallThrough := true;
      }
      if fallThrough {
        var ext := seg.Size() > limit && (i <= begin || seg.Overlaps(segv[i - 1]));
        if ext {
          if seg.left < l { l := seg.left; }
          if seg.right > r { r := seg.right; }
        }
        if !ext || i >= |segv| - 1 {
          state := 0;
          var end := if seg.Size() <= limit then i - 1 else i;
          closed := CloseCandidate(segv, begin, end, l, r, top);
        }
      }
    }

    /** The smallest width of the bars. */
    static method SmallestWidth(bars: seq<Rect>) returns (wmin: int)
      requires |bars| > 0
      ensures wmin == MinWidth(bars)
    {
      wmin := bars[0].Width();
      var i := 1;
      while i < |bars|
        invariant 1 <= i <= |bars| && wmin == MinWidth(bars[..i])
      {
        assert bars[..i + 1][..i] == bars[..i];
        if bars[i].Width() < wmin { wmin := bars[i].Width(); }
        i := i + 1;
      }
      assert bars[..|bars|] == bars;
    }

    /** Erases, from the last to the first, every bar of width `wmin`. */
    static method EraseWidth(bars0: seq<Rect>, wmin: int) returns (bars: seq<Rect>)
      requires |bars0| > 0 && wmin == MinWidth(bars0)
      ensures bars == DropNarrowest(bars0)
    {
      bars := bars0;
      ghost var keep := WiderThanMin(bars0);
      var k := |bars| - 1;
      while k >= 0
        invariant -1 <= k < |bars0|
        invariant bars == DeletedFrom(bars0, keep, k + 1)
      {
        DeletedFromStep(bars0, keep, k + 1);
        if bars[k].Width() == wmin { bars := Remove(bars, k); }
        k := k - 1;
      }
      DeletedFromAll(bars0, keep);
    }

    /** Removes every bar of the smallest width, round after round, until at most three remain. */
    static method PruneBars(bars0: seq<Rect>) returns (bars: seq<Rect>)
      ensures bars == Prune(bars0)
    {
      bars := bars0;
      while |bars| > 3
        invariant Prune(bars) == Prune(bars0)
        decreases |bars|
      {
        var wmin := SmallestWidth(bars);
        bars := EraseWidth(bars, wmin);
      }
    }

    /**
     * The number of horizontal bars of the blob, detecting them (and
     * scanning the rows) the first time.
     */
    method HBars() returns (n: int)
      requires Valid()
      modifies this
      ensures Valid() && hbarInitialized && hbar == HBarsOf(b, wpmax) && n == |hbar|
      ensures rowScan == old(rowScan) || rowScan == RowScans(b)
      ensures colScan == old(colScan) && vbar == old(vbar) && vbarInitialized == old(vbarInitialized)
    {
      if !hbarInitialized {
        if rowScan == [] { RowScanInit(); }
        var segv := RowSegmentsOf();
        var limit := Div(wpmax + 1, 2);
        var bars := ScanRows(segv, limit, b.rect.top);
        bars := PruneBars(bars);
        hbar := bars;
        hbarInitialized := true;
      }
      n := |hbar|;
    }

    /** The longest bridged vertical run of column `col`, or 0 when too few of its pixels are black. */
    method ColumnRun(col: int, limit: int) returns (count: int)
      requires b.WellFormed() && b.InCols(col)
      ensures count == ColumnCount(b, col, limit)
    {
      var c, c2 := 0, 0;
      count := 0;
      var row := b.rect.top + 1;
      while row < b.rect.bottom
        invariant b.rect.top < row
        invariant RunCount(b, col, row, c, c2, count) == RunCount(b, col, b.rect.top + 1, 0, 0, 0)
        decreases b.rect.bottom - row
      {
        if b.GetBit(row, col) {
          c := c + 1;
          if row < b.rect.bottom - 1 { row := row + 1; continue; }
        } else if (col > b.rect.left && b.GetBit(row, col - 1)) || (col < b.rect.right && b.GetBit(row, col + 1)) {
          c := c + 1;
          c2 := c2 + 1;
          if row < b.rect.bottom - 1 { row := row + 1; continue; }
        }
        if c > count { count := c; }
        c := 0;
        row := row + 1;
      }
      if (count - c2) * 3 < limit * 2 { count := 0; }
    }

    /** The vertical bars of the blob, found by a scan over its columns. */
    method DetectVBars() returns (bars: seq<Rect>)
      requires b.WellFormed()
      ensures bars == VBarsOf(b)
    {
      var state, begin := 0, 0;
      var limit := b.rect.Height();
      limit := limit - (if b.rect.Height() < 40 then 3 else b.rect.Height() / 10);
      assert limit == VLimit(b.rect.Height());
      ghost var counts := ColumnCounts(b, limit);
      var last, top, bottom := b.rect.right, b.rect.top, b.rect.bottom;
      bars := [];
      var col := b.rect.left;
      while col <= last
        invariant b.rect.left <= col <= last + 1
        invariant bars + ScanVBars(counts, limit, col, last, top, bottom, state, begin) == VBarsOf(b)
      {
        var count := ColumnRun(col, limit);
        assert count == counts(col);
        var closed, state', begin' := ColumnStep(count, limit, col, last, top, bottom, state, begin);
        ScanVBarsStep(counts, limit, col, last, top, bottom, state, begin, bars, closed, state', begin');
        bars, state, begin := bars + closed, state', begin';
        col := col + 1;
      }
    }

    /** One column of the four-state vertical bar scan. */
    static method ColumnStep(count: int, limit: int, col: int, last: int, top: int, bottom: int, state0: int, begin0: int)
      returns (closed: seq<Rect>, state: int, begin: int)
      ensures (closed, state, begin) == VStep(count, limit, col, last, top, bottom, state0, begin0)
    {
      closed, state, begin := [], state0, begin0;
      if state == 0 {
        if count >= limit { state := 3; begin := col; }
        else if count * 4 >= limit * 3 { state := 2; begin := col; }
        else if count * 3 >= limit * 2 { state := 1; begin := col; }
      } else if state == 1 {
        if count >= limit { state := 3; }
        else if count * 4 >= limit * 3 { state := 2; }
        else if count * 3 < limit * 2 { state := 0; }
        else { begin := col; }
      } else if state == 2 {
        if count >= limit { state := 3; }
        else if count * 3 < limit * 2 { state := 0; }
        else if count * 4 < limit * 3 { state := 1; }
      } else if state == 3 {
        if count * 3 < limit * 2 || col == last {
          var end := if count * 3 < limit * 2 then col - 1 else col;
          closed := [Rect(begin, top, end, bottom)];
          state := 0;
        }
      }
    }

    /** The number of vertical bars of the blob, detecting them the first time. */
    method VBars() returns (n: int)
      requires Valid()
      modifies this
      ensures Valid() && vbarInitialized && vbar == VBarsOf(b) && n == |vbar|
      ensures rowScan == old(rowScan) && colScan == old(colScan)
      ensures hbar == old(hbar) && hbarInitialized == old(hbarInitialized)
    {
      if !vbarInitialized {
        var bars := DetectVBars();
        vbar := bars;
        vbarInitialized := true;
      }
      n := |vbar|;
    }

    /** Horizontal bar `i`: a bar inside the blob, below every earlier one. */
    function HBar(i: int): (r: Rect)
      reads this
      requires Valid() && 0 <= i < |hbar|
      ensures HBarShape(r, b.rect.top, b.rect.Height(), b.rect.left, b.rect.right)
      ensures forall j :: 0 <= j < i ==> Above(hbar[j], r)
    {
      HBarsShape(b, wpmax);
      hbar[i]
    }

    /** Vertical bar `i`: a bar spanning the blob's rows inside its columns, right of every earlier one. */
    function VBar(i: int): (r: Rect)
      reads this
      requires Valid() && 0 <= i < |vbar|
      ensures r.top == b.rect.top && r.bottom == b.rect.bottom
      ensures b.rect.left <= r.left <= r.right <= b.rect.right
      ensures forall j :: 0 <= j < i ==> LeftOf(vbar[j], r)
    {
      VBarsShape(b);
      vbar[i]
    }
  }
}
