// A line of text: its characters in reading order, the first `bigInitials`
// of them being big initial letters, with the operations that insert spaces,
// delete and join characters, compute mean sizes and apply the line filters.
// The line owns its characters and holds them by value.

module Textlines {
  import opened Common
  import opened Geometry
  import opened Sequences
  import opened Characters
  import opened Histograms
  import UserFilters

  /** The track of a line: its top and bottom row at each column, and its height. */
  datatype Track = Track(top: int -> int, bottom: int -> int, height: int)
  {
    ghost predicate WellFormed() { forall x :: top(x) <= bottom(x) }
  }

  /** The state of a line: its characters and the length of the big-initials prefix. */
  datatype Line = Line(cs: seq<CharView>, bigInitials: int)
  {
    ghost predicate Valid()
    {
      0 <= bigInitials <= |cs| && forall k :: 0 <= k < |cs| ==> cs[k].rect.Valid()
    }
  }

  /** The empty columns between two characters (negative when they overlap). */
  function Gap(c1: CharView, c2: CharView): int
  {
    c2.rect.left - c1.rect.right - 1
  }

  // ---------------------------------------------------------------------
  // find_big_gap

  /**
   * Where `find_big_gap` stops, as a function of the line: the first
   * position from `first` on that is followed by a gap wider than `limit`,
   * or the last position of the line.
   */
  function BigGapEnd(cs: seq<CharView>, first: nat, limit: int): (i: nat)
    ensures first <= i && (first < |cs| ==> i < |cs|) && (first >= |cs| ==> i == first)
    ensures forall k :: first <= k < i ==> Gap(cs[k], cs[k + 1]) <= limit
    ensures i + 1 < |cs| ==> Gap(cs[i], cs[i + 1]) > limit
    decreases |cs| - first
  {
    if first + 1 >= |cs| || Gap(cs[first], cs[first + 1]) > limit then first
    else BigGapEnd(cs, first + 1, limit)
  }

  /**
   * The position at or after `first` that precedes the first gap wider than
   * `limit`, or the last position of the line.
   */
  method FindBigGap(cs: seq<CharView>, first: int, limit: int) returns (i: int)
    requires 0 <= first
    ensures i == BigGapEnd(cs, first, limit)
  {
    i := first;
    while i + 1 < |cs|
      invariant first <= i
      invariant BigGapEnd(cs, i, limit) == BigGapEnd(cs, first, limit)
      decreases |cs| - i
    {
      if Gap(cs[i], cs[i + 1]) > limit {
        break;
      }
      i := i + 1;
    }
  }

  // ---------------------------------------------------------------------
  // Means

  datatype Measure = Height | Width | HCenter | VCenter

  function MeasureOf(c: CharView, m: Measure): int
  {
    match m
    case Height => c.rect.Height()
    case Width => c.rect.Width()
    case HCenter => c.rect.HCenter()
    case VCenter => c.rect.VCenter()
  }

  /** The number of characters that are not spaces. */
  function TextCount(cs: seq<CharView>): (n: nat)
    ensures n <= |cs|
  {
    if cs == [] then 0
    else TextCount(cs[..|cs| - 1]) + (if cs[|cs| - 1].IsSpace() then 0 else 1)
  }

  /** The sum of a measure over the characters that are not spaces. */
  function TextSum(cs: seq<CharView>, m: Measure): int
  {
    if cs == [] then 0
    else TextSum(cs[..|cs| - 1], m) + (if cs[|cs| - 1].IsSpace() then 0 else MeasureOf(cs[|cs| - 1], m))
  }

  /** The sum of a measure over all the characters. */
  function Total(cs: seq<CharView>, m: Measure): int
  {
    if cs == [] then 0 else Total(cs[..|cs| - 1], m) + MeasureOf(cs[|cs| - 1], m)
  }

  lemma TextSnoc(cs: seq<CharView>, c: CharView, m: Measure)
    ensures TextCount(cs + [c]) == TextCount(cs) + (if c.IsSpace() then 0 else 1)
    ensures TextSum(cs + [c], m) == TextSum(cs, m) + (if c.IsSpace() then 0 else MeasureOf(c, m))
  {
    assert (cs + [c])[..|cs|] == cs;
  }

  lemma TotalSnoc(cs: seq<CharView>, c: CharView, m: Measure)
    ensures Total(cs + [c], m) == Total(cs, m) + MeasureOf(c, m)
  {
    assert (cs + [c])[..|cs|] == cs;
  }

  /** `mean_height`: the mean height of the non-space characters after the initials, truncated. */
  function MeanHeightOf(cs: seq<CharView>, bi: nat): int
    requires bi <= |cs|
  {
    var c := TextCount(cs[bi..]);
    if c > 0 then Div(TextSum(cs[bi..], Height), c) else 0
  }

  /** `mean_width`: the exact mean width of the non-space characters after the initials. */
  function MeanWidthOf(cs: seq<CharView>, bi: nat): real
    requires bi <= |cs|
  {
    var c := TextCount(cs[bi..]);
    if c > 0 then TextSum(cs[bi..], Width) as real / c as real else 0.0
  }

  /** `mean_hcenter` and `mean_vcenter`: the truncated mean over every character after the initials. */
  function MeanCenterOf(cs: seq<CharView>, bi: nat, m: Measure): int
    requires bi <= |cs|
  {
    if |cs| > bi then Div(Total(cs[bi..], m), |cs| - bi) else 0
  }

  /** The gaps between positions `first..last`, overlaps counting as 0. */
  function GapSum(cs: seq<CharView>, first: nat, last: int): int
    requires last <= first || last < |cs|
    decreases last - first
  {
    if last <= first then 0 else GapSum(cs, first, last - 1) + Max(0, Gap(cs[last - 1], cs[last]))
  }

  /** `mean_gap_width`: the mean gap between positions `first..last`, 0 for an empty range. */
  function MeanGapOf(cs: seq<CharView>, first: nat, last: int): real
    requires last <= first || last < |cs|
  {
    if last > first then GapSum(cs, first, last) as real / (last - first) as real else 0.0
  }

  /** A line whose characters are all spaces has no text. */
  lemma {:induction false} TextCountZero(cs: seq<CharView>)
    ensures TextCount(cs) == 0 <==> forall k :: 0 <= k < |cs| ==> cs[k].IsSpace()
    decreases |cs|
  {
    if cs != [] {
      var p := cs[..|cs| - 1];
      TextCountZero(p);
      assert forall k :: 0 <= k < |p| ==> p[k] == cs[k];
    }
  }

  /** With only spaces after the initials, the mean height and width are 0. */
  lemma MeansOfSpaces(cs: seq<CharView>, bi: nat)
    requires bi <= |cs| && forall k :: bi <= k < |cs| ==> cs[k].IsSpace()
    ensures MeanHeightOf(cs, bi) == 0 && MeanWidthOf(cs, bi) == 0.0
  {
    var s := cs[bi..];
    assert forall k :: 0 <= k < |s| ==> s[k] == cs[bi + k];
    TextCountZero(s);
  }

  /** A measure bounded on every non-space character bounds its sum. */
  lemma {:induction false} TextSumBounds(cs: seq<CharView>, m: Measure, lo: int, hi: int)
    requires forall k :: 0 <= k < |cs| && !cs[k].IsSpace() ==> lo <= MeasureOf(cs[k], m) <= hi
    ensures lo * TextCount(cs) <= TextSum(cs, m) <= hi * TextCount(cs)
    decreases |cs|
  {
    if cs != [] {
      var p, c := cs[..|cs| - 1], cs[|cs| - 1];
      assert forall k :: 0 <= k < |p| ==> p[k] == cs[k];
      TextSumBounds(p, m, lo, hi);
      var n, sum := TextCount(p), TextSum(p, m);
      if !c.IsSpace() {
        assert TextCount(cs) == n + 1 && TextSum(cs, m) == sum + MeasureOf(c, m);
        MulSucc(lo, n);
        MulSucc(hi, n);
      }
    }
  }

  lemma MulSucc(a: int, n: int)
    ensures a * (n + 1) == a * n + a
  {
  }

  /** The mean height lies between the least and the greatest height of the text. */
  lemma MeanHeightWithin(cs: seq<CharView>, bi: nat, lo: int, hi: int)
    requires bi <= |cs| && 0 <= lo && TextCount(cs[bi..]) > 0
    requires forall k :: bi <= k < |cs| && !cs[k].IsSpace() ==> lo <= cs[k].rect.Height() <= hi
    ensures lo <= MeanHeightOf(cs, bi) <= hi
  {
    var s := cs[bi..];
    assert forall k :: 0 <= k < |s| ==> s[k] == cs[bi + k];
    TextSumBounds(s, Height, lo, hi);
    var n, sum := TextCount(s), TextSum(s, Height);
    DivBetween(sum, n, lo, hi);
  }

  lemma DivBetween(sum: int, n: int, lo: int, hi: int)
    requires n > 0 && 0 <= lo && lo * n <= sum <= hi * n
    ensures lo <= Div(sum, n) <= hi
  {
    MulSign(lo, n);
    var q, r := sum / n, sum % n;
    assert sum == q * n + r && 0 <= r < n;
    assert (q + 1 - lo) * n == q * n + n - lo * n;
    MulSign(q + 1 - lo, n);
    assert (hi - q) * n == hi * n - q * n;
    MulSign(hi - q, n);
  }

  lemma MulSign(a: int, n: int)
    requires n > 0
    ensures (a >= 0 <==> a * n >= 0) && (a > 0 <==> a * n > 0)
  {
  }

  /** Gaps are counted as 0 when characters overlap, so the mean gap is never negative. */
  lemma {:induction false} GapSumNonNegative(cs: seq<CharView>, first: nat, last: int)
    requires last <= first || last < |cs|
    ensures GapSum(cs, first, last) >= 0
    decreases last - first
  {
    if last > first {
      GapSumNonNegative(cs, first, last - 1);
    }
  }

  lemma MeanGapNonNegative(cs: seq<CharView>, first: nat, last: int)
    requires last <= first || last < |cs|
    ensures MeanGapOf(cs, first, last) >= 0.0
    ensures last <= first ==> MeanGapOf(cs, first, last) == 0.0
  {
    GapSumNonNegative(cs, first, last);
  }

  // ---------------------------------------------------------------------
  // verify_big_initials

  /**
   * The big initials left once the last ones no taller than twice the mean
   * height of the characters after them are given back to the line.
   */
  function VerifiedInitials(cs: seq<CharView>, bi: nat): (r: nat)
    requires bi <= |cs|
    ensures r <= bi
    ensures r == 0 || cs[r - 1].rect.Height() > 2 * MeanHeightOf(cs, r)
    ensures forall k :: r < k <= bi ==> cs[k - 1].rect.Height() <= 2 * MeanHeightOf(cs, k)
    decreases bi
  {
    if bi > 0 && cs[bi - 1].rect.Height() <= 2 * MeanHeightOf(cs, bi) then VerifiedInitials(cs, bi - 1)
    else bi
  }

  // ---------------------------------------------------------------------
  // Insertion in reading order

  /** Where a new character goes: before the trailing characters it precedes. */
  function CharSlot(cs: seq<CharView>, p: CharView): (k: nat)
    ensures k <= |cs|
    decreases |cs|
  {
    if cs == [] || !p.rect.HPrecedes(cs[|cs| - 1].rect) then |cs|
    else CharSlot(cs[..|cs| - 1], p)
  }

  /**
   * The slot comes after every character the new one does not precede and
   * before the trailing run of characters it precedes.
   */
  lemma {:induction false} CharSlotSplits(cs: seq<CharView>, p: CharView)
    ensures forall j :: CharSlot(cs, p) <= j < |cs| ==> p.rect.HPrecedes(cs[j].rect)
    ensures CharSlot(cs, p) > 0 ==> !p.rect.HPrecedes(cs[CharSlot(cs, p) - 1].rect)
    decreases |cs|
  {
    if cs != [] && p.rect.HPrecedes(cs[|cs| - 1].rect) {
      var pre := cs[..|cs| - 1];
      CharSlotSplits(pre, p);
      assert forall j :: 0 <= j < |pre| ==> pre[j] == cs[j];
    }
  }

  /** Those two properties single the slot out. */
  lemma CharSlotUnique(cs: seq<CharView>, p: CharView, k: nat)
    requires k <= |cs| && forall j :: k <= j < |cs| ==> p.rect.HPrecedes(cs[j].rect)
    requires k > 0 ==> !p.rect.HPrecedes(cs[k - 1].rect)
    ensures k == CharSlot(cs, p)
  {
    CharSlotSplits(cs, p);
  }

  /** The line after `shift_characterp(p, big)`. */
  function Shifted(l: Line, p: CharView, big: bool): Line
  {
    var i := CharSlot(l.cs, p);
    Line(Insert(l.cs, i, p),
         if i < l.bigInitials then l.bigInitials + 1 else if big then i + 1 else l.bigInitials)
  }

  /** No character precedes an earlier one. */
  ghost predicate InReadingOrder(cs: seq<CharView>)
  {
    forall i, j :: 0 <= i < j < |cs| ==> !cs[j].rect.HPrecedes(cs[i].rect)
  }

  /** Inserting at the slot keeps a line in reading order, and a valid line valid. */
  lemma ShiftKeepsOrder(l: Line, p: CharView, big: bool)
    requires InReadingOrder(l.cs)
    ensures InReadingOrder(Shifted(l, p, big).cs)
  {
    var k := CharSlot(l.cs, p);
    CharSlotSplits(l.cs, p);
    var cs := l.cs;
    var r := Shifted(l, p, big).cs;
    forall i, j | 0 <= i < j < |r|
      ensures !r[j].rect.HPrecedes(r[i].rect)
    {
      if j < k {
        assert r[i] == cs[i] && r[j] == cs[j];
      } else if i > k {
        assert r[i] == cs[i - 1] && r[j] == cs[j - 1];
      } else if i == k {
        assert r[j] == cs[j - 1] && p.rect.HPrecedes(cs[j - 1].rect);
      } else {
        assert r[i] == cs[i];
        if j == k {
          assert !p.rect.HPrecedes(cs[k - 1].rect);
          if i < k - 1 {
            assert !cs[k - 1].rect.HPrecedes(cs[i].rect);
          }
        } else {
          assert r[j] == cs[j - 1];
        }
      }
    }
  }

  lemma ShiftKeepsValid(l: Line, p: CharView, big: bool)
    requires l.Valid() && p.rect.Valid()
    ensures Shifted(l, p, big).Valid() && |Shifted(l, p, big).cs| == |l.cs| + 1
  {
  }

  /** The line after moving the characters `ds[i..]` of another line into it, one by one. */
  function JoinFrom(l: Line, ds: seq<CharView>, dbi: int, i: nat): Line
    requires i <= |ds|
    decreases |ds| - i
  {
    if i == |ds| then l else JoinFrom(Shifted(l, ds[i], i < dbi), ds, dbi, i + 1)
  }

  /** Joining two lines loses and adds no character. */
  lemma {:induction false} JoinKeepsCharacters(l: Line, ds: seq<CharView>, dbi: int, i: nat)
    requires i <= |ds|
    ensures multiset(JoinFrom(l, ds, dbi, i).cs) == multiset(l.cs) + multiset(ds[i..])
    decreases |ds| - i
  {
    if i < |ds| {
      var l2 := Shifted(l, ds[i], i < dbi);
      assert l2.cs == Insert(l.cs, CharSlot(l.cs, ds[i]), ds[i]);
      assert JoinFrom(l, ds, dbi, i) == JoinFrom(l2, ds, dbi, i + 1);
      InsertMultiset(l.cs, CharSlot(l.cs, ds[i]), ds[i]);
      JoinKeepsCharacters(l2, ds, dbi, i + 1);
      assert ds[i..] == [ds[i]] + ds[i + 1..];
      assert multiset(ds[i..]) == multiset{ds[i]} + multiset(ds[i + 1..]);
    } else {
      assert ds[i..] == [];
    }
  }

  /** Joining keeps the line valid and in reading order. */
  lemma {:induction false} JoinKeepsOrder(l: Line, ds: seq<CharView>, dbi: int, i: nat)
    requires i <= |ds| && l.Valid() && InReadingOrder(l.cs)
    requires forall k :: 0 <= k < |ds| ==> ds[k].rect.Valid()
    ensures JoinFrom(l, ds, dbi, i).Valid() && InReadingOrder(JoinFrom(l, ds, dbi, i).cs)
    ensures |JoinFrom(l, ds, dbi, i).cs| == |l.cs| + |ds| - i
    decreases |ds| - i
  {
    if i < |ds| {
      ShiftKeepsOrder(l, ds[i], i < dbi);
      ShiftKeepsValid(l, ds[i], i < dbi);
      JoinKeepsOrder(Shifted(l, ds[i], i < dbi), ds, dbi, i + 1);
    }
  }

  // ---------------------------------------------------------------------
  // Spaces

  /** The space character `insert_space` puts between `c1` and `c2`. */
  function SpaceBetween(c1: CharView, c2: CharView, track: Track, tab: bool): (s: CharView)
    ensures s.IsSpace() && s.blobs == []
    ensures s.rect.left == c1.rect.right + 1 && s.rect.right == c2.rect.left - 1
    ensures tab <==> HasCode(s.gv, '\t' as int)
  {
    var l := c1.rect.right + 1;
    var r := c2.rect.left - 1;
    var x := Div(l + r, 2);
    var gv := [Guess(SPACE, if tab then 1 else 0)] + (if tab then [Guess('\t' as int, 0)] else []);
    assert gv[0].code == SPACE;
    assert tab ==> gv[1].code == '\t' as int;
    CharView(Rect(l, track.top(x), r, track.bottom(x)), [], gv)
  }

  /** Where there is room, the inserted space is a valid rectangle touching both neighbours. */
  lemma SpaceBetweenFills(c1: CharView, c2: CharView, track: Track, tab: bool)
    requires track.WellFormed() && c1.rect.right + 1 <= c2.rect.left - 1
    ensures var s := SpaceBetween(c1, c2, track, tab);
      s.rect.Valid() && Gap(c1, s) == 0 && Gap(s, c2) == 0
  {
    var s := SpaceBetween(c1, c2, track, tab);
    var x := Div(s.rect.left + s.rect.right, 2);
    assert track.top(x) <= track.bottom(x);
  }

  /** `cs` is `base` with space characters inserted; `fromBase` marks the old ones. */
  ghost predicate SpacesAdded(base: seq<CharView>, cs: seq<CharView>, fromBase: seq<bool>)
  {
    |fromBase| == |cs| && Select(cs, fromBase) == base &&
    forall k :: 0 <= k < |cs| && !fromBase[k] ==> cs[k].IsSpace()
  }

  lemma SpacesAddedNone(cs: seq<CharView>)
    ensures SpacesAdded(cs, cs, seq(|cs|, _ => true))
  {
    SelectAll(cs, seq(|cs|, _ => true));
  }

  lemma SpacesAddedInsert(base: seq<CharView>, cs: seq<CharView>, fromBase: seq<bool>, i: nat, x: CharView)
    requires SpacesAdded(base, cs, fromBase) && i <= |cs| && x.IsSpace()
    ensures SpacesAdded(base, Insert(cs, i, x), Insert(fromBase, i, false))
  {
    InsertSplits(cs, i, x);
    InsertSplits(fromBase, i, false);
    SelectAppend(cs[..i], [x] + cs[i..], fromBase[..i], [false] + fromBase[i..]);
    assert ([x] + cs[i..])[1..] == cs[i..] && ([false] + fromBase[i..])[1..] == fromBase[i..];
    SelectAppend(cs[..i], cs[i..], fromBase[..i], fromBase[i..]);
    var r, m := Insert(cs, i, x), Insert(fromBase, i, false);
    forall k | 0 <= k < |r| && !m[k]
      ensures r[k].IsSpace()
    {
      if k != i {
        assert r[k] == (if k < i then cs[k] else cs[k - 1]) && m[k] == (if k < i then fromBase[k] else fromBase[k - 1]);
      }
    }
  }

  /** A space put between positions `i - 1` and `i` keeps `cs` as `base` with spaces added. */
  lemma SpaceBetweenAdded(base: seq<CharView>, cs: seq<CharView>, fromBase: seq<bool>, i: nat, track: Track, tab: bool)
    requires SpacesAdded(base, cs, fromBase) && 0 < i < |cs|
    ensures SpacesAdded(base, Insert(cs, i, SpaceBetween(cs[i - 1], cs[i], track, tab)), Insert(fromBase, i, false))
  {
    var x := SpaceBetween(cs[i - 1], cs[i], track, tab);
    assert x.gv[0].code == SPACE;
    SpacesAddedInsert(base, cs, fromBase, i, x);
  }

  /** Whether `insert_space` finds empty columns between `c1` and `c2`. */
  predicate HasRoom(c1: CharView, c2: CharView)
  {
    c1.rect.right + 1 <= c2.rect.left - 1
  }

  /**
   * The word-space test of `insert_spaces` for the gap between `c1` and
   * `c2`, against the mean width `mw`, its truncation `mwt` and the mean
   * gap `mg` of the range.
   */
  predicate WordGap(c1: CharView, c2: CharView, mw: real, mwt: int, mg: real)
  {
    var gap := Gap(c1, c2);
    gap >= mwt || gap as real > 3.0 * mg || ((5 * gap) as real > 2.0 * mw && gap as real > 2.0 * mg) ||
    ((3 * c1.rect.Width()) as real > 2.0 * mw && (3 * c2.rect.Width()) as real > 2.0 * mw &&
     (2 * gap) as real > mw && (5 * gap) as real > 8.0 * mg)
  }

  /**
   * The state of the first pass of `insert_spaces` over a range: the line,
   * the end of the range, and the count and the sum of the gaps that were
   * and were not taken for word spaces.
   */
  datatype WordScan = WordScan(cs: seq<CharView>, last: int, spaces: int, nospaces: int, spsum: int, nospsum: int)

  /**
   * One gap of the first pass, at position `i`: a gap that passes
   * `WordGap` is counted as a space and gets one if there is room, which
   * moves the end of the range; any other gap is counted as no space. Gives
   * the new state and the next position.
   */
  function WordStepOf(s: WordScan, track: Track, i: int, mw: real, mwt: int, mg: real): (r: (WordScan, int))
    requires 0 <= i < s.last < |s.cs|
    ensures i < r.1 <= r.0.last < |r.0.cs| && s.last <= r.0.last && |r.0.cs| - r.0.last == |s.cs| - s.last
    ensures r.0.last - r.1 < s.last - i
    ensures r.0.spaces >= s.spaces && r.0.nospaces >= s.nospaces
  {
    var c1, c2 := s.cs[i], s.cs[i + 1];
    var gap := Gap(c1, c2);
    if !WordGap(c1, c2, mw, mwt, mg) then
      (WordScan(s.cs, s.last, s.spaces, s.nospaces + 1, s.spsum, s.nospsum + gap), i + 1)
    else if HasRoom(c1, c2) then
      (WordScan(Insert(s.cs, i + 1, SpaceBetween(c1, c2, track, false)), s.last + 1,
                s.spaces + 1, s.nospaces, s.spsum + gap, s.nospsum), i + 2)
    else
      (WordScan(s.cs, s.last, s.spaces + 1, s.nospaces, s.spsum + gap, s.nospsum), i + 1)
  }

  /** The first pass from position `i` on: `WordStepOf` at every gap up to the end of the range. */
  function WordsFrom(s: WordScan, track: Track, i: int, mw: real, mwt: int, mg: real): (r: WordScan)
    requires 0 <= i <= s.last < |s.cs|
    ensures s.last <= r.last < |r.cs| && |r.cs| - r.last == |s.cs| - s.last
    ensures r.spaces >= s.spaces && r.nospaces >= s.nospaces
    decreases s.last - i
  {
    if i >= s.last then s
    else
      var t := WordStepOf(s, track, i, mw, mwt, mg);
      WordsFrom(t.0, track, t.1, mw, mwt, mg)
  }

  /** The threshold of the second pass: the mean of three times the mean space gap and the mean other gap, over 4. */
  function Threshold(w: WordScan): real
    requires w.spaces > 0 && w.nospaces > 0
  {
    ((3 * w.spsum) as real / w.spaces as real + w.nospsum as real / w.nospaces as real) / 4.0
  }

  /**
   * The second pass from position `i` on: a space at every gap wider than
   * `th` that has room, each one moving the end `last` of the range.
   */
  function AboveFrom(cs: seq<CharView>, last: int, track: Track, i: int, th: real): (r: (seq<CharView>, int))
    requires 0 <= i <= last < |cs|
    ensures last <= r.1 < |r.0| && |r.0| - r.1 == |cs| - last
    decreases last - i
  {
    if i >= last then (cs, last)
    else if Gap(cs[i], cs[i + 1]) as real > th && HasRoom(cs[i], cs[i + 1]) then
      AboveFrom(Insert(cs, i + 1, SpaceBetween(cs[i], cs[i + 1], track, false)), last + 1, track, i + 2, th)
    else
      AboveFrom(cs, last, track, i + 1, th)
  }

  /**
   * Both passes over the range `first..last`: the second one runs only when
   * the first saw gaps of both kinds. Gives the line and the moved end.
   */
  function SpacedWords(cs: seq<CharView>, track: Track, first: int, last: int, mw: real, mwt: int, mg: real)
    : (r: (seq<CharView>, int))
    requires 0 <= first <= last < |cs|
    ensures last <= r.1 < |r.0| && |r.0| - r.1 == |cs| - last
  {
    var w := WordsFrom(WordScan(cs, last, 0, 0, 0, 0), track, first, mw, mwt, mg);
    if w.spaces > 0 && w.nospaces > 0 then AboveFrom(w.cs, w.last, track, first, Threshold(w))
    else (w.cs, w.last)
  }

  /**
   * The first half of a round of `insert_spaces` from position `first`: the
   * range up to the next big gap gets its word spaces when its mean gap is
   * not negative. Gives the line and the moved end of the range.
   */
  function RangeSpaced(cs: seq<CharView>, track: Track, first: int, mw: real, mwt: int, limit: int): (r: (seq<CharView>, int))
    requires 0 <= first < |cs|
    ensures first <= r.1 < |r.0| && |r.0| - r.1 <= |cs| - first && |r.0| >= |cs|
  {
    var last := BigGapEnd(cs, first, limit);
    var mg := MeanGapOf(cs, first, last);
    if first < last && mg >= 0.0 then SpacedWords(cs, track, first, last, mw, mwt, mg) else (cs, last)
  }

  /**
   * The second half of a round: a tabulation in the big gap after position
   * `last` if it has room. Gives the line and the start of the next round.
   */
  function TabAfter(cs: seq<CharView>, last: int, track: Track): (r: (seq<CharView>, int))
    requires 0 <= last < |cs|
    ensures last < r.1 <= |r.0| && |r.0| - r.1 == |cs| - last - 1 && |r.0| >= |cs|
  {
    var next := last + 1;
    if next < |cs| && HasRoom(cs[last], cs[next]) then
      (Insert(cs, next, SpaceBetween(cs[last], cs[next], track, true)), next + 1)
    else
      (cs, next)
  }

  /** One round of the outer loop of `insert_spaces`, from position `first`. */
  function SegmentOf(cs: seq<CharView>, track: Track, first: int, mw: real, mwt: int, limit: int): (r: (seq<CharView>, int))
    requires 0 <= first && first + 1 < |cs|
    ensures first < r.1 <= |r.0| && |r.0| - r.1 < |cs| - first && |r.0| >= |cs|
  {
    var w := RangeSpaced(cs, track, first, mw, mwt, limit);
    TabAfter(w.0, w.1, track)
  }

  /** The outer loop of `insert_spaces` from position `first` on: `SegmentOf` until one character is left. */
  function SpacedFrom(cs: seq<CharView>, track: Track, first: int, mw: real, mwt: int, limit: int): (r: seq<CharView>)
    requires 0 <= first <= |cs|
    ensures |r| >= |cs|
    decreases |cs| - first
  {
    if first + 1 >= |cs| then cs
    else
      var t := SegmentOf(cs, track, first, mw, mwt, limit);
      SpacedFrom(t.0, track, t.1, mw, mwt, limit)
  }

  /**
   * `insert_spaces` for a line whose mean character width is `mw`: nothing
   * when it is below 2, otherwise the outer loop from the end of the
   * initials, with the mean width truncated and three times it truncated as
   * the big-gap limit.
   */
  function SpacedWithWidth(cs: seq<CharView>, bi: int, track: Track, mw: real): (r: seq<CharView>)
    requires 0 <= bi <= |cs|
    ensures |r| >= |cs|
    ensures mw < 2.0 ==> r == cs
  {
    if mw < 2.0 then cs else SpacedFrom(cs, track, bi, mw, mw.Floor, (3.0 * mw).Floor)
  }

  /** `insert_spaces` as a function of the line: `SpacedWithWidth` at the line's own mean width. */
  function SpacedLine(cs: seq<CharView>, bi: int, track: Track): (r: seq<CharView>)
    requires 0 <= bi <= |cs|
    ensures |r| >= |cs|
  {
    SpacedWithWidth(cs, bi, track, MeanWidthOf(cs, bi))
  }

  /** With a mean width of at least 2, `insert_spaces` runs its outer loop from the end of the initials. */
  lemma SpacedLineWide(cs: seq<CharView>, bi: int, track: Track, mw: real, mwt: int, limit: int)
    requires 0 <= bi <= |cs| && mw >= 2.0
    requires mwt == mw.Floor && limit == (3.0 * mw).Floor
    ensures SpacedWithWidth(cs, bi, track, mw) == SpacedFrom(cs, track, bi, mw, mwt, limit)
  {
  }

  /** `b` agrees with `a` on the first `k` positions. */
  ghost predicate SamePrefix(a: seq<CharView>, b: seq<CharView>, k: int)
  {
    0 <= k <= |a| && k <= |b| && forall j :: 0 <= j < k ==> b[j] == a[j]
  }

  /** The word-space pass inserts only after position `i`, so it keeps the first `i + 1` characters. */
  lemma {:induction false} WordsFromKeepsPrefix(s: WordScan, track: Track, i: int, mw: real, mwt: int, mg: real, k: int)
    requires 0 <= i <= s.last < |s.cs| && 0 <= k <= i + 1
    ensures SamePrefix(s.cs, WordsFrom(s, track, i, mw, mwt, mg).cs, k)
    decreases s.last - i
  {
    if i < s.last {
      var t := WordStepOf(s, track, i, mw, mwt, mg);
      WordsFromKeepsPrefix(t.0, track, t.1, mw, mwt, mg, k);
    }
  }

  /** The threshold pass keeps the first `i + 1` characters too. */
  lemma {:induction false} AboveFromKeepsPrefix(cs: seq<CharView>, last: int, track: Track, i: int, th: real, k: int)
    requires 0 <= i <= last < |cs| && 0 <= k <= i + 1
    ensures SamePrefix(cs, AboveFrom(cs, last, track, i, th).0, k)
    decreases last - i
  {
    if i < last {
      if Gap(cs[i], cs[i + 1]) as real > th && HasRoom(cs[i], cs[i + 1]) {
        var cs' := Insert(cs, i + 1, SpaceBetween(cs[i], cs[i + 1], track, false));
        AboveFromKeepsPrefix(cs', last + 1, track, i + 2, th, k);
      } else {
        AboveFromKeepsPrefix(cs, last, track, i + 1, th, k);
      }
    }
  }

  /** A round of the outer loop keeps the characters up to its first position. */
  lemma SegmentKeepsPrefix(cs: seq<CharView>, track: Track, first: int, mw: real, mwt: int, limit: int, k: int)
    requires 0 <= first && first + 1 < |cs| && 0 <= k <= first + 1
    ensures SamePrefix(cs, SegmentOf(cs, track, first, mw, mwt, limit).0, k)
  {
    var last := BigGapEnd(cs, first, limit);
    var mg := MeanGapOf(cs, first, last);
    if first < last && mg >= 0.0 {
      var w := WordsFrom(WordScan(cs, last, 0, 0, 0, 0), track, first, mw, mwt, mg);
      WordsFromKeepsPrefix(WordScan(cs, last, 0, 0, 0, 0), track, first, mw, mwt, mg, k);
      if w.spaces > 0 && w.nospaces > 0 {
        AboveFromKeepsPrefix(w.cs, w.last, track, first, Threshold(w), k);
      }
    }
  }

  /** The outer loop from `first` on keeps the first `first + 1` characters. */
  lemma {:induction false} SpacedFromKeepsPrefix(cs: seq<CharView>, track: Track, first: int, mw: real, mwt: int, limit: int, k: int)
    requires 0 <= first <= |cs| && 0 <= k <= first + 1 && k <= |cs|
    ensures SamePrefix(cs, SpacedFrom(cs, track, first, mw, mwt, limit), k)
    decreases |cs| - first
  {
    if first + 1 < |cs| {
      var t := SegmentOf(cs, track, first, mw, mwt, limit);
      SegmentKeepsPrefix(cs, track, first, mw, mwt, limit, k);
      SpacedFromKeepsPrefix(t.0, track, t.1, mw, mwt, limit, k);
    }
  }

  /**
   * `insert_spaces` puts its spaces after the first character that follows
   * the big initials: the initials and that character keep their places.
   */
  lemma SpacedLineKeepsInitials(cs: seq<CharView>, bi: int, track: Track)
    requires 0 <= bi <= |cs|
    ensures |SpacedLine(cs, bi, track)| >= |cs|
    ensures forall j :: 0 <= j <= bi && j < |cs| ==> SpacedLine(cs, bi, track)[j] == cs[j]
  {
    var mw := MeanWidthOf(cs, bi);
    if mw >= 2.0 {
      var k := if bi < |cs| then bi + 1 else bi;
      SpacedLineWide(cs, bi, track, mw, mw.Floor, (3.0 * mw).Floor);
      SpacedFromKeepsPrefix(cs, track, bi, mw, mw.Floor, (3.0 * mw).Floor, k);
    }
  }

  // ---------------------------------------------------------------------
  // Deletions

  /**
   * How many of the first `bi` positions are left while a top-down deletion
   * loop has decided the positions from `i` on.
   */
  function InitialsLeft(keep: seq<bool>, bi: int, i: nat): int
    requires 0 <= bi <= |keep| && i <= |keep|
  {
    if i >= bi then bi else i + Count(keep[i..bi])
  }

  lemma InitialsStep(keep: seq<bool>, bi: int, i: nat)
    requires 0 <= bi <= |keep| && 0 < i <= |keep|
    ensures InitialsLeft(keep, bi, i - 1) ==
      if i - 1 < bi && !keep[i - 1] then InitialsLeft(keep, bi, i) - 1 else InitialsLeft(keep, bi, i)
  {
    if i - 1 < bi {
      assert keep[i - 1..bi][1..] == keep[i..bi];
      if i == bi {
        assert keep[i..bi] == [];
      }
    }
  }

  lemma {:induction false} CountPrefix(keep: seq<bool>, n: nat)
    requires n <= |keep|
    ensures Count(keep[..n]) <= Count(keep)
    decreases n
  {
    if n > 0 {
      assert keep[..n][1..] == keep[1..][..n - 1];
      CountPrefix(keep[1..], n - 1);
    }
  }

  lemma InitialsBelowCount(keep: seq<bool>, bi: int)
    requires 0 <= bi <= |keep|
    ensures 0 <= InitialsLeft(keep, bi, 0) <= Count(keep)
  {
    if bi > 0 {
      assert keep[0..bi] == keep[..bi];
      CountPrefix(keep, bi);
    }
  }

  /** The line after erasing, top-down, every position whose flag is clear, from the rewritten `t`. */
  function Kept(l: Line, t: seq<CharView>, keep: seq<bool>): (r: Line)
    requires |t| == |keep| == |l.cs| && 0 <= l.bigInitials <= |l.cs|
    ensures 0 <= r.bigInitials <= |r.cs| == Count(keep)
  {
    SelectLength(t, keep);
    InitialsBelowCount(keep, l.bigInitials);
    Line(Select(t, keep), InitialsLeft(keep, l.bigInitials, 0))
  }

  /**
   * One step of a last-first deletion loop: deciding position `i` of the
   * original keeps the state or deletes the character at `i`, adjusting the
   * initials count as `DeleteCharacter` does.
   */
  lemma DeletionStep(cs0: seq<CharView>, keep: seq<bool>, bi0: int, i: nat)
    requires |keep| == |cs0| && 0 <= bi0 <= |cs0| && i < |cs0|
    ensures var cs, bi := DeletedFrom(cs0, keep, i + 1), InitialsLeft(keep, bi0, i + 1);
      i < |cs| && cs[i] == cs0[i] && (i > 0 ==> cs[i - 1] == cs0[i - 1]) &&
      DeletedFrom(cs0, keep, i) == (if keep[i] then cs else Remove(cs, i)) &&
      InitialsLeft(keep, bi0, i) == (if !keep[i] && i < bi then bi - 1 else bi)
  {
    DeletedFromStep(cs0, keep, i + 1);
    InitialsStep(keep, bi0, i + 1);
  }

  /** One step of the loop that deletes broken pieces, decided on the line as it stands. */
  lemma UnbrokenStep(cs0: seq<CharView>, bi0: int, i: nat)
    requires 0 <= bi0 <= |cs0| && 0 < i < |cs0|
    ensures var keep := BrokenKeep(cs0);
      var cs, bi := DeletedFrom(cs0, keep, i + 1), InitialsLeft(keep, bi0, i + 1);
      i < |cs| &&
      var broken := |cs[i].gv| == 0 && cs[i].rect.HOverlaps(cs[i - 1].rect);
      DeletedFrom(cs0, keep, i) == (if broken then Remove(cs, i) else cs) &&
      InitialsLeft(keep, bi0, i) == (if broken && i < bi then bi - 1 else bi)
  {
    DeletionStep(cs0, BrokenKeep(cs0), bi0, i);
  }

  /**
   * One step of a last-first rewriting loop: position `i` of the original
   * takes its rewritten value and is then kept or deleted.
   */
  lemma DecisionStep(cs0: seq<CharView>, t: seq<CharView>, keep: seq<bool>, bi0: int, i: nat)
    requires |keep| == |cs0| == |t| && 0 <= bi0 <= |cs0| && i < |cs0|
    ensures var cs, bi := DecidedFrom(cs0, t, keep, i + 1), InitialsLeft(keep, bi0, i + 1);
      i < |cs| && cs[i] == cs0[i] && (t[i] == cs0[i] ==> cs[i := t[i]] == cs) &&
      DecidedFrom(cs0, t, keep, i) == (if keep[i] then cs[i := t[i]] else Remove(cs, i)) &&
      InitialsLeft(keep, bi0, i) == (if !keep[i] && i < bi then bi - 1 else bi)
  {
    DecidedFromStep(cs0, t, keep, i + 1);
    InitialsStep(keep, bi0, i + 1);
  }

  /** Some position is erased. */
  predicate Modified(keep: seq<bool>)
  {
    exists k :: 0 <= k < |keep| && !keep[k]
  }

  /** Something is erased exactly when fewer flags are set than there are positions. */
  lemma ModifiedCount(keep: seq<bool>)
    ensures Modified(keep) <==> Count(keep) < |keep|
  {
    if Modified(keep) {
      var k :| 0 <= k < |keep| && !keep[k];
      CountBelowLength(keep, k);
    } else {
      CountAllSet(keep, |keep|);
      assert keep[..|keep|] == keep;
    }
  }

  /** A mask that erases nothing leaves the rewritten line and its initials. */
  lemma KeptAll(l: Line, t: seq<CharView>, keep: seq<bool>)
    requires |t| == |keep| == |l.cs| && 0 <= l.bigInitials <= |l.cs| && !Modified(keep)
    ensures Kept(l, t, keep) == Line(t, l.bigInitials)
  {
    SelectAll(t, keep);
    CountAllSet(keep, l.bigInitials);
    assert keep[0..l.bigInitials] == keep[..l.bigInitials];
  }

  /** Same height: spaces and characters of about the median height stay. */
  function HeightKeep(cs: seq<CharView>, median: int): (keep: seq<bool>)
    ensures |keep| == |cs|
  {
    seq(|cs|, k requires 0 <= k < |cs| => cs[k].IsSpace() || Similar(cs[k].rect.Height(), median, 10, 2))
  }

  /** Deleting what a filter emptied: a character with guesses loses them all. */
  function EmptiedKeep(cs: seq<CharView>, t: seq<CharView>, drop: bool): (keep: seq<bool>)
    requires |t| == |cs|
    ensures |keep| == |cs|
  {
    seq(|cs|, k requires 0 <= k < |cs| => !(drop && |cs[k].gv| > 0 && |t[k].gv| == 0))
  }

  /** Broken pieces: a character without guesses overlapping the columns of the previous one. */
  function BrokenKeep(cs: seq<CharView>): (keep: seq<bool>)
    ensures |keep| == |cs|
  {
    seq(|cs|, k requires 0 <= k < |cs| =>
      !(k > 0 && |cs[k].gv| == 0 && cs[k].rect.HOverlaps(cs[k - 1].rect)))
  }

  /** Some character at or after `i` is not a space. */
  predicate TextFrom(cs: seq<CharView>, i: int)
  {
    exists j :: i <= j < |cs| && 0 <= j && !cs[j].IsSpace()
  }

  /**
   * Spaces that stay: those with a non-space before them and some non-space
   * after them; a space at the end is erased once every later one is gone.
   */
  function SpaceKeep(cs: seq<CharView>): (keep: seq<bool>)
    ensures |keep| == |cs|
  {
    seq(|cs|, k requires 0 <= k < |cs| =>
      !cs[k].IsSpace() || (k > 0 && !cs[k - 1].IsSpace() && TextFrom(cs, k + 1)))
  }

  /** `join_broken_unrecognized_characters`. */
  function Unbroken(l: Line): (r: Line)
    requires 0 <= l.bigInitials <= |l.cs|
    ensures 0 <= r.bigInitials <= |r.cs| <= |l.cs|
    ensures forall c :: c in r.cs ==> c in l.cs
  {
    SelectMembers(l.cs, BrokenKeep(l.cs));
    Kept(l, l.cs, BrokenKeep(l.cs))
  }

  /** `remove_leadind_trailing_duplicate_spaces`. */
  function Despaced(l: Line): (r: Line)
    requires 0 <= l.bigInitials <= |l.cs|
    ensures 0 <= r.bigInitials <= |r.cs| <= |l.cs|
  {
    Kept(l, l.cs, SpaceKeep(l.cs))
  }

  lemma KeptIs(l: Line, t: seq<CharView>, keep: seq<bool>)
    requires |t| == |keep| == |l.cs| && 0 <= l.bigInitials <= |l.cs|
    ensures Kept(l, t, keep) == Line(Select(t, keep), InitialsLeft(keep, l.bigInitials, 0))
  {
  }

  lemma UnbrokenIs(l: Line)
    requires 0 <= l.bigInitials <= |l.cs|
    ensures Unbroken(l) == Line(Select(l.cs, BrokenKeep(l.cs)), InitialsLeft(BrokenKeep(l.cs), l.bigInitials, 0))
  {
  }

  lemma DespacedIs(l: Line)
    requires 0 <= l.bigInitials <= |l.cs|
    ensures Despaced(l) == Line(Select(l.cs, SpaceKeep(l.cs)), InitialsLeft(SpaceKeep(l.cs), l.bigInitials, 0))
  {
  }

  // ---------------------------------------------------------------------
  // Filters

  /** One more sample, as `Histogram::add_sample` counts it (a negative height wraps to a huge unsigned). */
  function HistStep(h: (seq<int>, int), sample: int): (seq<int>, int)
  {
    if 0 <= sample < INT_MAX && h.1 < INT_MAX then (Bumped(h.0, sample), h.1 + 1) else h
  }

  /** The histogram of the heights of the non-space characters. */
  function HeightHist(cs: seq<CharView>): (seq<int>, int)
  {
    if cs == [] then ([], 0)
    else
      var h := HeightHist(cs[..|cs| - 1]);
      if cs[|cs| - 1].IsSpace() then h else HistStep(h, cs[|cs| - 1].rect.Height())
  }

  function LineMedian(cs: seq<CharView>): int
  {
    MedianOf(HeightHist(cs).0, HeightHist(cs).1)
  }

  /** Every character with the class filter applied to its guesses. */
  function ClassFiltered(cs: seq<CharView>, f: FilterType, ucs: UcsTables): (t: seq<CharView>)
    ensures |t| == |cs|
  {
    seq(|cs|, k requires 0 <= k < |cs| =>
      cs[k].(gv := FilteredGuesses(cs[k].gv, f, ucs, cs[k].rect.Height(), cs[k].rect.Width())))
  }

  /** Every character with the user filter applied to its guesses. */
  function UserFilteredChars(cs: seq<CharView>, uf: UserFilters.UserFilter, ucs: UcsTables): (t: seq<CharView>)
    reads uf, uf.table1
    requires uf.table1.Length == 256
    ensures |t| == |cs|
  {
    seq(|cs|, k requires 0 <= k < |cs| reads uf, uf.table1 => cs[k].(gv := UserFiltered(cs[k].gv, uf, ucs)))
  }

  /** The line after `apply_filter(f)`. */
  function FilteredLine(l: Line, f: FilterType, ucs: UcsTables): (r: Line)
    requires 0 <= l.bigInitials <= |l.cs|
    ensures 0 <= r.bigInitials <= |r.cs| <= |l.cs|
  {
    if f == SameHeight then
      var keep := HeightKeep(l.cs, LineMedian(l.cs));
      var l1 := Kept(l, l.cs, keep);
      if Modified(keep) then Despaced(l1) else l1
    else
      var t := ClassFiltered(l.cs, f, ucs);
      var keep := EmptiedKeep(l.cs, t, f != UpperNumMark);
      var l1 := Kept(l, t, keep);
      var l2 := if f == UpperNumMark then Unbroken(l1) else l1;
      if Modified(keep) then Despaced(l2) else l2
  }

  /** The line after `apply_user_filter(uf)`. */
  function UserFilteredLine(l: Line, uf: UserFilters.UserFilter, ucs: UcsTables): (r: Line)
    reads uf, uf.table1
    requires 0 <= l.bigInitials <= |l.cs| && uf.table1.Length == 256
    ensures 0 <= r.bigInitials <= |r.cs| <= |l.cs|
  {
    var t := UserFilteredChars(l.cs, uf, ucs);
    var keep := EmptiedKeep(l.cs, t, uf.Discards());
    var l1 := Kept(l, t, keep);
    var l2 := if uf.Marks() then Unbroken(l1) else l1;
    if Modified(keep) then Despaced(l2) else l2
  }

  // ---------------------------------------------------------------------
  // Properties of the line filters

  /** No two spaces side by side. */
  ghost predicate NoDoubleSpaces(cs: seq<CharView>)
  {
    forall k :: 0 < k < |cs| && cs[k].IsSpace() ==> !cs[k - 1].IsSpace()
  }

  /** Neither the first nor the last character is a space. */
  ghost predicate Trimmed(cs: seq<CharView>)
  {
    cs != [] ==> !cs[0].IsSpace() && !cs[|cs| - 1].IsSpace()
  }

  /**
   * What the space sweep keeps from position `i` on: no double spaces, no
   * space at its end, a space at its head only after a non-space, and
   * nothing at all exactly when only spaces follow.
   */
  lemma {:induction false} SpaceSuffix(cs: seq<CharView>, i: nat)
    requires i <= |cs|
    ensures var S := Select(cs[i..], SpaceKeep(cs)[i..]);
      NoDoubleSpaces(S) && (S != [] ==> !S[|S| - 1].IsSpace()) &&
      (S != [] && S[0].IsSpace() ==> i > 0 && !cs[i - 1].IsSpace()) &&
      (S == [] <==> !TextFrom(cs, i))
    decreases |cs| - i
  {
    var keep := SpaceKeep(cs);
    if i == |cs| {
      assert cs[i..] == [] && keep[i..] == [];
    } else {
      SpaceSuffix(cs, i + 1);
      SelectStep(cs, keep, i);
      TextFromStep(cs, i);
      var S := Select(cs[i + 1..], keep[i + 1..]);
      var c := cs[i];
      assert keep[i] == (!c.IsSpace() || (i > 0 && !cs[i - 1].IsSpace() && TextFrom(cs, i + 1)));
      assert S != [] && S[0].IsSpace() ==> !c.IsSpace();
      if keep[i] {
        assert Select(cs[i..], keep[i..]) == [c] + S;
        ConsClean(c, S);
      } else {
        assert Select(cs[i..], keep[i..]) == S;
      }
    }
  }

  /** One step of the loop that deletes surplus spaces, decided on the line as it stands. */
  lemma DespaceStep(cs0: seq<CharView>, bi0: int, i: nat)
    requires 0 <= bi0 <= |cs0| && i < |cs0|
    ensures var keep := SpaceKeep(cs0);
      var cs, bi := DeletedFrom(cs0, keep, i + 1), InitialsLeft(keep, bi0, i + 1);
      i < |cs| &&
      var surplus := cs[i].IsSpace() && (i == 0 || i == |cs| - 1 || cs[i - 1].IsSpace());
      DeletedFrom(cs0, keep, i) == (if surplus then Remove(cs, i) else cs) &&
      InitialsLeft(keep, bi0, i) == (if surplus && i < bi then bi - 1 else bi)
  {
    DeletionStep(cs0, SpaceKeep(cs0), bi0, i);
    SurplusSpace(cs0, i);
  }

  /** A space is surplus, on the line as the loop has left it, exactly when the sweep drops it. */
  lemma SurplusSpace(cs0: seq<CharView>, i: nat)
    requires i < |cs0|
    ensures var cs := DeletedFrom(cs0, SpaceKeep(cs0), i + 1);
      i < |cs| &&
      (cs[i].IsSpace() && (i == 0 || i == |cs| - 1 || cs[i - 1].IsSpace())) == !SpaceKeep(cs0)[i]
  {
    var keep := SpaceKeep(cs0);
    var cs := DeletedFrom(cs0, keep, i + 1);
    DeletedFromStep(cs0, keep, i + 1);
    assert i == |cs| - 1 <==> !TextFrom(cs0, i + 1) by {
      SpaceTail(cs0, i + 1);
      DeletedFromSelects(cs0, keep, i + 1);
    }
    assert keep[i] == (!cs0[i].IsSpace() || (i > 0 && !cs0[i - 1].IsSpace() && TextFrom(cs0, i + 1)));
  }

  /** Nothing of the line from `i` on is kept exactly when it holds no text. */
  lemma SpaceTail(cs: seq<CharView>, i: nat)
    requires i <= |cs|
    ensures Select(cs[i..], SpaceKeep(cs)[i..]) == [] <==> !TextFrom(cs, i)
  {
    SpaceSuffix(cs, i);
  }

  /** Text from `i` on is the character at `i` or text after it. */
  lemma TextFromStep(cs: seq<CharView>, i: nat)
    requires i < |cs|
    ensures TextFrom(cs, i) <==> !cs[i].IsSpace() || TextFrom(cs, i + 1)
  {
    if TextFrom(cs, i) && cs[i].IsSpace() {
      var j :| i <= j < |cs| && 0 <= j && !cs[j].IsSpace();
      assert i + 1 <= j;
    }
  }

  /** A character put before a clean run keeps it clean unless two spaces meet. */
  lemma ConsClean(c: CharView, S: seq<CharView>)
    requires NoDoubleSpaces(S) && (S != [] ==> !S[|S| - 1].IsSpace())
    requires c.IsSpace() ==> S != [] && !S[0].IsSpace()
    ensures NoDoubleSpaces([c] + S) && !([c] + S)[|S|].IsSpace()
  {
    var R := [c] + S;
    forall k | 0 < k < |R| && R[k].IsSpace()
      ensures !R[k - 1].IsSpace()
    {
      if k > 1 {
        assert R[k] == S[k - 1] && R[k - 1] == S[k - 2];
      }
    }
  }

  /** After the space sweep no space is first or last and no two spaces are adjacent. */
  lemma DespacedIsClean(l: Line)
    requires 0 <= l.bigInitials <= |l.cs|
    ensures NoDoubleSpaces(Despaced(l).cs) && Trimmed(Despaced(l).cs)
  {
    SpaceSuffix(l.cs, 0);
    assert l.cs[0..] == l.cs && SpaceKeep(l.cs)[0..] == SpaceKeep(l.cs);
  }

  /** The space sweep erases only spaces: every other character stays, and nothing new appears. */
  lemma DespacedKeepsText(l: Line)
    requires 0 <= l.bigInitials <= |l.cs|
    ensures forall k :: 0 <= k < |l.cs| && !l.cs[k].IsSpace() ==> l.cs[k] in Despaced(l).cs
    ensures forall c :: c in Despaced(l).cs ==> c in l.cs
  {
    var keep := SpaceKeep(l.cs);
    forall k | 0 <= k < |l.cs| && !l.cs[k].IsSpace()
      ensures l.cs[k] in Despaced(l).cs
    {
      SelectKeeps(l.cs, keep, k);
    }
    SelectMembers(l.cs, keep);
  }

  /** A line already free of leading, trailing and double spaces is left as it is. */
  lemma DespacedClean(l: Line)
    requires 0 <= l.bigInitials <= |l.cs| && NoDoubleSpaces(l.cs) && Trimmed(l.cs)
    ensures Despaced(l) == l
  {
    var keep := SpaceKeep(l.cs);
    forall k | 0 <= k < |l.cs|
      ensures keep[k]
    {
      if l.cs[k].IsSpace() {
        assert k != 0 && k != |l.cs| - 1;
        assert !l.cs[|l.cs| - 1].IsSpace();
      }
    }
    KeptAll(l, l.cs, keep);
  }

  /** Joining broken pieces never erases the first character nor one with guesses. */
  lemma UnbrokenKeeps(l: Line)
    requires 0 <= l.bigInitials <= |l.cs|
    ensures l.cs != [] ==> Unbroken(l).cs != [] && Unbroken(l).cs[0] == l.cs[0]
    ensures forall k :: 0 <= k < |l.cs| && |l.cs[k].gv| > 0 ==> l.cs[k] in Unbroken(l).cs
  {
    var keep := BrokenKeep(l.cs);
    forall k | 0 <= k < |l.cs| && |l.cs[k].gv| > 0
      ensures l.cs[k] in Unbroken(l).cs
    {
      SelectKeeps(l.cs, keep, k);
    }
  }

  /**
   * When every non-space character has height `h`, the histogram holds them
   * all in bucket `h` and its samples count them.
   */
  lemma {:induction false} UniformHeightHist(cs: seq<CharView>, h: nat)
    requires h < INT_MAX && |cs| < INT_MAX
    requires forall k :: 0 <= k < |cs| && !cs[k].IsSpace() ==> cs[k].rect.Height() == h
    ensures var d := HeightHist(cs).0;
      HeightHist(cs).1 == TextCount(cs) == Sum(d) &&
      (TextCount(cs) == 0 ==> d == []) &&
      (TextCount(cs) > 0 ==> |d| == h + 1 && d[h] == TextCount(cs) &&
                             forall j :: 0 <= j < |d| && j != h ==> d[j] == 0)
    decreases |cs|
  {
    if cs != [] {
      var p := cs[..|cs| - 1];
      assert forall k :: 0 <= k < |p| ==> p[k] == cs[k];
      UniformHeightHist(p, h);
    }
  }

  /** A line whose non-space characters share one height loses none to the same-height filter. */
  lemma SameHeightKeepsUniformLine(l: Line, h: nat, ucs: UcsTables)
    requires 0 <= l.bigInitials <= |l.cs| && h < INT_MAX && |l.cs| < INT_MAX
    requires forall k :: 0 <= k < |l.cs| && !l.cs[k].IsSpace() ==> l.cs[k].rect.Height() == h
    ensures FilteredLine(l, SameHeight, ucs) == l
  {
    UniformHeightHist(l.cs, h);
    var d := HeightHist(l.cs).0;
    if TextCount(l.cs) > 0 {
      MedianOfSingleBucket(d, h);
      assert LineMedian(l.cs) == h;
    }
    var keep := HeightKeep(l.cs, LineMedian(l.cs));
    forall k | 0 <= k < |l.cs|
      ensures keep[k]
    {
      if !l.cs[k].IsSpace() {
        TextCountZero(l.cs);
      }
    }
    KeptAll(l, l.cs, keep);
  }

  /** A class filter that never removes keeps every character and the initials. */
  lemma NonRemovingFilterKeepsLine(l: Line, f: FilterType, ucs: UcsTables)
    requires 0 <= l.bigInitials <= |l.cs| && f != SameHeight && !Removes(f)
    ensures FilteredLine(l, f, ucs) == Line(ClassFiltered(l.cs, f, ucs), l.bigInitials)
  {
    var t := ClassFiltered(l.cs, f, ucs);
    forall k | 0 <= k < |l.cs|
      ensures |t[k].gv| == |l.cs[k].gv|
    {
      FilterKeepsLength(l.cs[k].gv, f, ucs, l.cs[k].rect.Height(), l.cs[k].rect.Width());
    }
    KeptAll(l, t, EmptiedKeep(l.cs, t, true));
  }

  /** A user filter that neither discards nor marks keeps every character and the initials. */
  lemma LeavingUserFilterKeepsLine(l: Line, uf: UserFilters.UserFilter, ucs: UcsTables)
    requires 0 <= l.bigInitials <= |l.cs| && uf.table1.Length == 256 && !uf.Discards() && !uf.Marks()
    ensures UserFilteredLine(l, uf, ucs) == Line(UserFilteredChars(l.cs, uf, ucs), l.bigInitials)
  {
    var t := UserFilteredChars(l.cs, uf, ucs);
    KeptAll(l, t, EmptiedKeep(l.cs, t, false));
  }

  // ---------------------------------------------------------------------
  // The line

  class Textline {
    const track: Track
    var cpv: seq<CharView>
    var bigInitials: int

    ghost predicate Valid()
      reads this
    {
      State().Valid() && track.WellFormed()
    }

    function State(): Line
      reads this
    {
      Line(cpv, bigInitials)
    }

    constructor (t: Track)
      requires t.WellFormed()
      ensures Valid() && track == t && cpv == [] && bigInitials == 0
    {
      track := t;
      cpv := [];
      bigInitials := 0;
    }

    /** The count and the sum of a measure over the non-space characters after the initials. */
    method TextTotals(m: Measure) returns (c: int, sum: int)
      requires Valid()
      ensures c == TextCount(cpv[bigInitials..]) && sum == TextSum(cpv[bigInitials..], m)
    {
      c, sum := 0, 0;
      var cs := cpv[bigInitials..];
      var k := 0;
      while k < |cs|
        invariant 0 <= k <= |cs|
        invariant c == TextCount(cs[..k]) && sum == TextSum(cs[..k], m)
      {
        assert cs[..k + 1] == cs[..k] + [cs[k]];
        TextSnoc(cs[..k], cs[k], m);
        if !cs[k].IsSpace() {
          c := c + 1;
          sum := sum + MeasureOf(cs[k], m);
        }
        k := k + 1;
      }
      assert cs[..|cs|] == cs;
    }

    /** The count and the sum of a measure over every character after the initials. */
    method Totals(m: Measure) returns (c: int, sum: int)
      requires Valid()
      ensures c == |cpv| - bigInitials && sum == Total(cpv[bigInitials..], m)
    {
      c, sum := 0, 0;
      var cs := cpv[bigInitials..];
      var k := 0;
      while k < |cs|
        invariant 0 <= k <= |cs|
        invariant c == k && sum == Total(cs[..k], m)
      {
        assert cs[..k + 1] == cs[..k] + [cs[k]];
        TotalSnoc(cs[..k], cs[k], m);
        c := c + 1;
        sum := sum + MeasureOf(cs[k], m);
        k := k + 1;
      }
      assert cs[..|cs|] == cs;
    }

    method MeanHeight() returns (h: int)
      requires Valid()
      ensures h == MeanHeightOf(cpv, bigInitials)
    {
      var c, sum := TextTotals(Height);
      if c != 0 {
        sum := Div(sum, c);
      } else {
        TextCountZero(cpv[bigInitials..]);
        TextSumBounds(cpv[bigInitials..], Height, 0, 0);
      }
      h := sum;
    }

    method MeanWidth() returns (w: real)
      requires Valid()
      ensures w == MeanWidthOf(cpv, bigInitials)
    {
      var c, sum := TextTotals(Width);
      if c != 0 {
        return sum as real / c as real;
      }
      return 0.0;
    }

    method MeanHCenter() returns (x: int)
      requires Valid()
      ensures x == MeanCenterOf(cpv, bigInitials, HCenter)
    {
      var c, sum := Totals(HCenter);
      if c != 0 {
        sum := Div(sum, c);
      }
      x := sum;
    }

    method MeanVCenter() returns (y: int)
      requires Valid()
      ensures y == MeanCenterOf(cpv, bigInitials, VCenter)
    {
      var c, sum := Totals(VCenter);
      if c != 0 {
        sum := Div(sum, c);
      }
      y := sum;
    }

    /** The mean gap between positions `first..last`; a negative `last` means the last character. */
    method MeanGapWidth(first: int, last0: int) returns (mg: real)
      requires 0 <= first && last0 < |cpv|
      ensures mg == MeanGapOf(cpv, first, if last0 < 0 then |cpv| - 1 else last0)
    {
      var last := if last0 < 0 then |cpv| - 1 else last0;
      var sum := 0;
      var i := first;
      while i < last
        invariant first <= i && (i == first || i <= last)
        invariant sum == GapSum(cpv, first, i)
      {
        sum := sum + Max(0, Gap(cpv[i], cpv[i + 1]));
        i := i + 1;
      }
      if last > first {
        return sum as real / (last - first) as real;
      }
      return 0.0;
    }

    /** Gives back to the line the last initials no taller than twice the mean height. */
    method VerifyBigInitials()
      requires Valid()
      modifies this`bigInitials
      ensures Valid() && bigInitials == VerifiedInitials(cpv, old(bigInitials))
    {
      while bigInitials > 0
        invariant Valid() && VerifiedInitials(cpv, bigInitials) == VerifiedInitials(cpv, old(bigInitials))
        decreases bigInitials
      {
        var h := MeanHeight();
        if cpv[bigInitials - 1].rect.Height() > 2 * h {
          break;
        }
        bigInitials := bigInitials - 1;
      }
    }

    method DeleteCharacter(i: int)
      requires Valid() && 0 <= i < |cpv|
      modifies this`cpv, this`bigInitials
      ensures Valid()
      ensures cpv == Remove(old(cpv), i)
      ensures bigInitials == if i < old(bigInitials) then old(bigInitials) - 1 else old(bigInitials)
    {
      if i < bigInitials {
        bigInitials := bigInitials - 1;
      }
      cpv := Remove(cpv, i);
    }

    /** Inserts `p` before the trailing characters it precedes; `big` makes it the last initial. */
    method ShiftCharacterp(p: CharView, big: bool) returns (i: int)
      requires Valid() && p.rect.Valid()
      modifies this`cpv, this`bigInitials
      ensures Valid() && i == CharSlot(old(cpv), p)
      ensures State() == Shifted(old(State()), p, big)
    {
      i := FindCharSlot(cpv, p);
      cpv := Insert(cpv, i, p);
      if i < bigInitials {
        bigInitials := bigInitials + 1;
      } else if big {
        bigInitials := i + 1;
      }
    }

    /**
     * Inserts a space filling the columns between characters `i - 1` and
     * `i`, if there are any; `tab` marks it as a tabulation too.
     */
    method InsertSpace(i: int, tab: bool) returns (ok: bool)
      requires Valid() && 0 < i < |cpv| && track.height != 0
      modifies this`cpv
      ensures Valid()
      ensures ok <==> old(cpv[i - 1]).rect.right + 1 <= old(cpv[i]).rect.left - 1
      ensures ok ==> cpv == Insert(old(cpv), i, SpaceBetween(old(cpv[i - 1]), old(cpv[i]), track, tab))
      ensures !ok ==> cpv == old(cpv)
    {
      var c1, c2 := cpv[i - 1], cpv[i];
      var l := c1.rect.right + 1;
      var r := c2.rect.left - 1;
      if l > r {
        return false;
      }
      var x := Div(l + r, 2);
      var t, b := track.top(x), track.bottom(x);
      var gv := [Guess(SPACE, if tab then 1 else 0)];
      if tab {
        gv := gv + [Guess('\t' as int, 0)];
      }
      var p := CharView(Rect(l, t, r, b), [], gv);
      assert gv == SpaceBetween(c1, c2, track, tab).gv;
      cpv := Insert(cpv, i, p);
      return true;
    }

    /**
     * Inserts spaces between the words of the line, and a tabulation at each
     * big gap; the characters already there keep their order.
     */
    method InsertSpaces() returns (ghost fromOld: seq<bool>)
      requires Valid() && track.height != 0
      modifies this`cpv
      ensures Valid() && cpv == SpacedLine(old(cpv), bigInitials, track)
      ensures SpacesAdded(old(cpv), cpv, fromOld)
      ensures MeanWidthOf(old(cpv), bigInitials) < 2.0 ==> cpv == old(cpv)
    {
      fromOld := seq(|cpv|, _ => true);
      SpacesAddedNone(cpv);
      var mw := MeanWidth();
      if mw < 2.0 {
        return;
      }
      SpacedLineWide(cpv, bigInitials, track, mw, mw.Floor, (3.0 * mw).Floor);
      fromOld := SpaceRounds(bigInitials, mw, mw.Floor, (3.0 * mw).Floor, cpv, fromOld);
    }

    /** The outer loop of `insert_spaces` from position `first0` on, as `SpacedFrom` gives it. */
    method SpaceRounds(first0: int, mw: real, mwt: int, limit: int, ghost base: seq<CharView>, ghost mask0: seq<bool>)
      returns (ghost mask: seq<bool>)
      requires Valid() && track.height != 0 && 0 <= first0 <= |cpv|
      requires SpacesAdded(base, cpv, mask0)
      modifies this`cpv
      ensures Valid() && cpv == SpacedFrom(old(cpv), track, first0, mw, mwt, limit)
      ensures SpacesAdded(base, cpv, mask)
    {
      mask := mask0;
      var first := first0;
      while first + 1 < |cpv|
        invariant Valid() && 0 <= first <= |cpv|
        invariant SpacedFrom(cpv, track, first, mw, mwt, limit) == SpacedFrom(old(cpv), track, first0, mw, mwt, limit)
        invariant SpacesAdded(base, cpv, mask)
        decreases |cpv| - first
      {
        first, mask := SpaceSegment(first, mw, mwt, limit, base, mask);
      }
    }

    /** One round of the outer loop of `insert_spaces`, as `SegmentOf` gives it. */
    method SpaceSegment(first: int, mw: real, mwt: int, limit: int, ghost base: seq<CharView>, ghost mask0: seq<bool>)
      returns (next: int, ghost mask: seq<bool>)
      requires Valid() && track.height != 0 && 0 <= first && first + 1 < |cpv|
      requires SpacesAdded(base, cpv, mask0)
      modifies this`cpv
      ensures Valid() && (cpv, next) == SegmentOf(old(cpv), track, first, mw, mwt, limit)
      ensures SpacesAdded(base, cpv, mask)
    {
      var last;
      last, mask := SpaceRange(first, mw, mwt, limit, base, mask0);
      next, mask := InsertTab(last, base, mask);
    }

    /** The word spaces of the range from `first` to the next big gap, as `RangeSpaced` gives them. */
    method SpaceRange(first: int, mw: real, mwt: int, limit: int, ghost base: seq<CharView>, ghost mask0: seq<bool>)
      returns (last: int, ghost mask: seq<bool>)
      requires Valid() && track.height != 0 && 0 <= first < |cpv|
      requires SpacesAdded(base, cpv, mask0)
      modifies this`cpv
      ensures Valid() && (cpv, last) == RangeSpaced(old(cpv), track, first, mw, mwt, limit)
      ensures SpacesAdded(base, cpv, mask)
    {
      mask := mask0;
      last := FindBigGap(cpv, first, limit);
      var mg := MeanGapWidth(first, last);
      if first < last && mg >= 0.0 {
        last, mask := SpaceWords(first, last, mw, mwt, mg, base, mask);
      }
    }

    /** The tabulation after position `last`, as `TabAfter` gives it. */
    method InsertTab(last: int, ghost base: seq<CharView>, ghost mask0: seq<bool>)
      returns (next: int, ghost mask: seq<bool>)
      requires Valid() && track.height != 0 && 0 <= last < |cpv|
      requires SpacesAdded(base, cpv, mask0)
      modifies this`cpv
      ensures Valid() && (cpv, next) == TabAfter(old(cpv), last, track)
      ensures SpacesAdded(base, cpv, mask)
    {
      mask := mask0;
      next := last + 1;
      if next < |cpv| {
        ghost var before := cpv;
        var ok := InsertSpace(next, true);
        if ok {
          SpaceBetweenAdded(base, before, mask, next, track, true);
          mask := Insert(mask, next, false);
          next := next + 1;
        }
      }
    }

    /**
     * The spaces between the words of `first..last`: at every gap wide
     * against the mean width `mw` and the mean gap `mg`, then, when both wide
     * and narrow gaps were seen, at every gap above the threshold between them.
     */
    method SpaceWords(first: int, last0: int, mw: real, mwt: int, mg: real,
                      ghost base: seq<CharView>, ghost mask0: seq<bool>)
      returns (last: int, ghost mask: seq<bool>)
      requires Valid() && track.height != 0 && 0 <= first < last0 < |cpv|
      requires SpacesAdded(base, cpv, mask0)
      modifies this`cpv
      ensures Valid() && first < last < |cpv| && |cpv| - last == old(|cpv|) - last0
      ensures (cpv, last) == SpacedWords(old(cpv), track, first, last0, mw, mwt, mg)
      ensures SpacesAdded(base, cpv, mask)
    {
      last, mask := last0, mask0;
      var spaces, nospaces, spsum, nospsum := 0, 0, 0, 0;
      var i := first;
      while i < last
        invariant Valid() && first <= i <= last < |cpv| && last0 <= last && |cpv| - last == old(|cpv|) - last0
        invariant WordsFrom(WordScan(cpv, last, spaces, nospaces, spsum, nospsum), track, i, mw, mwt, mg) ==
                  WordsFrom(WordScan(old(cpv), last0, 0, 0, 0, 0), track, first, mw, mwt, mg)
        invariant SpacesAdded(base, cpv, mask)
        decreases last - i
      {
        i, last, spaces, nospaces, spsum, nospsum, mask :=
          WordStep(i, last, spaces, nospaces, spsum, nospsum, mw, mwt, mg, base, mask);
      }
      ghost var w := WordScan(cpv, last, spaces, nospaces, spsum, nospsum);
      if spaces > 0 && nospaces > 0 {
        var th := ((3 * spsum) as real / spaces as real + nospsum as real / nospaces as real) / 4.0;
        assert th == Threshold(w);
        last, mask := SpaceAbove(first, last, th, base, mask);
      }
    }

    /** One gap of the word-space pass, as `WordStepOf` gives it. */
    method WordStep(i0: int, last0: int, spaces0: int, nospaces0: int, spsum0: int, nospsum0: int,
                    mw: real, mwt: int, mg: real, ghost base: seq<CharView>, ghost mask0: seq<bool>)
      returns (i: int, last: int, spaces: int, nospaces: int, spsum: int, nospsum: int, ghost mask: seq<bool>)
      requires Valid() && track.height != 0 && 0 <= i0 < last0 < |cpv|
      requires SpacesAdded(base, cpv, mask0)
      modifies this`cpv
      ensures Valid() && i0 < i <= last < |cpv| && last0 <= last && |cpv| - last == old(|cpv|) - last0
      ensures last - i < last0 - i0
      ensures (WordScan(cpv, last, spaces, nospaces, spsum, nospsum), i) ==
              WordStepOf(WordScan(old(cpv), last0, spaces0, nospaces0, spsum0, nospsum0), track, i0, mw, mwt, mg)
      ensures SpacesAdded(base, cpv, mask)
    {
      i, last, mask := i0 + 1, last0, mask0;
      spaces, nospaces, spsum, nospsum := spaces0, nospaces0, spsum0, nospsum0;
      var c1, c2 := cpv[i0], cpv[i0 + 1];
      var gap := Gap(c1, c2);
      if WordGap(c1, c2, mw, mwt, mg) {
        spaces := spaces + 1;
        spsum := spsum + gap;
        ghost var before := cpv;
        var ok := InsertSpace(i0 + 1, false);
        if ok {
          SpaceBetweenAdded(base, before, mask, i0 + 1, track, false);
          mask := Insert(mask, i0 + 1, false);
          i, last := i0 + 2, last0 + 1;
        }
      } else {
        nospaces := nospaces + 1;
        nospsum := nospsum + gap;
      }
    }

    /** A space at every gap of `first..last` wider than the threshold `th`. */
    method SpaceAbove(first: int, last0: int, th: real, ghost base: seq<CharView>, ghost mask0: seq<bool>)
      returns (last: int, ghost mask: seq<bool>)
      requires Valid() && track.height != 0 && 0 <= first < last0 < |cpv|
      requires SpacesAdded(base, cpv, mask0)
      modifies this`cpv
      ensures Valid() && first < last < |cpv| && |cpv| - last == old(|cpv|) - last0
      ensures (cpv, last) == AboveFrom(old(cpv), last0, track, first, th)
      ensures SpacesAdded(base, cpv, mask)
    {
      last, mask := last0, mask0;
      var i := first;
      while i < last
        invariant Valid() && first <= i <= last < |cpv| && last0 <= last && |cpv| - last == old(|cpv|) - last0
        invariant AboveFrom(cpv, last, track, i, th) == AboveFrom(old(cpv), last0, track, first, th)
        invariant SpacesAdded(base, cpv, mask)
        decreases last - i
      {
        i, last, mask := AboveStep(i, last, th, base, mask);
      }
    }

    /** One gap of the threshold pass: `AboveFrom` advanced by one step. */
    method AboveStep(i0: int, last0: int, th: real, ghost base: seq<CharView>, ghost mask0: seq<bool>)
      returns (i: int, last: int, ghost mask: seq<bool>)
      requires Valid() && track.height != 0 && 0 <= i0 < last0 < |cpv|
      requires SpacesAdded(base, cpv, mask0)
      modifies this`cpv
      ensures Valid() && i0 < i <= last < |cpv| && last0 <= last && |cpv| - last == old(|cpv|) - last0
      ensures last - i < last0 - i0
      ensures AboveFrom(cpv, last, track, i, th) == AboveFrom(old(cpv), last0, track, i0, th)
      ensures SpacesAdded(base, cpv, mask)
    {
      i, last, mask := i0 + 1, last0, mask0;
      if Gap(cpv[i0], cpv[i0 + 1]) as real > th {
        ghost var before := cpv;
        var ok := InsertSpace(i0 + 1, false);
        if ok {
          SpaceBetweenAdded(base, before, mask, i0 + 1, track, false);
          mask := Insert(mask, i0 + 1, false);
          i, last := i0 + 2, last0 + 1;
        }
      }
    }

    /** Moves every character of `tl` into this line in reading order; `tl` is left empty. */
    method Join(tl: Textline)
      requires Valid() && tl.Valid() && tl != this
      modifies this`cpv, this`bigInitials, tl`cpv, tl`bigInitials
      ensures Valid() && tl.Valid()
      ensures State() == JoinFrom(old(State()), old(tl.cpv), old(tl.bigInitials), 0)
      ensures tl.cpv == [] && tl.bigInitials == 0
    {
      var i := 0;
      while i < |tl.cpv|
        invariant 0 <= i <= |tl.cpv| && tl.cpv == old(tl.cpv) && tl.bigInitials == old(tl.bigInitials)
        invariant Valid()
        invariant JoinFrom(State(), tl.cpv, tl.bigInitials, i) == JoinFrom(old(State()), old(tl.cpv), old(tl.bigInitials), 0)
      {
        var slot := ShiftCharacterp(tl.cpv[i], i < tl.bigInitials);
        i := i + 1;
      }
      tl.bigInitials := 0;
      tl.cpv := [];
    }

    /** The median height of the non-space characters, counted in a histogram. */
    method MedianHeight() returns (m: int)
      requires Valid()
      ensures m == LineMedian(cpv)
    {
      var hist := new Histogram();
      var i := 0;
      while i < |cpv|
        invariant 0 <= i <= |cpv| && fresh(hist) && hist.Valid()
        invariant (hist.distrib, hist.samples) == HeightHist(cpv[..i])
      {
        assert cpv[..i + 1][..i] == cpv[..i];
        if !cpv[i].IsSpace() {
          hist.AddSample(cpv[i].rect.Height());
        }
        i := i + 1;
      }
      assert cpv[..|cpv|] == cpv;
      m := hist.Median();
    }

    /** Deletes, last first, every non-space character whose height is not about `median`. */
    method DeleteDissimilar(median: int) returns (modified: bool)
      requires Valid()
      modifies this`cpv, this`bigInitials
      ensures Valid() && State() == Kept(old(State()), old(cpv), HeightKeep(old(cpv), median))
      ensures modified <==> Modified(HeightKeep(old(cpv), median))
    {
      ghost var cs0, bi0 := cpv, bigInitials;
      ghost var keep := HeightKeep(cs0, median);
      modified := false;
      var i := |cpv| - 1;
      while i >= 0
        invariant -1 <= i < |cs0| && Valid()
        invariant cpv == DeletedFrom(cs0, keep, i + 1)
        invariant bigInitials == InitialsLeft(keep, bi0, i + 1)
        invariant |cpv| <= |cs0| && (modified <==> |cpv| < |cs0|)
      {
        DeletionStep(cs0, keep, bi0, i);
        if !cpv[i].IsSpace() && !Similar(cpv[i].rect.Height(), median, 10, 2) {
          DeleteCharacter(i);
          modified := true;
        }
        i := i - 1;
      }
      DeletedFromAll(cs0, keep);
      SelectLength(cs0, keep);
      ModifiedCount(keep);
      KeptIs(Line(cs0, bi0), cs0, keep);
    }

    /**
     * Gives, last first, every character with guesses its filtered guesses
     * `t[i]`, and deletes it when they are empty and `drop` is set.
     */
    method FilterCharacters(t: seq<CharView>, drop: bool) returns (modified: bool)
      requires Valid() && |t| == |cpv|
      requires forall k :: 0 <= k < |t| ==> t[k].rect == cpv[k].rect && (|cpv[k].gv| == 0 ==> t[k] == cpv[k])
      modifies this`cpv, this`bigInitials
      ensures Valid() && State() == Kept(old(State()), t, EmptiedKeep(old(cpv), t, drop))
      ensures modified <==> Modified(EmptiedKeep(old(cpv), t, drop))
    {
      ghost var cs0, bi0 := cpv, bigInitials;
      ghost var keep := EmptiedKeep(cs0, t, drop);
      modified := false;
      var i := |cpv| - 1;
      while i >= 0
        invariant -1 <= i < |cs0| && Valid()
        invariant cpv == DecidedFrom(cs0, t, keep, i + 1)
        invariant bigInitials == InitialsLeft(keep, bi0, i + 1)
        invariant |cpv| <= |cs0| && (modified <==> |cpv| < |cs0|)
      {
        DecisionStep(cs0, t, keep, bi0, i);
        if |cpv[i].gv| != 0 {
          // the character takes its filtered guesses, and goes when none is left
          var c := t[i];
          if |c.gv| == 0 && drop {
            DeleteCharacter(i);
            modified := true;
          } else {
            ReplaceCharacter(i, c);
          }
        }
        i := i - 1;
      }
      DecidedFromAll(cs0, t, keep);
      SelectLength(t, keep);
      ModifiedCount(keep);
      KeptIs(Line(cs0, bi0), t, keep);
    }

    /** Replaces character `i` by one with the same box. */
    method ReplaceCharacter(i: int, c: CharView)
      requires Valid() && 0 <= i < |cpv| && c.rect == cpv[i].rect
      modifies this`cpv
      ensures Valid() && cpv == old(cpv)[i := c]
    {
      cpv := cpv[i := c];
    }

    /** Deletes, last first, every character without guesses that overlaps the columns of the previous one. */
    method JoinBrokenUnrecognizedCharacters()
      requires Valid()
      modifies this`cpv, this`bigInitials
      ensures Valid() && State() == Unbroken(old(State()))
    {
      ghost var cs0, bi0 := cpv, bigInitials;
      ghost var keep := BrokenKeep(cs0);
      var i := |cpv| - 1;
      while i > 0
        invariant -1 <= i < |cs0| && Valid()
        invariant cpv == DeletedFrom(cs0, keep, i + 1)
        invariant bigInitials == InitialsLeft(keep, bi0, i + 1)
      {
        UnbrokenStep(cs0, bi0, i);
        if |cpv[i].gv| == 0 && cpv[i].rect.HOverlaps(cpv[i - 1].rect) {
          DeleteCharacter(i);
        }
        i := i - 1;
      }
      if i == 0 {
        DeletionStep(cs0, keep, bi0, 0);
      }
      DeletedFromAll(cs0, keep);
      UnbrokenIs(Line(cs0, bi0));
    }

    /** Deletes, last first, every space that is first, last or after another space. */
    method RemoveLeadingTrailingDuplicateSpaces()
      requires Valid()
      modifies this`cpv, this`bigInitials
      ensures Valid() && State() == Despaced(old(State()))
    {
      ghost var cs0, bi0 := cpv, bigInitials;
      ghost var keep := SpaceKeep(cs0);
      var i := |cpv| - 1;
      while i >= 0
        invariant -1 <= i < |cs0| && Valid()
        invariant cpv == DeletedFrom(cs0, keep, i + 1)
        invariant bigInitials == InitialsLeft(keep, bi0, i + 1)
      {
        DespaceStep(cs0, bi0, i);
        if cpv[i].IsSpace() && (i == 0 || i == |cpv| - 1 || cpv[i - 1].IsSpace()) {
          DeleteCharacter(i);
        }
        i := i - 1;
      }
      DeletedFromAll(cs0, keep);
      DespacedIs(Line(cs0, bi0));
    }

    /**
     * Applies a filter: same height deletes the characters of unusual
     * height; the class filters rewrite the guesses of every character
     * (`Character.ApplyFilter`) and delete those left without any. Spaces
     * are tidied up when something was deleted.
     */
    method ApplyFilter(f: FilterType, ucs: UcsTables)
      requires Valid()
      modifies this`cpv, this`bigInitials
      ensures Valid() && State() == FilteredLine(old(State()), f, ucs)
    {
      var modified := false;
      if f == SameHeight {
        var median := MedianHeight();
        modified := DeleteDissimilar(median);
      } else {
        var t := ClassFiltered(cpv, f, ucs);
        modified := FilterCharacters(t, f != UpperNumMark);
        if f == UpperNumMark {
          JoinBrokenUnrecognizedCharacters();
        }
      }
      if modified {
        RemoveLeadingTrailingDuplicateSpaces();
      }
    }

    /**
     * Applies the user filter to every character (`Character.ApplyUserFilter`),
     * deleting those left without guesses under `discard`, and joining broken
     * pieces under `mark`.
     */
    method ApplyUserFilter(uf: UserFilters.UserFilter, ucs: UcsTables)
      requires Valid() && uf.Valid()
      modifies this`cpv, this`bigInitials
      ensures Valid() && State() == UserFilteredLine(old(State()), uf, ucs)
    {
      var t := UserFilteredChars(cpv, uf, ucs);
      var modified := FilterCharacters(t, uf.Discards());
      if uf.Marks() {
        JoinBrokenUnrecognizedCharacters();
      }
      if modified {
        RemoveLeadingTrailingDuplicateSpaces();
      }
    }
  }

  /** Scans back from the last character for the place of `p`. */
  method FindCharSlot(cs: seq<CharView>, p: CharView) returns (i: nat)
    ensures i == CharSlot(cs, p)
  {
    i := |cs|;
    while i > 0 && p.rect.HPrecedes(cs[i - 1].rect)
      invariant 0 <= i <= |cs|
      invariant forall j :: i <= j < |cs| ==> p.rect.HPrecedes(cs[j].rect)
    {
      i := i - 1;
    }
    CharSlotUnique(cs, p, i);
  }
}
