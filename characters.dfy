// A recognised character: its bounding rectangle, the blobs it is made of
// (kept in reading order) and its list of guesses, best first, together with
// the class filters and the user filter that rewrite the guesses.

module Characters {
  import opened Common
  import opened Geometry
  import opened Sequences
  import UserFilters

  /** A candidate code and its confidence. */
  datatype Guess = Guess(code: int, value: int)

  const SPACE: int := ' ' as int

  /** True if some guess has this code (`maybe`). */
  predicate HasCode(g: seq<Guess>, code: int)
  {
    exists k :: 0 <= k < |g| && g[k].code == code
  }

  /** A character held by value: its rectangle, its blobs and its guesses. */
  datatype CharView = CharView(rect: Rect, blobs: seq<Blob>, gv: seq<Guess>)
  {
    /** A space character: one of its guesses is `' '`. */
    predicate IsSpace() { HasCode(gv, SPACE) }
  }

  // ---------------------------------------------------------------------
  // Blob order

  /** Blob keys ordered by vertical centre, then horizontal centre. */
  predicate KeyLe(a: Rect, b: Rect)
  {
    a.VCenter() < b.VCenter() || (a.VCenter() == b.VCenter() && a.HCenter() <= b.HCenter())
  }

  predicate SortedBlobs(bs: seq<Blob>)
  {
    forall i, j :: 0 <= i < j < |bs| ==> KeyLe(bs[i].rect, bs[j].rect)
  }

  /** Where a new blob goes: just after the last blob whose key is not above its own. */
  function BlobSlot(bs: seq<Blob>, p: Blob): (k: nat)
    ensures k <= |bs|
    ensures forall j :: k <= j < |bs| ==> !KeyLe(bs[j].rect, p.rect)
    ensures k > 0 ==> KeyLe(bs[k - 1].rect, p.rect)
    decreases |bs|
  {
    if bs == [] then 0
    else if KeyLe(bs[|bs| - 1].rect, p.rect) then |bs|
    else BlobSlot(bs[..|bs| - 1], p)
  }

  /** The only place with no key above `p` before it and only keys above it after it is the slot. */
  lemma BlobSlotUnique(bs: seq<Blob>, p: Blob, k: nat)
    requires k <= |bs| && forall j :: k <= j < |bs| ==> !KeyLe(bs[j].rect, p.rect)
    requires k > 0 ==> KeyLe(bs[k - 1].rect, p.rect)
    ensures k == BlobSlot(bs, p)
  {
  }

  function ShiftInsert(bs: seq<Blob>, p: Blob): seq<Blob>
  {
    Insert(bs, BlobSlot(bs, p), p)
  }

  /** The blobs of a character after the blobs `cs` of another one are moved into it, one by one. */
  function JoinedBlobs(bs: seq<Blob>, cs: seq<Blob>): seq<Blob>
    decreases |cs|
  {
    if cs == [] then bs else JoinedBlobs(ShiftInsert(bs, cs[0]), cs[1..])
  }

  /** The rectangle grown to hold every blob of `cs`. */
  function UnionAll(r: Rect, cs: seq<Blob>): Rect
    decreases |cs|
  {
    if cs == [] then r else UnionAll(r.Union(cs[0].rect), cs[1..])
  }

  /** Total black area of the blobs. */
  function AreaOf(bs: seq<Blob>): nat
  {
    if bs == [] then 0 else AreaOf(bs[..|bs| - 1]) + bs[|bs| - 1].Area()
  }

  // ---------------------------------------------------------------------
  // Guess lists

  /** The guesses with the codes at `i` and `j` exchanged; confidences stay in place. */
  function SwapCodes(g: seq<Guess>, i: nat, j: nat): (r: seq<Guess>)
    requires i < |g| && j < |g|
    ensures |r| == |g|
    ensures forall k :: 0 <= k < |g| ==> r[k].value == g[k].value
    ensures r[i].code == g[j].code && r[j].code == g[i].code
    ensures forall k :: 0 <= k < |g| && k != i && k != j ==> r[k] == g[k]
  {
    g[i := g[i].(code := g[j].code)][j := g[j].(code := g[i].code)]
  }

  /** The class a filter asks for. */
  predicate InClass(f: FilterType, code: int, ucs: UcsTables)
  {
    match f
    case Letters | LettersOnly => ucs.isalpha(code)
    case Numbers | NumbersOnly => ucs.isdigit(code)
    case UpperNum | UpperNumOnly | UpperNumMark => ucs.isupper(code) || ucs.isdigit(code)
    case _ => false
  }

  /** The filters that act on single characters. */
  predicate IsClassFilter(f: FilterType)
  {
    f != SameHeight && f != TextBlock && f != User
  }

  /** The filters that drop a character they cannot bring into the class. */
  predicate Removes(f: FilterType)
  {
    f == LettersOnly || f == NumbersOnly || f == UpperNumOnly || f == UpperNumMark
  }

  /** The nearest code of the class a filter asks for. */
  function Nearest(f: FilterType, code: int, ucs: UcsTables): int
  {
    match f
    case Letters | LettersOnly => ucs.toNearestLetter(code)
    case Numbers | NumbersOnly => ucs.toNearestDigit(code)
    case _ => ucs.toNearestUpperNum(code)
  }

  /** The first guess from `k` on whose code is in the class, or `|g|`. */
  function FirstInClass(g: seq<Guess>, f: FilterType, ucs: UcsTables, k: nat): (i: nat)
    requires k <= |g|
    ensures k <= i <= |g|
    ensures i < |g| ==> InClass(f, g[i].code, ucs)
    ensures forall j :: k <= j < i ==> !InClass(f, g[j].code, ucs)
    decreases |g| - k
  {
    if k == |g| || InClass(f, g[k].code, ucs) then k else FirstInClass(g, f, ucs, k + 1)
  }

  /**
   * The guesses after a class filter, for a character of the given height
   * and width: a top guess outside the class (and not a space) is swapped
   * with the first guess in the class, else replaced by the nearest code in
   * the class; a tall `+` becomes `t` instead; the removing filters clear the
   * list when the top guess still is not in the class.
   */
  function FilteredGuesses(g: seq<Guess>, f: FilterType, ucs: UcsTables, height: int, width: int): (r: seq<Guess>)
    ensures r == [] ==> g == [] || Removes(f)
    ensures r != [] ==> |r| == |g| && forall k :: 0 <= k < |g| ==> r[k].value == g[k].value
  {
    if |g| == 0 || !IsClassFilter(f) then g
    else if InClass(f, g[0].code, ucs) || ucs.isspace(g[0].code) then g
    else
      var i := FirstInClass(g, f, ucs, 1);
      var g1 := if i < |g| then SwapCodes(g, 0, i) else g;
      if (f == Letters || f == LettersOnly) && g1[0].code == '+' as int && 2 * height > 3 * width then
        g1[0 := g1[0].(code := 't' as int)]
      else
        var g2 := if InClass(f, g1[0].code, ucs) then g1
                  else g1[0 := g1[0].(code := Nearest(f, g1[0].code, ucs))];
        if Removes(f) && !InClass(f, g2[0].code, ucs) then [] else g2
  }

  /** The first guess from `k` on that the user filter maps, or `|g|`. */
  function FirstMapped(g: seq<Guess>, uf: UserFilters.UserFilter, k: nat): (i: nat)
    reads uf, uf.table1
    requires uf.table1.Length == 256 && k <= |g|
    ensures k <= i <= |g|
    ensures i < |g| ==> uf.NewCode(g[i].code) >= 0
    ensures forall j :: k <= j < i ==> uf.NewCode(g[j].code) < 0
    decreases |g| - k
  {
    if k == |g| || uf.NewCode(g[k].code) >= 0 then k else FirstMapped(g, uf, k + 1)
  }

  /** The first mapped guess from `k` on is the one with only unmapped guesses before it. */
  lemma FirstMappedUnique(g: seq<Guess>, uf: UserFilters.UserFilter, k: nat, i: nat)
    requires uf.table1.Length == 256 && k <= i <= |g|
    requires forall j :: k <= j < i ==> uf.NewCode(g[j].code) < 0
    requires i < |g| ==> uf.NewCode(g[i].code) >= 0
    ensures i == FirstMapped(g, uf, k)
  {
  }

  /**
   * The guesses after the user filter: the top guess is remapped; if it is
   * not mapped, the first mapped guess is promoted and remapped; if none is,
   * the list is cleared. A space on top is left alone.
   */
  function UserFiltered(g: seq<Guess>, uf: UserFilters.UserFilter, ucs: UcsTables): (r: seq<Guess>)
    reads uf, uf.table1
    requires uf.table1.Length == 256
    ensures r != [] ==> |r| == |g| && forall k :: 0 <= k < |g| ==> r[k].value == g[k].value
    ensures r != [] && !ucs.isspace(g[0].code) ==>
      exists k :: 0 <= k < |g| && uf.NewCode(g[k].code) >= 0 && r[0].code == uf.NewCode(g[k].code)
  {
    if |g| == 0 || ucs.isspace(g[0].code) then g
    else if uf.NewCode(g[0].code) >= 0 then g[0 := g[0].(code := uf.NewCode(g[0].code))]
    else
      var k := FirstMapped(g, uf, 1);
      if k < |g| then
        var s := SwapCodes(g, 0, k);
        s[0 := s[0].(code := uf.NewCode(g[k].code))]
      else []
  }

  // ---------------------------------------------------------------------
  // The character

  class Character {
    var rect: Rect
    var blobs: seq<Blob>
    var gv: seq<Guess>

    /** A character with no blobs and a single guess (how `insert_space` makes one). */
    constructor (r: Rect, code: int, value: int)
      ensures rect == r && blobs == [] && gv == [Guess(code, value)]
    {
      rect := r;
      blobs := [];
      gv := [Guess(code, value)];
    }

    function View(): CharView
      reads this
    {
      CharView(rect, blobs, gv)
    }

    /** The filled area of the blobs. */
    method Area() returns (a: int)
      ensures a == AreaOf(blobs)
    {
      a := 0;
      var i := 0;
      while i < |blobs|
        invariant 0 <= i <= |blobs|
        invariant a == AreaOf(blobs[..i])
      {
        assert blobs[..i + 1][..i] == blobs[..i];
        a := a + blobs[i].Area();
        i := i + 1;
      }
      assert blobs[..i] == blobs;
    }

    /** The index of the first blob of largest size. */
    method MainBlob() returns (imax: nat)
      requires |blobs| > 0
      ensures imax < |blobs|
      ensures forall j :: 0 <= j < |blobs| ==> blobs[j].Size() <= blobs[imax].Size()
      ensures forall j :: 0 <= j < imax ==> blobs[j].Size() < blobs[imax].Size()
    {
      imax := 0;
      var i := 1;
      while i < |blobs|
        invariant 1 <= i <= |blobs| && imax < i
        invariant forall j :: 0 <= j < i ==> blobs[j].Size() <= blobs[imax].Size()
        invariant forall j :: 0 <= j < imax ==> blobs[j].Size() < blobs[imax].Size()
      {
        if blobs[i].Size() > blobs[imax].Size() {
          imax := i;
        }
        i := i + 1;
      }
    }

    /** Adds a blob after the last blob whose key is not above its own, growing the rectangle. */
    method ShiftBlobp(p: Blob)
      modifies this`blobs, this`rect
      ensures rect == old(rect).Union(p.rect)
      ensures blobs == ShiftInsert(old(blobs), p)
    {
      rect := rect.Union(p.rect);
      var k := FindBlobSlot(p);
      blobs := Insert(blobs, k, p);
    }

    /** Scans back from the last blob for the place of `p`. */
    method FindBlobSlot(p: Blob) returns (k: nat)
      ensures k == BlobSlot(blobs, p)
    {
      var i := |blobs| - 1;
      while i >= 0
        invariant -1 <= i < |blobs|
        invariant forall j :: i < j < |blobs| ==> !KeyLe(blobs[j].rect, p.rect)
      {
        var bi := blobs[i];
        if p.rect.VCenter() > bi.rect.VCenter() {
          break;
        }
        if p.rect.VCenter() == bi.rect.VCenter() && p.rect.HCenter() >= bi.rect.HCenter() {
          break;
        }
        i := i - 1;
      }
      k := i + 1;
      BlobSlotUnique(blobs, p, k);
    }

    method InsertGuess(i: nat, code: int, value: int)
      requires i <= |gv|
      modifies this`gv
      ensures gv == Insert(old(gv), i, Guess(code, value))
    {
      gv := Insert(gv, i, Guess(code, value));
    }

    method DeleteGuess(i: nat)
      requires i < |gv|
      modifies this`gv
      ensures gv == Remove(old(gv), i)
    {
      gv := Remove(gv, i);
    }

    /**
     * Records that the blob `blobIndex` holds two characters split at
     * column `right1`: fails, changing nothing, unless that blob exists and
     * `right1` falls inside it (not on its last column).
     */
    method SetMergedGuess(code1: int, right1: int, code2: int, blobIndex: int) returns (ok: bool)
      modifies this`gv
      ensures ok <==> 0 <= blobIndex < |blobs| &&
                      blobs[blobIndex].rect.left <= right1 < blobs[blobIndex].rect.right
      ensures ok ==> gv == [Guess(-(blobIndex + 1), rect.left), Guess(code1, right1), Guess(code2, rect.right)]
      ensures !ok ==> gv == old(gv)
    {
      if blobIndex < 0 || blobIndex >= |blobs| {
        return false;
      }
      var b := blobs[blobIndex];
      if b.rect.left <= right1 && right1 < b.rect.right {
        gv := [Guess(-(blobIndex + 1), rect.left)];
        gv := gv + [Guess(code1, right1)];
        gv := gv + [Guess(code2, rect.right)];
        return true;
      }
      return false;
    }

    method SwapGuesses(i: nat, j: nat)
      requires i < |gv| && j < |gv|
      modifies this`gv
      ensures gv == SwapCodes(old(gv), i, j)
    {
      var code := gv[i].code;
      gv := gv[i := gv[i].(code := gv[j].code)];
      gv := gv[j := gv[j].(code := code)];
    }

    /** True if some guess has this code. */
    method Maybe(code: int) returns (found: bool)
      ensures found <==> HasCode(gv, code)
    {
      var i := 0;
      while i < |gv|
        invariant 0 <= i <= |gv|
        invariant forall k :: 0 <= k < i ==> gv[k].code != code
      {
        if code == gv[i].code {
          return true;
        }
        i := i + 1;
      }
      return false;
    }

    /** Moves every blob of `c` into this character; `c` is left without blobs. */
    method Join(c: Character)
      requires c != this
      modifies this`blobs, this`rect, c`blobs
      ensures blobs == JoinedBlobs(old(blobs), old(c.blobs))
      ensures rect == UnionAll(old(rect), old(c.blobs))
      ensures c.blobs == []
    {
      var i := 0;
      while i < |c.blobs|
        invariant 0 <= i <= |c.blobs| && c.blobs == old(c.blobs)
        invariant JoinedBlobs(blobs, c.blobs[i..]) == JoinedBlobs(old(blobs), old(c.blobs))
        invariant UnionAll(rect, c.blobs[i..]) == UnionAll(old(rect), old(c.blobs))
      {
        assert c.blobs[i..][1..] == c.blobs[i + 1..];
        ShiftBlobp(c.blobs[i]);
        i := i + 1;
      }
      c.blobs := [];
    }

    /** The byte the top guess maps to, or `_` when there is none or it maps to 0. */
    function ByteResult(ucs: UcsTables): (ch: int)
      reads this
      ensures 0 < ch < 256
      ensures ch == '_' as int || (|gv| > 0 && ch == ucs.mapToByte(gv[0].code) % 256)
      ensures |gv| > 0 && ucs.mapToByte(gv[0].code) % 256 != 0 ==> ch == ucs.mapToByte(gv[0].code) % 256
    {
      if |gv| > 0 && ucs.mapToByte(gv[0].code) % 256 != 0 then ucs.mapToByte(gv[0].code) % 256
      else '_' as int
    }

    /** Applies a class filter to the guesses. */
    method ApplyFilter(f: FilterType, ucs: UcsTables)
      modifies this`gv
      ensures gv == FilteredGuesses(old(gv), f, ucs, rect.Height(), rect.Width())
    {
      if |gv| == 0 {
        return;
      }
      var code := gv[0].code;
      if f == SameHeight || f == TextBlock || f == User {
        return;
      }
      var remove := Removes(f);
      if !InClass(f, code, ucs) && !ucs.isspace(code) {
        var i := FindInClass(f, ucs);
        if i < |gv| {
          SwapGuesses(0, i);
        }
        if (f == Letters || f == LettersOnly) && gv[0].code == '+' as int && 2 * rect.Height() > 3 * rect.Width() {
          gv := gv[0 := gv[0].(code := 't' as int)];
          return;
        }
        if !InClass(f, gv[0].code, ucs) {
          gv := gv[0 := gv[0].(code := Nearest(f, gv[0].code, ucs))];
        }
        if remove && !InClass(f, gv[0].code, ucs) {
          gv := [];
        }
      }
    }

    /** The first guess after the top one whose code is in the class, or `|gv|`. */
    method FindInClass(f: FilterType, ucs: UcsTables) returns (i: nat)
      requires |gv| > 0
      ensures i == FirstInClass(gv, f, ucs, 1)
    {
      i := 1;
      while i < |gv| && !InClass(f, gv[i].code, ucs)
        invariant 1 <= i <= |gv|
        invariant FirstInClass(gv, f, ucs, 1) == FirstInClass(gv, f, ucs, i)
        decreases |gv| - i
      {
        i := i + 1;
      }
    }

    /** Applies the user filter to the guesses. */
    method ApplyUserFilter(uf: UserFilters.UserFilter, ucs: UcsTables)
      requires uf.Valid()
      modifies this`gv
      ensures gv == UserFiltered(old(gv), uf, ucs)
    {
      var r := UserFilteredGuesses(uf, ucs);
      gv := r;
    }

    /** The guesses the user filter leaves, computed without changing them. */
    method UserFilteredGuesses(uf: UserFilters.UserFilter, ucs: UcsTables) returns (r: seq<Guess>)
      requires uf.Valid()
      ensures r == UserFiltered(gv, uf, ucs)
    {
      r := gv;
      if |r| == 0 || ucs.isspace(r[0].code) {
        return;
      }
      var newCode := uf.GetNewCode(r[0].code);
      if newCode >= 0 {
        r := r[0 := r[0].(code := newCode)];
      } else {
        var i;
        i, newCode := FindMapped(uf);
        if i < |r| {
          var swapped := SwapCodes(r, 0, i);
          r := swapped[0 := swapped[0].(code := newCode)];
          UserFilterPromotes(gv, uf, ucs, i, swapped, r);
        } else {
          r := [];
        }
      }
    }

    /** The first guess after the top one that the user filter maps, or `|gv|`, and its new code. */
    method FindMapped(uf: UserFilters.UserFilter) returns (i: nat, newCode: int)
      requires uf.Valid() && |gv| > 0
      ensures i == FirstMapped(gv, uf, 1)
      ensures i < |gv| ==> newCode == uf.NewCode(gv[i].code)
    {
      i := 1;
      newCode := -1;
      while i < |gv|
        invariant 1 <= i <= |gv|
        invariant forall j :: 1 <= j < i ==> uf.NewCode(gv[j].code) < 0
      {
        newCode := uf.GetNewCode(gv[i].code);
        if newCode >= 0 {
          break;
        }
        i := i + 1;
      }
      FirstMappedUnique(gv, uf, 1, i);
    }
  }

  // ---------------------------------------------------------------------
  // Properties of characters

  lemma KeyLeTotal(a: Rect, b: Rect)
    ensures KeyLe(a, b) || KeyLe(b, a)
  {
  }

  /** Inserting a blob at its slot keeps the blobs in reading order. */
  lemma ShiftKeepsSorted(bs: seq<Blob>, p: Blob)
    requires SortedBlobs(bs)
    ensures SortedBlobs(ShiftInsert(bs, p))
  {
    var k := BlobSlot(bs, p);
    var r := ShiftInsert(bs, p);
    forall i, j | 0 <= i < j < |r|
      ensures KeyLe(r[i].rect, r[j].rect)
    {
      if j < k {
        assert r[i] == bs[i] && r[j] == bs[j];
      } else if i > k {
        assert r[i] == bs[i - 1] && r[j] == bs[j - 1];
      } else if i == k {
        assert r[j] == bs[j - 1] && !KeyLe(bs[j - 1].rect, p.rect);
      } else {
        assert r[i] == bs[i];
        if j == k {
          assert i <= k - 1;
          if i < k - 1 {
            assert KeyLe(bs[i].rect, bs[k - 1].rect);
          }
        } else {
          assert r[j] == bs[j - 1];
        }
      }
    }
  }

  /** Joining moves the blobs of the other character: none is lost or added. */
  lemma {:induction false} JoinedBlobsCount(bs: seq<Blob>, cs: seq<Blob>)
    ensures multiset(JoinedBlobs(bs, cs)) == multiset(bs) + multiset(cs)
    ensures |JoinedBlobs(bs, cs)| == |bs| + |cs|
    decreases |cs|
  {
    if cs != [] {
      InsertMultiset(bs, BlobSlot(bs, cs[0]), cs[0]);
      JoinedBlobsCount(ShiftInsert(bs, cs[0]), cs[1..]);
      assert cs == [cs[0]] + cs[1..];
      assert multiset(cs) == multiset{cs[0]} + multiset(cs[1..]);
    }
  }

  /** Joining keeps the blobs of a character in reading order. */
  lemma {:induction false} JoinedBlobsSorted(bs: seq<Blob>, cs: seq<Blob>)
    requires SortedBlobs(bs)
    ensures SortedBlobs(JoinedBlobs(bs, cs))
    decreases |cs|
  {
    if cs != [] {
      ShiftKeepsSorted(bs, cs[0]);
      JoinedBlobsSorted(ShiftInsert(bs, cs[0]), cs[1..]);
    }
  }

  lemma {:induction false} AreaOfAppend(a: seq<Blob>, b: seq<Blob>)
    ensures AreaOf(a + b) == AreaOf(a) + AreaOf(b)
    decreases |b|
  {
    if b == [] {
      assert a + b == a;
    } else {
      assert (a + b)[..|a + b| - 1] == a + b[..|b| - 1];
      AreaOfAppend(a, b[..|b| - 1]);
    }
  }

  lemma AreaOfSingle(s: seq<Blob>)
    requires |s| == 1
    ensures AreaOf(s) == s[0].Area()
  {
    assert s[..0] == [];
  }

  lemma AreaOfInsert(bs: seq<Blob>, i: nat, p: Blob)
    requires i <= |bs|
    ensures AreaOf(Insert(bs, i, p)) == AreaOf(bs) + p.Area()
  {
    var a, b := bs[..i], bs[i..];
    InsertSplits(bs, i, p);
    AreaOfAppend(a, [p] + b);
    AreaOfAppend([p], b);
    AreaOfSingle([p]);
    AreaOfAppend(a, b);
  }

  /** Joining two characters keeps their total area. */
  lemma {:induction false} JoinedArea(bs: seq<Blob>, cs: seq<Blob>)
    ensures AreaOf(JoinedBlobs(bs, cs)) == AreaOf(bs) + AreaOf(cs)
    decreases |cs|
  {
    if cs != [] {
      AreaOfInsert(bs, BlobSlot(bs, cs[0]), cs[0]);
      JoinedArea(ShiftInsert(bs, cs[0]), cs[1..]);
      assert cs == [cs[0]] + cs[1..];
      AreaOfAppend([cs[0]], cs[1..]);
      AreaOfSingle([cs[0]]);
    }
  }

  /** Swapping twice restores the guesses. */
  lemma SwapCodesTwice(g: seq<Guess>, i: nat, j: nat)
    requires i < |g| && j < |g|
    ensures SwapCodes(SwapCodes(g, i, j), i, j) == g
  {
  }

  /** A filter does nothing to an empty list or for the line-level and user filters. */
  lemma FilterNoOp(g: seq<Guess>, f: FilterType, ucs: UcsTables, height: int, width: int)
    requires |g| == 0 || f == SameHeight || f == TextBlock || f == User
    ensures FilteredGuesses(g, f, ucs, height, width) == g
  {
  }

  /**
   * After a removing filter the list is empty, or its top guess is in the
   * class, or the original top guess was a space, or a tall `+` became `t`.
   */
  lemma FilterOutcome(g: seq<Guess>, f: FilterType, ucs: UcsTables, height: int, width: int)
    requires Removes(f)
    ensures var r := FilteredGuesses(g, f, ucs, height, width);
      r == [] || InClass(f, r[0].code, ucs) || ucs.isspace(g[0].code) ||
      ((f == LettersOnly) && r[0].code == 't' as int)
  {
  }

  /** The filters that do not remove keep every guess and every confidence. */
  lemma FilterKeepsLength(g: seq<Guess>, f: FilterType, ucs: UcsTables, height: int, width: int)
    requires !Removes(f)
    ensures var r := FilteredGuesses(g, f, ucs, height, width);
      |r| == |g| && forall k :: 0 <= k < |g| ==> r[k].value == g[k].value
  {
  }

  /**
   * The three outcomes of the user filter on a top guess that is not a
   * space: the top code is remapped; else the first mapped guess is promoted
   * and remapped, the old top code taking its place; else nothing is left.
   */
  lemma UserFilterOutcomes(g: seq<Guess>, uf: UserFilters.UserFilter, ucs: UcsTables)
    requires uf.table1.Length == 256
    requires |g| > 0 && !ucs.isspace(g[0].code)
    ensures var r := UserFiltered(g, uf, ucs);
      (uf.NewCode(g[0].code) >= 0 ==> r == g[0 := Guess(uf.NewCode(g[0].code), g[0].value)]) &&
      (uf.NewCode(g[0].code) < 0 && (exists k :: 1 <= k < |g| && uf.NewCode(g[k].code) >= 0) ==>
        var k := FirstMapped(g, uf, 1);
        (forall j :: 1 <= j < k ==> uf.NewCode(g[j].code) < 0) &&
        |r| == |g| && r[0] == Guess(uf.NewCode(g[k].code), g[0].value) &&
        r[k] == Guess(g[0].code, g[k].value) &&
        forall j :: 0 < j < |g| && j != k ==> r[j] == g[j]) &&
      ((forall k :: 0 <= k < |g| ==> uf.NewCode(g[k].code) < 0) ==> r == [])
  {
    if uf.NewCode(g[0].code) < 0 && (exists k :: 1 <= k < |g| && uf.NewCode(g[k].code) >= 0) {
      var k :| 1 <= k < |g| && uf.NewCode(g[k].code) >= 0;
      assert FirstMapped(g, uf, 1) <= k;
    }
  }

  /** The user filter's promotion branch, stated on the swapped list. */
  lemma UserFilterPromotes(g: seq<Guess>, uf: UserFilters.UserFilter, ucs: UcsTables, i: nat,
                           s: seq<Guess>, r: seq<Guess>)
    requires uf.table1.Length == 256
    requires 0 < |g| && !ucs.isspace(g[0].code) && uf.NewCode(g[0].code) < 0
    requires i == FirstMapped(g, uf, 1) && i < |g|
    requires s == SwapCodes(g, 0, i) && r == s[0 := s[0].(code := uf.NewCode(g[i].code))]
    ensures r == UserFiltered(g, uf, ucs)
  {
  }

  /** A top guess that is a space is never touched by the user filter. */
  lemma UserFilterKeepsSpaces(g: seq<Guess>, uf: UserFilters.UserFilter, ucs: UcsTables)
    requires uf.table1.Length == 256
    requires |g| > 0 && ucs.isspace(g[0].code)
    ensures UserFiltered(g, uf, ucs) == g
  {
  }
}
