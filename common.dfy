// Small utilities shared by the recognition core: the fuzzy integer
// comparison, the charset bitset, the option name tables and the UCS
// character tables the core consults (an external collaborator).

module Common {

  datatype Option<T> = None | Some(value: T)

  /** Largest value of a C++ `int`. */
  const INT_MAX: int := 0x7FFF_FFFF

  function Abs(x: int): int { if x < 0 then -x else x }

  function Max(a: int, b: int): int { if a < b then b else a }

  /** C++ integer division, which truncates toward zero (Dafny's `/` is Euclidean). */
  function Div(a: int, b: int): (q: int)
    requires b != 0
    ensures a >= 0 && b > 0 ==> q == a / b
    ensures a < 0 && b > 0 ==> q == -((-a) / b)
  {
    var q0 := Abs(a) / Abs(b);
    if (a < 0) == (b < 0) then q0 else -q0
  }

  /** The value an `int` argument takes when it is passed as a C++ `unsigned`. */
  function ToUnsigned(x: int): (u: nat)
    ensures u < 0x1_0000_0000
    ensures 0 <= x < 0x1_0000_0000 ==> u == x
  {
    x % 0x1_0000_0000
  }

  /** True if the text is made of bytes: every character fits an `unsigned char`. */
  predicate IsByteString(s: string)
  {
    forall k :: 0 <= k < |s| ==> s[k] as int < 256
  }

  /**
   * The UCS character tables (an external collaborator). Each field is the
   * table function of the same name; nothing about them is assumed here.
   */
  datatype UcsTables = UcsTables(
    isalpha: int -> bool,
    isdigit: int -> bool,
    isupper: int -> bool,
    isspace: int -> bool,
    toNearestLetter: int -> int,
    toNearestDigit: int -> int,
    toNearestUpperNum: int -> int,
    mapToByte: int -> int,
    mapToUcs: int -> int)

  // ---------------------------------------------------------------------
  // Ocrad::similar

  /**
   * Two magnitudes are similar if they differ by at most `absDif`
   * (only when `percentDif` is positive) or by at most `percentDif` percent
   * of the larger magnitude.
   */
  predicate Similar(a: int, b: int, percentDif: int, absDif: int)
    ensures percentDif == 0 ==> (Similar(a, b, percentDif, absDif) <==> a == b)
    ensures percentDif < 0 ==> (Similar(a, b, percentDif, absDif) <==> a == 0 && b == 0)
  {
    var difference := Abs(a - b);
    if percentDif > 0 && difference <= absDif then true
    else difference * 100 <= Max(Abs(a), Abs(b)) * percentDif
  }

  lemma SimilarWithinAbsolute(a: int, b: int, p: int, d: int)
    requires p > 0 && Abs(a - b) <= d
    ensures Similar(a, b, p, d)
  {
  }

  lemma SimilarByPercent(a: int, b: int, p: int, d: int)
    requires !(p > 0 && Abs(a - b) <= d)
    ensures Similar(a, b, p, d) <==> 100 * Abs(a - b) <= Max(Abs(a), Abs(b)) * p
  {
  }

  lemma SimilarSymmetric(a: int, b: int, p: int, d: int)
    ensures Similar(a, b, p, d) <==> Similar(b, a, p, d)
  {
    assert Abs(a - b) == Abs(b - a);
    assert Max(Abs(a), Abs(b)) == Max(Abs(b), Abs(a));
  }

  /** Every magnitude is similar to itself once the percentage is positive. */
  lemma SimilarReflexive(a: int, p: int, d: int)
    requires p > 0
    ensures Similar(a, a, p, d)
  {
  }

  // ---------------------------------------------------------------------
  // Name tables

  /** Position of the first entry of `table` named `name`. */
  function IndexOfName<T>(table: seq<(string, T)>, name: string): (k: nat)
    requires exists j :: 0 <= j < |table| && table[j].0 == name
    ensures k < |table| && table[k].0 == name
    ensures forall j :: 0 <= j < k ==> table[j].0 != name
  {
    if table[0].0 == name then 0 else 1 + IndexOfName(table[1..], name)
  }

  predicate HasName<T>(table: seq<(string, T)>, name: string)
  {
    exists j :: 0 <= j < |table| && table[j].0 == name
  }

  /** Searches a name table in order, as the option parsers do; `i` is the first entry with that name. */
  method FindName<T>(table: seq<(string, T)>, name: string) returns (found: bool, i: nat)
    ensures found <==> HasName(table, name)
    ensures found ==> i == IndexOfName(table, name)
  {
    i := 0;
    while i < |table|
      invariant i <= |table|
      invariant forall j :: 0 <= j < i ==> table[j].0 != name
    {
      if name == table[i].0 {
        return true, i;
      }
      i := i + 1;
    }
    return false, 0;
  }

  // ---------------------------------------------------------------------
  // Charset

  datatype CharsetValue = Ascii | Iso8859_9 | Iso8859_15

  /** The bit each charset value occupies in the bitset (its enumerator value). */
  function CharsetBit(v: CharsetValue): bv8
  {
    match v
    case Ascii => 1
    case Iso8859_9 => 2
    case Iso8859_15 => 4
  }

  const CharsetTable: seq<(string, CharsetValue)> :=
    [("ascii", Ascii), ("iso-8859-9", Iso8859_9), ("iso-8859-15", Iso8859_15)]

  class Charset {
    var charset: bv8

    constructor ()
      ensures charset == 0
    {
      charset := 0;
    }

    method Enable(name: string) returns (ok: bool)
      modifies this
      ensures ok <==> HasName(CharsetTable, name)
      ensures ok ==> charset == old(charset) | CharsetBit(CharsetTable[IndexOfName(CharsetTable, name)].1)
      ensures !ok ==> charset == old(charset)
    {
      var i;
      ok, i := FindName(CharsetTable, name);
      if ok {
        charset := charset | CharsetBit(CharsetTable[i].1);
      }
    }

    /** With nothing enabled, only ISO-8859-15 counts as enabled. */
    predicate Enabled(v: CharsetValue)
      reads this
      ensures charset == 0 ==> (Enabled(v) <==> v == Iso8859_15)
      ensures charset & CharsetBit(v) != 0 ==> Enabled(v)
    {
      if charset == 0 then v == Iso8859_15 else charset & CharsetBit(v) != 0
    }

    /** `v` is enabled and no other charset is. */
    predicate Only(v: CharsetValue)
      reads this
      ensures charset == 0 ==> (Only(v) <==> v == Iso8859_15)
      ensures Only(v) ==> Enabled(v) && forall w :: Enabled(w) ==> w == v
    {
      if charset == 0 then v == Iso8859_15 else charset == CharsetBit(v)
    }
  }

  /** Once a name has been enabled, its charset counts as enabled. */
  lemma EnabledAfterEnable(bits: bv8, v: CharsetValue)
    ensures (bits | CharsetBit(v)) & CharsetBit(v) != 0
  {
  }

  // ---------------------------------------------------------------------
  // Transformation

  datatype TransformationType =
    Untransformed | Rotate90 | Rotate180 | Rotate270 | MirrorLR | MirrorTB | MirrorD1 | MirrorD2

  const TransformationTable: seq<(string, TransformationType)> :=
    [("none", Untransformed), ("rotate90", Rotate90), ("rotate180", Rotate180),
     ("rotate270", Rotate270), ("mirror_lr", MirrorLR), ("mirror_tb", MirrorTB),
     ("mirror_d1", MirrorD1), ("mirror_d2", MirrorD2)]

  class Transformation {
    var kind: TransformationType

    constructor ()
      ensures kind == Untransformed
    {
      kind := Untransformed;
    }

    method Set(name: string) returns (ok: bool)
      modifies this
      ensures ok <==> HasName(TransformationTable, name)
      ensures ok ==> kind == TransformationTable[IndexOfName(TransformationTable, name)].1
      ensures !ok ==> kind == old(kind)
    {
      var i;
      ok, i := FindName(TransformationTable, name);
      if ok {
        kind := TransformationTable[i].1;
      }
    }
  }

  // ---------------------------------------------------------------------
  // Filters and Control

  datatype FilterType =
    Letters | LettersOnly | Numbers | NumbersOnly | SameHeight | TextBlock
  | UpperNum | UpperNumMark | UpperNumOnly | User

  /** A filter of the command line; the user filter it may point to is held apart. */
  datatype Filter = Filter(kind: FilterType)

  /** The built-in filter names; `User` has no name and "help" is not a filter. */
  const FilterTable: seq<(string, FilterType)> :=
    [("letters", Letters), ("letters_only", LettersOnly), ("numbers", Numbers),
     ("numbers_only", NumbersOnly), ("same_height", SameHeight), ("text_block", TextBlock),
     ("upper_num", UpperNum), ("upper_num_mark", UpperNumMark), ("upper_num_only", UpperNumOnly)]

  class Control {
    var filters: seq<Filter>
    var utf8: bool

    constructor ()
      ensures filters == [] && !utf8
    {
      filters := [];
      utf8 := false;
    }

    method AddFilter(name: string) returns (ok: bool)
      modifies this
      ensures utf8 == old(utf8)
      ensures ok <==> HasName(FilterTable, name)
      ensures ok ==> filters == old(filters) + [Filter(FilterTable[IndexOfName(FilterTable, name)].1)]
      ensures !ok ==> filters == old(filters)
    {
      var i;
      ok, i := FindName(FilterTable, name);
      if ok {
        filters := filters + [Filter(FilterTable[i].1)];
      }
    }

    method SetFormat(name: string) returns (ok: bool)
      modifies this
      ensures filters == old(filters)
      ensures ok <==> name == "byte" || name == "utf8"
      ensures ok ==> utf8 == (name == "utf8")
      ensures !ok ==> utf8 == old(utf8)
    {
      if name == "byte" { utf8 := false; return true; }
      if name == "utf8" { utf8 := true; return true; }
      return false;
    }
  }

  /** The user filter is not reachable by name, and neither is "help". */
  lemma FilterTableExcludesUserAndHelp()
    ensures !HasName(FilterTable, "help") && !HasName(FilterTable, "user")
    ensures forall j :: 0 <= j < |FilterTable| ==> FilterTable[j].1 != User
  {
  }

  /** Each table lists every name once, so a name selects exactly one entry. */
  lemma TableNamesDistinct()
    ensures forall i, j :: 0 <= i < j < |CharsetTable| ==> CharsetTable[i].0 != CharsetTable[j].0
    ensures forall i, j :: 0 <= i < j < |TransformationTable| ==> TransformationTable[i].0 != TransformationTable[j].0
    ensures forall i, j :: 0 <= i < j < |FilterTable| ==> FilterTable[i].0 != FilterTable[j].0
  {
  }
}
