// The language of user filter files, as specification functions: bracket
// sets, character tokens, the optional `=target` suffix and the tokens of a
// rule line. The objects that parse it step by step are in UserFilters.

module UserFilterSyntax {
  import opened Common
  import opened Iso8859

  /** The white space of the C locale's `isspace`. */
  predicate IsCSpace(ch: char)
  {
    ch == ' ' || '\t' <= ch <= '\r'
  }

  /** The first position at or after `i` that is not white space. */
  function SkipSpaces(s: string, i: nat): (j: nat)
    requires i <= |s|
    ensures i <= j <= |s|
    ensures forall k :: i <= k < j ==> IsCSpace(s[k])
    ensures j < |s| ==> !IsCSpace(s[j])
    decreases |s| - i
  {
    if i < |s| && IsCSpace(s[i]) then SkipSpaces(s, i + 1) else i
  }

  // ---------------------------------------------------------------------
  // Bracket sets

  /** A member of a bracket set: one character or an inclusive range. */
  datatype Item = Single(c: int) | Range(lo: int, hi: int)

  predicate ItemCovers(it: Item, c: int)
  {
    match it
    case Single(a) => c == a
    case Range(lo, hi) => lo <= c <= hi
  }

  predicate Covers(items: seq<Item>, c: int)
  {
    exists k :: 0 <= k < |items| && ItemCovers(items[k], c)
  }

  lemma CoversAppend(items: seq<Item>, it: Item, c: int)
    ensures Covers(items + [it], c) <==> Covers(items, c) || ItemCovers(it, c)
  {
    if ItemCovers(it, c) {
      assert (items + [it])[|items|] == it;
    }
    if Covers(items, c) {
      var k :| 0 <= k < |items| && ItemCovers(items[k], c);
      assert (items + [it])[k] == items[k];
    }
  }

  /**
   * A character inside a set, plain or written as an escape sequence: its
   * code and the index of its last character, or None if the escape is bad.
   */
  function SetChar(s: string, i: nat): (r: Option<(int, nat)>)
    requires i < |s|
    ensures r.Some? ==> i <= r.value.1 < |s| && r.value.0 >= 0
    ensures r.Some? && s[i] != '\\' ==> r.value == (s[i] as int, i)
  {
    if s[i] == '\\' then
      var (code, len) := EscapeOf(s, i + 1);
      if code < 0 then None else Some((code, i + len))
    else Some((s[i] as int, i))
  }

  /**
   * The member that starts at `i` and the position after it. A `-` makes a
   * range only when a character follows it that is not the closing `]`.
   */
  function ItemAt(s: string, i: nat): (r: Option<(Item, nat)>)
    requires i < |s|
    ensures r.Some? ==> i < r.value.1 <= |s|
  {
    match SetChar(s, i)
    case None => None
    case Some((c1, j)) =>
      if j + 2 >= |s| || s[j + 1] != '-' || s[j + 2] == ']' then Some((Single(c1), j + 1))
      else
        match SetChar(s, j + 2)
        case None => None
        case Some((c2, k)) => Some((Range(c1, c2), k + 1))
  }

  datatype Scan = Closed(items: seq<Item>, end: nat) | Unclosed

  /** The members from `i` up to the closing `]`, and the position after it. */
  function ItemsFrom(s: string, i: nat): (r: Scan)
    requires i <= |s|
    ensures r.Closed? ==> i < r.end <= |s| && s[r.end - 1] == ']'
    decreases |s| - i
  {
    if i >= |s| then Unclosed
    else if s[i] == ']' then Closed([], i + 1)
    else
      match ItemAt(s, i)
      case None => Unclosed
      case Some((it, next)) =>
        match ItemsFrom(s, next)
        case Unclosed => Unclosed
        case Closed(rest, end) => Closed([it] + rest, end)
  }

  /** A parsed bracket set: inverted by `^`, its members and its length in characters. */
  datatype SetForm = SetForm(inverted: bool, items: seq<Item>, len: nat)

  function SetSyntax(s: string, i0: nat): (r: Option<SetForm>)
    ensures r.Some? ==> i0 + 2 < |s| && s[i0] == '[' && 2 <= r.value.len && i0 + r.value.len <= |s|
    ensures r.Some? ==> s[i0 + r.value.len - 1] == ']'
  {
    if i0 + 2 >= |s| || s[i0] != '[' then None
    else
      var inverted := s[i0 + 1] == '^';
      var i2 := if inverted then i0 + 2 else i0 + 1;
      var literal := s[i2] == ']';
      var i3 := if literal then i2 + 1 else i2;
      SetAfter(s, i0, inverted, if literal then [Single(']' as int)] else [], i3)
  }

  /** The set opened at `i0` whose members from `i` on follow the leading ones `lead`, if a `]` closes it. */
  function SetAfter(s: string, i0: nat, inverted: bool, lead: seq<Item>, i: nat): (r: Option<SetForm>)
    requires i0 < i <= |s|
    ensures r.Some? ==> r.value.inverted == inverted && 2 <= r.value.len && i0 + r.value.len <= |s|
    ensures r.Some? ==> s[i0 + r.value.len - 1] == ']'
  {
    match ItemsFrom(s, i)
    case Unclosed => None
    case Closed(items, end) => Some(SetForm(inverted, lead + items, end - i0))
  }

  /** True if the set written at `i0` includes byte `c`; a malformed set includes nothing. */
  predicate SetIncludes(s: string, i0: nat, c: int)
  {
    match SetSyntax(s, i0)
    case None => false
    case Some(form) => form.inverted != Covers(form.items, c)
  }

  function SetLength(s: string, i0: nat): nat
  {
    match SetSyntax(s, i0)
    case None => 0
    case Some(form) => form.len
  }

  // ---------------------------------------------------------------------
  // Character tokens

  /** The value of a string of hexadecimal digits, or -1 if one is not a digit. */
  function HexValue(digits: string): (v: int)
    ensures v >= -1
    ensures v >= 0 <==> forall k :: 0 <= k < |digits| ==> XValue(digits[k]) >= 0
  {
    if digits == [] then 0
    else
      var p := HexValue(digits[..|digits| - 1]);
      var d := XValue(digits[|digits| - 1]);
      if p < 0 || d < 0 then -1 else 16 * p + d
  }

  lemma {:induction false} HexValueBound(digits: string)
    requires HexValue(digits) >= 0
    ensures HexValue(digits) < Pow16(|digits|)
  {
    if digits != [] {
      HexValueBound(digits[..|digits| - 1]);
    }
  }

  function Pow16(n: nat): nat
  {
    if n == 0 then 1 else 16 * Pow16(n - 1)
  }

  /**
   * A character written as `'X'`, `'\esc'` or `UXXXX` at `i` (no spaces
   * skipped): its code and the position after it, or -1.
   */
  function CharForm(line: string, i: nat, ucs: UcsTables): (r: (int, nat))
    requires i <= |line|
    ensures r.1 <= |line|
    ensures r.0 >= 0 ==> i + 3 <= r.1
  {
    if i + 2 < |line| && line[i] == '\'' then
      if line[i + 1] == '\\' then
        var (cht, l) := EscapeOf(line, i + 2);
        if cht >= 0 && i + 2 + l < |line| && line[i + 2 + l] == '\'' then
          (ucs.mapToUcs(cht), i + 3 + l)
        else (-1, i)
      else if line[i + 2] == '\'' then (ucs.mapToUcs(line[i + 1] as int), i + 3)
      else (-1, i)
    else if i + 4 < |line| && line[i] == 'U' then
      var v := HexValue(line[i + 1..i + 5]);
      if v >= 0 then (v, i + 5) else (-1, i)
    else (-1, i)
  }

  /**
   * A character token: spaces, a character, spaces, and then the end of the
   * line, a `,` or a `-`. The code and the position reached, or -1.
   */
  function CharTokenOf(line: string, i: nat, ucs: UcsTables): (r: (int, nat))
    requires i <= |line|
    ensures r.1 <= |line|
    ensures r.0 >= 0 ==> i + 3 <= r.1
    ensures r.0 >= 0 ==> r.1 == |line| || line[r.1] == ',' || line[r.1] == '-'
  {
    var i1 := SkipSpaces(line, i);
    var (code, i2) := CharForm(line, i1, ucs);
    if code >= 0 then
      var i3 := SkipSpaces(line, i2);
      if i3 < |line| && line[i3] != ',' && line[i3] != '-' then (-1, i3) else (code, i3)
    else (code, i2)
  }

  // ---------------------------------------------------------------------
  // The `=target` suffix

  /** The last position at or before `pos` holding `ch`. */
  function RFind(s: string, ch: char, pos: nat): (r: Option<nat>)
    ensures r.Some? ==> r.value < |s| && r.value <= pos && s[r.value] == ch
    ensures r.Some? ==> forall k :: r.value < k < |s| && k <= pos ==> s[k] != ch
    ensures r.None? ==> forall k :: 0 <= k < |s| && k <= pos ==> s[k] != ch
    decreases pos
  {
    if |s| == 0 then None
    else if pos >= |s| then RFind(s, ch, |s| - 1)
    else if s[pos] == ch then Some(pos)
    else if pos == 0 then None
    else RFind(s, ch, pos - 1)
  }

  /**
   * The code a `=` at `equ` names: the one character token after it, if it
   * reaches the end of the line and the tables can hold it; -1 otherwise.
   */
  function TargetCode(line: string, equ: nat, ucs: UcsTables): (code: int)
    requires equ < |line|
    ensures code == -1 || 0 <= code <= 0xFFFF
  {
    var (c, j) := CharTokenOf(line, equ + 1, ucs);
    if c >= 0 && j == |line| && c <= 0xFFFF then c else -1
  }

  /** The target code of every position, as the `=` search consults it. */
  function TargetCodes(line: string, ucs: UcsTables): (codes: seq<int>)
    ensures |codes| == |line|
    ensures forall e :: 0 <= e < |line| ==> codes[e] == TargetCode(line, e, ucs)
  {
    seq(|line|, e requires 0 <= e < |line| => TargetCode(line, e, ucs))
  }

  /**
   * The target found by searching for a `=` at or before `pos`, with `tries`
   * attempts left: a `=` that does not name a target is passed over and the
   * search goes on before it (the position is an `unsigned`, so one before
   * position 0 wraps around to the end). Without a target the code is -1 and
   * the whole line is rules.
   */
  function TargetFrom(line: string, pos: nat, tries: nat, codes: seq<int>): (r: (int, nat))
    requires |codes| == |line|
    ensures r.1 <= |line|
    ensures r.0 >= 0 ==> r.1 < |line| && line[r.1] == '=' && r.0 == codes[r.1]
    ensures r.0 < 0 ==> r == (-1, |line|)
    decreases tries
  {
    if tries == 0 then (-1, |line|)
    else match RFind(line, '=', pos)
      case None => (-1, |line|)
      case Some(e) =>
        if codes[e] >= 0 then (codes[e], e)
        else TargetFrom(line, ToUnsigned(e - 1), tries - 1, codes)
  }

  /** Without an `=` at or before `pos` there is no target. */
  lemma TargetFromNone(line: string, pos: nat, tries: nat, codes: seq<int>)
    requires |codes| == |line| && tries > 0
    requires RFind(line, '=', pos).None?
    ensures TargetFrom(line, pos, tries, codes) == (-1, |line|)
  {
  }

  /** The last `=` at or before `pos`, when a target follows it, gives the target and the rules before it. */
  lemma TargetFromHit(line: string, pos: nat, tries: nat, codes: seq<int>, e: nat)
    requires |codes| == |line| && tries > 0
    requires RFind(line, '=', pos) == Some(e) && codes[e] >= 0
    ensures TargetFrom(line, pos, tries, codes) == (codes[e], e)
  {
  }

  /** A step that finds an `=` without a target after it goes on before that `=`, with one try fewer. */
  lemma TargetFromSkip(line: string, pos: nat, tries: nat, codes: seq<int>, e: nat)
    requires |codes| == |line| && tries > 0
    requires RFind(line, '=', pos) == Some(e) && codes[e] < 0
    ensures TargetFrom(line, pos, tries, codes) == TargetFrom(line, ToUnsigned(e - 1), tries - 1, codes)
  {
  }

  /**
   * The target code of a rule line and the length of the line before its
   * `=`: the last `=` is tried, then the one before it.
   */
  function TargetOf(line: string, ucs: UcsTables): (r: (int, nat))
    ensures r.1 <= |line|
    ensures r.0 >= 0 ==> r.0 <= 0xFFFF && r.1 < |line| && line[r.1] == '=' && r.0 == TargetCode(line, r.1, ucs)
    ensures r.0 < 0 ==> r == (-1, |line|)
  {
    TargetFrom(line, ToUnsigned(|line| - 1), 2, TargetCodes(line, ucs))
  }

  /** The code a rule enables a character to: the target, or the character itself. */
  function Mapped(target: int, c: int): int
  {
    if target >= 0 then target else c
  }

  // ---------------------------------------------------------------------
  // Rule tokens

  datatype Token = SetToken(form: SetForm) | CharToken(code: int) | RangeToken(lo: int, hi: int)

  predicate TokenCovers(t: Token, c: int)
  {
    match t
    case SetToken(form) => 0 <= c < 256 && form.inverted != Covers(form.items, c)
    case CharToken(code) => c == code
    case RangeToken(lo, hi) => lo <= c <= hi
  }

  predicate TokensCover(ts: seq<Token>, c: int)
  {
    exists k :: 0 <= k < |ts| && TokenCovers(ts[k], c)
  }

  /** A token the filter can enable: character codes lie in 0..0xFFFF and ranges ascend. */
  predicate WellFormedToken(t: Token)
  {
    match t
    case SetToken(form) => true
    case CharToken(code) => 0 <= code <= 0xFFFF
    case RangeToken(lo, hi) => 0 <= lo < hi <= 0xFFFF
  }

  function AfterComma(s: string, i: nat): (j: nat)
    requires i <= |s|
    ensures i <= j <= |s|
  {
    if i < |s| && s[i] == ',' then i + 1 else i
  }

  function Cons(t: Token, rest: Option<seq<Token>>): Option<seq<Token>>
  {
    match rest
    case None => None
    case Some(ts) => Some([t] + ts)
  }

  /**
   * The token that starts at `i` (spaces already skipped) and the position
   * after it, or None on a syntax error: a malformed set or character, a
   * code the tables cannot hold, a range that does not ascend, or anything
   * else.
   */
  function TokenAt(s: string, i: nat, ucs: UcsTables): (r: Option<(Token, nat)>)
    requires i < |s|
    ensures r.Some? ==> i < r.value.1 <= |s| && WellFormedToken(r.value.0)
  {
    if s[i] == '[' then
      match SetSyntax(s, i)
      case None => None
      case Some(form) => Some((SetToken(form), i + form.len))
    else if s[i] == '\'' || s[i] == 'U' then
      var (code, j) := CharTokenOf(s, i, ucs);
      if code < 0 || code > 0xFFFF then None
      else if j < |s| && s[j] == '-' then RangeAt(s, code, j, ucs)
      else Some((CharToken(code), j))
    else None
  }

  /** The token at a `'` or `U`: a character, or a range when a `-` follows it. */
  lemma TokenAtChar(s: string, i: nat, ucs: UcsTables)
    requires i < |s| && (s[i] == '\'' || s[i] == 'U')
    ensures var (code, j) := CharTokenOf(s, i, ucs);
      TokenAt(s, i, ucs) ==
        if code < 0 || code > 0xFFFF then None
        else if j < |s| && s[j] == '-' then RangeAt(s, code, j, ucs)
        else Some((CharToken(code), j))
  {
  }

  /** The range token whose lower end `lo` is followed by the `-` at `j`. */
  function RangeAt(s: string, lo: int, j: nat, ucs: UcsTables): (r: Option<(Token, nat)>)
    requires j < |s|
    ensures r.Some? ==> j < r.value.1 <= |s| && r.value.0.RangeToken? && r.value.0.lo == lo && lo < r.value.0.hi <= 0xFFFF
  {
    var (hi, k) := CharTokenOf(s, j + 1, ucs);
    if hi <= lo || hi > 0xFFFF then None else Some((RangeToken(lo, hi), k))
  }

  /** The tokens of the rules from position `i`, each optionally followed by a `,`, or None on an error. */
  function LineTokens(s: string, i: nat, ucs: UcsTables): (r: Option<seq<Token>>)
    requires i <= |s|
    ensures r.Some? ==> forall k :: 0 <= k < |r.value| ==> WellFormedToken(r.value[k])
    decreases |s| - i
  {
    var i1 := SkipSpaces(s, i);
    if i1 >= |s| then Some([])
    else match TokenAt(s, i1, ucs)
      case None => None
      case Some((t, j)) => Cons(t, LineTokens(s, AfterComma(s, j), ucs))
  }

  /** One step of `LineTokens`: the end of the rules, an error, or one token and the rest. */
  lemma LineTokensUnfold(s: string, i: nat, ucs: UcsTables)
    requires i <= |s|
    ensures var i1 := SkipSpaces(s, i);
      (i1 >= |s| ==> LineTokens(s, i, ucs) == Some([])) &&
      (i1 < |s| && TokenAt(s, i1, ucs).None? ==> LineTokens(s, i, ucs).None?) &&
      (i1 < |s| && TokenAt(s, i1, ucs).Some? ==>
         var (t, j) := TokenAt(s, i1, ucs).value;
         LineTokens(s, i, ucs) == Cons(t, LineTokens(s, AfterComma(s, j), ucs)))
  {
  }

  /** The rules of a line: the text before its target, if it has one. */
  function RulesOf(line: string, ucs: UcsTables): string
  {
    line[..TargetOf(line, ucs).1]
  }

  // ---------------------------------------------------------------------
  // Properties of the syntax

  /** A set parses only from a `[` with at least two more characters, up to a closing `]`. */
  lemma SetNeedsBrackets(s: string, i0: nat)
    requires SetLength(s, i0) > 0
    ensures s[i0] == '[' && i0 + 2 < |s|
    ensures 3 <= SetLength(s, i0) && i0 + SetLength(s, i0) <= |s| && s[i0 + SetLength(s, i0) - 1] == ']'
  {
    var form := SetSyntax(s, i0).value;
    var inverted := s[i0 + 1] == '^';
    var i2 := if inverted then i0 + 2 else i0 + 1;
    var i3 := if s[i2] == ']' then i2 + 1 else i2;
    if i3 == i0 + 1 {
      assert s[i3] != ']';
      match ItemAt(s, i3)
      case Some((it, next)) =>
        assert ItemsFrom(s, next).Closed?;
    }
  }

  /** A malformed set includes nothing. */
  lemma MalformedSetIsEmpty(s: string, i0: nat, c: int)
    requires SetLength(s, i0) == 0
    ensures !SetIncludes(s, i0, c)
  {
    if SetSyntax(s, i0).Some? {
      SetNeedsBrackets(s, i0);
    }
  }

  /** A `^` right after `[` inverts membership. */
  lemma CaretInverts(s: string, i0: nat)
    requires SetSyntax(s, i0).Some?
    ensures SetSyntax(s, i0).value.inverted <==> s[i0 + 1] == '^'
    ensures forall c :: SetIncludes(s, i0, c) <==> (s[i0 + 1] == '^') != Covers(SetSyntax(s, i0).value.items, c)
  {
  }

  /** A `]` right after `[` or `[^` is a member, not the end of the set. */
  lemma LeadingBracketIsMember(s: string, i0: nat)
    requires SetSyntax(s, i0).Some?
    requires s[i0 + 1] == ']' || (s[i0 + 1] == '^' && s[i0 + 2] == ']')
    ensures Covers(SetSyntax(s, i0).value.items, ']' as int)
  {
    assert ItemCovers(SetSyntax(s, i0).value.items[0], ']' as int);
  }

  /** `a-b` with a plain `b` other than `]` is the range from `a` to `b`. */
  lemma DashMakesRange(s: string, i: nat)
    requires i + 2 < |s| && s[i] != '\\' && s[i + 1] == '-'
    requires s[i + 2] != ']' && s[i + 2] != '\\'
    ensures ItemAt(s, i) == Some((Range(s[i] as int, s[i + 2] as int), i + 3))
    ensures forall c :: ItemCovers(ItemAt(s, i).value.0, c) <==> s[i] as int <= c <= s[i + 2] as int
  {
  }

  /** A `-` followed by `]` or by the end of the text is not a range. */
  lemma DashBeforeCloseIsLiteral(s: string, i: nat)
    requires i < |s| && s[i] != '\\'
    requires i + 2 >= |s| || s[i + 2] == ']'
    ensures ItemAt(s, i) == Some((Single(s[i] as int), i + 1))
  {
  }

  /** A range whose bounds are reversed covers nothing. */
  lemma ReversedRangeIsEmpty(lo: int, hi: int, c: int)
    requires hi < lo
    ensures !ItemCovers(Range(lo, hi), c)
  {
  }

  /** In a byte string every set member is a byte. */
  lemma {:induction false} ItemsAreBytes(s: string, i: nat)
    requires IsByteString(s) && i <= |s|
    ensures ItemsFrom(s, i).Closed? ==>
      forall k, c :: 0 <= k < |ItemsFrom(s, i).items| && ItemCovers(ItemsFrom(s, i).items[k], c) ==> 0 <= c < 256
    decreases |s| - i
  {
    if i < |s| && s[i] != ']' {
      match ItemAt(s, i)
      case None =>
      case Some((it, next)) =>
        SetCharIsByte(s, i);
        match SetChar(s, i)
        case Some((c1, j)) =>
          if !(j + 2 >= |s| || s[j + 1] != '-' || s[j + 2] == ']') {
            SetCharIsByte(s, j + 2);
          }
        ItemsAreBytes(s, next);
    }
  }

  lemma SetCharIsByte(s: string, i: nat)
    requires IsByteString(s) && i < |s|
    ensures SetChar(s, i).Some? ==> SetChar(s, i).value.0 < 256
  {
    EscapeIsByte(s, i + 1);
  }

  /** A character token ends a rule: at the end of the line, a `,` or a `-`. */
  lemma CharTokenEnds(line: string, i: nat, ucs: UcsTables)
    requires i <= |line| && CharTokenOf(line, i, ucs).0 >= 0
    ensures var j := CharTokenOf(line, i, ucs).1;
      i + 3 <= j && (j == |line| || line[j] == ',' || line[j] == '-')
  {
  }

  /** `UXXXX` takes exactly four hexadecimal digits and gives a code in 0..0xFFFF. */
  lemma UnicodeTokenRange(line: string, i: nat, ucs: UcsTables)
    requires i + 4 < |line| && line[i] == 'U'
    ensures CharForm(line, i, ucs).0 >= 0 <==>
      forall k :: i + 1 <= k <= i + 4 ==> XValue(line[k]) >= 0
    ensures CharForm(line, i, ucs).0 <= 0xFFFF
  {
    var digits := line[i + 1..i + 5];
    assert forall k :: i + 1 <= k <= i + 4 ==> line[k] == digits[k - i - 1];
    if HexValue(digits) >= 0 {
      HexValueBound(digits);
      assert Pow16(4) == 0x10000;
    }
  }

  lemma UnicodeTokenExample(ucs: UcsTables)
    ensures CharTokenOf("U00e9", 0, ucs) == (0xE9, 5)
  {
    var line := "U00e9";
    assert line[1..5] == "00e9";
    assert "00e9"[..3] == "00e" && "00e"[..2] == "00" && "00"[..1] == "0" && "0"[..0] == "";
    assert HexValue("0") == 0;
    assert HexValue("00") == 0;
    assert HexValue("00e") == 14;
    assert HexValue("00e9") == 0xE9;
    assert SkipSpaces(line, 0) == 0;
    assert CharForm(line, 0, ucs) == (0xE9, 5);
    assert SkipSpaces(line, 5) == 5;
  }

  /** Anything but spaces, a `,` or a `-` after a complete character makes the token an error. */
  lemma TrailingTextRejected(line: string, i: nat, ucs: UcsTables)
    requires i <= |line|
    requires var (code, j) := CharForm(line, SkipSpaces(line, i), ucs);
      code >= 0 && j < |line| && !IsCSpace(line[j]) && line[j] != ',' && line[j] != '-'
    ensures CharTokenOf(line, i, ucs).0 == -1
  {
  }

  lemma QuotedTokenExample(ucs: UcsTables)
    ensures CharTokenOf("'a'", 0, ucs) == (ucs.mapToUcs('a' as int), 3)
  {
    assert SkipSpaces("'a'", 0) == 0;
  }

  /** A `UXXXX` token directly followed by the end of the line, a `,` or a `-`. */
  lemma UnicodeTokenAt(line: string, i: nat, v: int, ucs: UcsTables)
    requires i + 4 < |line| && line[i] == 'U' && v >= 0
    requires HexValue(line[i + 1..i + 5]) == v
    requires i + 5 == |line| || line[i + 5] == ',' || line[i + 5] == '-'
    ensures CharTokenOf(line, i, ucs) == (v, i + 5)
  {
    assert SkipSpaces(line, i) == i;
    assert SkipSpaces(line, i + 5) == i + 5;
  }

  /** A range must ascend: its upper end must exceed its lower end. */
  lemma DescendingRangeRejected(s: string, i: nat, ucs: UcsTables)
    requires i < |s| && (s[i] == '\'' || s[i] == 'U')
    requires var (lo, j) := CharTokenOf(s, i, ucs);
      0 <= lo <= 0xFFFF && j < |s| && s[j] == '-' && CharTokenOf(s, j + 1, ucs).0 <= lo
    ensures TokenAt(s, i, ucs).None?
  {
    TokenAtChar(s, i, ucs);
  }

  /** Anything that is not a set, a quoted character or `U` is an error. */
  lemma StrayTextExample(ucs: UcsTables)
    ensures LineTokens("x", 0, ucs).None?
  {
    assert SkipSpaces("x", 0) == 0;
  }
}
