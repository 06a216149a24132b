// The user filter: the bracket-set parser and the filter object, with its
// dense table for the first 256 codes, its sorted sparse table for the
// rest, the default action, and the parser for the rule lines of a filter
// file (the lines are given already read; reading the file is not modelled).

module UserFilters {
  import opened Common
  import opened Iso8859
  import opened UserFilterSyntax

  /** Adds `prefix` in front of the members of a closed scan. */
  function Prepend(prefix: seq<Item>, s: Scan): Scan
  {
    match s
    case Unclosed => Unclosed
    case Closed(items, end) => Closed(prefix + items, end)
  }

  lemma PrependTwice(p: seq<Item>, q: seq<Item>, s: Scan)
    ensures Prepend(p, Prepend(q, s)) == Prepend(p + q, s)
  {
    if s.Closed? {
      assert p + (q + s.items) == (p + q) + s.items;
    }
  }

  /** One more member read: the scan from its start is the scan after it, with the member in front. */
  lemma ItemStep(regex: string, at: nat, items: seq<Item>, item: Item, next: nat)
    requires at < |regex| && regex[at] != ']'
    requires ItemAt(regex, at) == Some((item, next))
    ensures Prepend(items, ItemsFrom(regex, at)) == Prepend(items + [item], ItemsFrom(regex, next))
  {
    PrependTwice(items, [item], ItemsFrom(regex, next));
  }

  /** The marks after a member is marked are the marks of the members read so far. */
  lemma MarkedItem(marks: seq<bool>, items: seq<Item>, item: Item)
    requires |marks| == 256
    requires forall c :: 0 <= c < 256 ==> marks[c] == (Covers(items, c) || ItemCovers(item, c))
    ensures forall c :: 0 <= c < 256 ==> marks[c] == Covers(items + [item], c)
  {
    forall c | 0 <= c < 256
      ensures marks[c] == Covers(items + [item], c)
    {
      CoversAppend(items, item, c);
    }
  }

  /** Reads a set character at `i`, decoding the escape sequence it may begin; -1 on a bad escape. */
  method ReadSetChar(regex: string, i: nat) returns (ch: int, last: nat)
    requires IsByteString(regex) && i < |regex|
    ensures SetChar(regex, i).None? <==> ch < 0
    ensures ch >= 0 ==> SetChar(regex, i) == Some((ch, last)) && ch < 256
  {
    ch := regex[i] as int;
    last := i;
    SetCharIsByte(regex, i);
    if ch == '\\' as int {
      var cht, len := Escape(regex, i + 1);
      if cht < 0 {
        return -1, i;
      }
      ch := cht;
      last := i + len;
    }
  }

  /** A bracket set of bytes parsed from `regex` at `i0`. */
  class Set {
    const data: array<bool>
    var parsedLen: int
    var polarity: bool

    predicate Includes(c: int)
      reads this, data
      requires 0 <= c < data.Length
    {
      parsedLen > 0 && polarity == data[c]
    }

    /** Marks every byte from `lo` to `hi`; none if `hi < lo`. */
    method MarkRange(lo: int, hi: int)
      requires data.Length == 256 && 0 <= lo && hi < 256
      modifies data
      ensures forall x :: 0 <= x < 256 ==> data[x] == (old(data[x]) || lo <= x <= hi)
    {
      var c := lo;
      while c <= hi
        invariant lo <= c && (c <= hi + 1 || c == lo)
        invariant forall x :: 0 <= x < 256 ==> data[x] == (old(data[x]) || lo <= x < c)
        decreases hi + 1 - c
      {
        data[c] := true;
        c := c + 1;
      }
    }

    /**
     * Reads the member that starts at `i` (not the closing `]`) and marks
     * its bytes; `ok` is false on a bad escape.
     */
    method MarkMember(regex: string, i: nat) returns (next: nat, ok: bool, ghost item: Item)
      requires IsByteString(regex) && i < |regex| && data.Length == 256
      modifies data
      ensures ok <==> ItemAt(regex, i).Some?
      ensures ok ==> ItemAt(regex, i) == Some((item, next))
      ensures ok ==> forall c :: 0 <= c < 256 ==> data[c] == (old(data[c]) || ItemCovers(item, c))
    {
      var ch1, last := ReadSetChar(regex, i);
      if ch1 < 0 {
        return i, false, Single(0);
      }
      next := last;
      if next + 2 >= |regex| || regex[next + 1] != '-' || regex[next + 2] == ']' {
        data[ch1] := true;
        item := Single(ch1);
      } else {
        next := next + 2;
        var ch2, last2 := ReadSetChar(regex, next);
        if ch2 < 0 {
          return next, false, Single(0);
        }
        next := last2;
        MarkRange(ch1, ch2);
        item := Range(ch1, ch2);
      }
      next := next + 1;
      ok := true;
    }

    /**
     * The member loop of the constructor: reads members from `start` up to
     * the closing `]`, marking them. Returns the position after the `]`, or
     * `closed == false` if the text ends first or an escape is bad.
     */
    method ScanMembers(regex: string, start: nat, ghost lead: seq<Item>) returns (end: nat, closed: bool)
      requires IsByteString(regex) && start <= |regex|
      requires data.Length == 256
      requires forall c :: 0 <= c < 256 ==> data[c] == Covers(lead, c)
      modifies data
      ensures closed <==> ItemsFrom(regex, start).Closed?
      ensures closed ==> end == ItemsFrom(regex, start).end
      ensures closed ==> forall c :: 0 <= c < 256 ==> data[c] == Covers(lead + ItemsFrom(regex, start).items, c)
    {
      var i := start;
      ghost var items := lead;
      assert Prepend(items, ItemsFrom(regex, i)) == Prepend(lead, ItemsFrom(regex, start));
      while i < |regex|
        invariant start <= i <= |regex|
        invariant Prepend(items, ItemsFrom(regex, i)) == Prepend(lead, ItemsFrom(regex, start))
        invariant forall c :: 0 <= c < 256 ==> data[c] == Covers(items, c)
        decreases |regex| - i
      {
        if regex[i] == ']' {
          assert ItemsFrom(regex, i) == Closed([], i + 1);
          assert items + [] == items;
          return i + 1, true;
        }
        ghost var at := i;
        ghost var item: Item;
        var ok;
        i, ok, item := MarkMember(regex, i);
        if !ok {
          return i, false;
        }
        MarkedItem(data[..], items, item);
        ItemStep(regex, at, items, item, i);
        items := items + [item];
      }
      return i, false;
    }

    constructor (regex: string, i0: nat)
      requires IsByteString(regex)
      ensures fresh(data) && data.Length == 256
      ensures parsedLen == SetLength(regex, i0)
      ensures forall c :: 0 <= c < 256 ==> Includes(c) == SetIncludes(regex, i0, c)
    {
      data := new bool[256](_ => false);
      parsedLen := 0;
      polarity := true;
      new;
      if i0 + 2 < |regex| && regex[i0] == '[' {
        var i: nat := i0 + 1;
        if regex[i] == '^' {
          i := i + 1;
          polarity := false;
        }
        ghost var lead: seq<Item> := [];
        if regex[i] == ']' {
          data[']' as int] := true;
          i := i + 1;
          lead := [Single(']' as int)];
        }
        LeadCovers(lead, data[..]);
        var end, closed := ScanMembers(regex, i, lead);
        SetMeaning(regex, i0, !polarity, lead, i, closed, end, data[..]);
        if closed {
          parsedLen := end - i0;
        }
      }
    }
  }

  /**
   * What the constructor's scan means: the set's length, and the bytes it
   * includes given the marks the members left.
   */
  lemma SetMeaning(regex: string, i0: nat, inverted: bool, lead: seq<Item>, i: nat, closed: bool, end: nat, marks: seq<bool>)
    requires i0 + 2 < |regex| && regex[i0] == '[' && inverted == (regex[i0 + 1] == '^')
    requires var i2 := if inverted then i0 + 2 else i0 + 1;
      lead == (if regex[i2] == ']' then [Single(']' as int)] else []) && i == i2 + |lead|
    requires |marks| == 256
    requires closed <==> ItemsFrom(regex, i).Closed?
    requires closed ==> end == ItemsFrom(regex, i).end
    requires closed ==> forall c :: 0 <= c < 256 ==> marks[c] == Covers(lead + ItemsFrom(regex, i).items, c)
    ensures SetLength(regex, i0) == if closed then end - i0 else 0
    ensures closed ==> end - i0 > 0
    ensures forall c :: 0 <= c < 256 ==> (SetIncludes(regex, i0, c) <==> closed && inverted != marks[c])
  {
    assert SetSyntax(regex, i0) == SetAfter(regex, i0, inverted, lead, i);
  }

  /** Marks that hold only the leading `]`, or nothing, are what the leading members cover. */
  lemma LeadCovers(lead: seq<Item>, marks: seq<bool>)
    requires lead == [] || lead == [Single(']' as int)]
    requires |marks| == 256 && forall c :: 0 <= c < 256 ==> marks[c] == (lead != [] && c == ']' as int)
    ensures forall c :: 0 <= c < 256 ==> marks[c] == Covers(lead, c)
  {
    forall c | 0 <= c < 256
      ensures marks[c] == Covers(lead, c)
    {
      if lead != [] { assert ItemCovers(lead[0], c) <==> c == ']' as int; }
    }
  }

  // ---------------------------------------------------------------------
  // The filter tables

  /** What happens to a character the filter does not list. */
  datatype DefaultAction = Discard | Leave | Mark

  /** A code of 256 or more and the code it becomes. */
  datatype Entry = Entry(code: int, newCode: int)

  predicate Ascending(t: seq<Entry>)
  {
    forall i, j :: 0 <= i < j < |t| ==> t[i].code < t[j].code
  }

  /** The new code the sparse table holds for `code`, if any: the first entry for it. */
  function Find(t: seq<Entry>, code: int): Option<int>
  {
    if t == [] then None
    else if t[0].code == code then Some(t[0].newCode)
    else Find(t[1..], code)
  }

  /** `Find` answers None exactly when no entry has the code, and otherwise the new code of an entry for it. */
  lemma {:induction false} FindSpec(t: seq<Entry>, code: int)
    ensures Find(t, code).None? <==> forall k :: 0 <= k < |t| ==> t[k].code != code
    ensures Find(t, code).Some? ==>
      exists k :: 0 <= k < |t| && t[k].code == code && t[k].newCode == Find(t, code).value
  {
    if t != [] && t[0].code != code {
      FindSpec(t[1..], code);
      assert forall k :: 1 <= k < |t| ==> t[k] == t[1..][k - 1];
      if Find(t, code).Some? {
        var k :| 0 <= k < |t| - 1 && t[1..][k].code == code && t[1..][k].newCode == Find(t, code).value;
        assert t[k + 1] == t[1..][k];
      }
    }
  }

  /** In an ascending table the entry for a code is the only one. */
  lemma FindUnique(t: seq<Entry>, k: nat)
    requires Ascending(t) && k < |t|
    ensures Find(t, t[k].code) == Some(t[k].newCode)
  {
    FindSpec(t, t[k].code);
  }

  /** The entries of a table with `e` inserted at `i`. */
  lemma InsertedAt(t: seq<Entry>, i: nat, e: Entry)
    requires i <= |t|
    ensures |t[..i] + [e] + t[i..]| == |t| + 1
    ensures forall k :: 0 <= k <= |t| ==>
      (t[..i] + [e] + t[i..])[k] == if k < i then t[k] else if k == i then e else t[k - 1]
  {
  }

  lemma InsertAscending(t: seq<Entry>, i: nat, e: Entry)
    requires Ascending(t) && i <= |t|
    requires forall k :: 0 <= k < i ==> t[k].code < e.code
    requires forall k :: i <= k < |t| ==> t[k].code > e.code
    ensures Ascending(t[..i] + [e] + t[i..])
  {
    InsertedAt(t, i, e);
  }

  /** Inserting an entry at its place keeps the table ascending and adds only its mapping. */
  lemma FindInsert(t: seq<Entry>, i: nat, e: Entry, c: int)
    requires Ascending(t) && i <= |t|
    requires forall k :: 0 <= k < i ==> t[k].code < e.code
    requires forall k :: i <= k < |t| ==> t[k].code > e.code
    ensures Ascending(t[..i] + [e] + t[i..])
    ensures Find(t[..i] + [e] + t[i..], c) == if c == e.code then Some(e.newCode) else Find(t, c)
  {
    InsertAscending(t, i, e);
    var u := t[..i] + [e] + t[i..];
    InsertedAt(t, i, e);
    if c == e.code {
      FindUnique(u, i);
    } else {
      FindSpec(t, c);
      FindSpec(u, c);
      if Find(t, c).Some? {
        var k :| 0 <= k < |t| && t[k].code == c && t[k].newCode == Find(t, c).value;
        FindUnique(t, k);
        FindUnique(u, if k < i then k else k + 1);
      } else {
        assert forall k :: 0 <= k < |u| ==> u[k].code != c;
      }
    }
  }

  /** Replacing the new code of an entry changes only its mapping. */
  lemma FindReplace(t: seq<Entry>, i: nat, nc: int, c: int)
    requires Ascending(t) && i < |t|
    ensures Ascending(t[i := Entry(t[i].code, nc)])
    ensures Find(t[i := Entry(t[i].code, nc)], c) == if c == t[i].code then Some(nc) else Find(t, c)
  {
    var u := t[i := Entry(t[i].code, nc)];
    if c == t[i].code {
      FindUnique(u, i);
    } else {
      FindSpec(t, c);
      FindSpec(u, c);
      if Find(t, c).Some? {
        var k :| 0 <= k < |t| && t[k].code == c;
        FindUnique(t, k);
        FindUnique(u, k);
      }
    }
  }

  class UserFilter {
    /** -1 or the new code of each of the first 256 codes. */
    const table1: array<int>
    /** The codes of 256 and more, ascending. */
    var table2: seq<Entry>
    var retval: int
    var defaultAction: DefaultAction

    ghost predicate Valid()
      reads this, table1
    {
      table1.Length == 256 &&
      (forall c :: 0 <= c < 256 ==> table1[c] == -1 || 0 <= table1[c] <= 0xFFFF) &&
      Ascending(table2) &&
      (forall k :: 0 <= k < |table2| ==>
         256 <= table2[k].code <= 0xFFFF && 0 <= table2[k].newCode <= 0xFFFF)
    }

    /** The new code stored for `code`, or -1 if it is not listed. */
    function Lookup(code: int): int
      reads this, table1
      requires table1.Length == 256
    {
      if code < 0 then -1
      else if code < 256 then table1[code]
      else match Find(table2, code)
        case Some(v) => v
        case None => -1
    }

    /** The code a character becomes: its listed code, itself under `leave`, or -1 (disabled). */
    function NewCode(code: int): int
      reads this, table1
      requires table1.Length == 256
    {
      var r := Lookup(code);
      if r < 0 && defaultAction == Leave then code else r
    }

    predicate Discards() reads this { defaultAction == Discard }

    predicate Marks() reads this { defaultAction == Mark }

    /** Stores `code` (256 or more) in the ascending table, replacing an entry for the same code. */
    method StoreHigh(code: int, nc: int)
      requires Valid() && 256 <= code <= 0xFFFF && 0 <= nc <= 0xFFFF
      modifies this
      ensures Valid()
      ensures retval == old(retval) && defaultAction == old(defaultAction)
      ensures forall c :: Find(table2, c) == (if c == code then Some(nc) else old(Find(table2, c)))
    {
      var i := |table2|;
      while i > 0 && table2[i - 1].code > code
        invariant 0 <= i <= |table2|
        invariant forall k :: i <= k < |table2| ==> table2[k].code > code
        decreases i
      {
        i := i - 1;
      }
      if i == 0 || table2[i - 1].code < code {
        var e := Entry(code, nc);
        forall c | true
          ensures Find(table2[..i] + [e] + table2[i..], c) ==
                  if c == code then Some(nc) else Find(table2, c)
        {
          FindInsert(table2, i, e, c);
        }
        InsertAscending(table2, i, e);
        var u := table2[..i] + [e] + table2[i..];
        assert forall k :: 0 <= k < |u| ==> u[k] == e || u[k] in table2;
        table2 := u;
      } else {
        forall c | true
          ensures Find(table2[i - 1 := Entry(code, nc)], c) ==
                  if c == code then Some(nc) else Find(table2, c)
        {
          FindReplace(table2, i - 1, nc, c);
        }
        FindReplace(table2, i - 1, nc, code);
        table2 := table2[i - 1 := Entry(code, nc)];
      }
    }

    /**
     * Lists `code` as becoming `newCode` (or itself when `newCode` is out of
     * range); false for a code outside 0..0xFFFF.
     */
    method EnableChar(code: int, newCode: int) returns (ok: bool)
      requires Valid()
      modifies this, table1
      ensures Valid()
      ensures ok <==> 0 <= code <= 0xFFFF
      ensures retval == old(retval) && defaultAction == old(defaultAction)
      ensures forall c ::
                Lookup(c) == if ok && c == code then (if 0 <= newCode <= 0xFFFF then newCode else code)
                             else old(Lookup(c))
      ensures !ok ==> unchanged(this) && unchanged(table1)
      ensures code < 256 ==> table2 == old(table2)
      ensures !(0 <= code < 256) ==> table1[..] == old(table1[..])
    {
      if code < 0 || code > 0xFFFF {
        return false;
      }
      var nc := newCode;
      if nc < 0 || nc > 0xFFFF {
        nc := code;
      }
      if code < 256 {
        table1[code] := nc;
      } else {
        StoreHigh(code, nc);
      }
      return true;
    }

    method GetNewCode(code: int) returns (r: int)
      requires Valid()
      ensures r == NewCode(code)
    {
      r := -1;
      if code >= 0 {
        if code < 256 {
          r := table1[code];
        } else {
          FindSpec(table2, code);
          for i := 0 to |table2|
            invariant r == -1
            invariant forall k :: 0 <= k < i ==> table2[k].code != code
          {
            if code == table2[i].code {
              FindUnique(table2, i);
              r := table2[i].newCode;
              break;
            }
          }
        }
      }
      if r < 0 && defaultAction == Leave {
        r := code;
      }
    }

    /** Reads a character token at `i`: its code (or -1) and the position reached. */
    static method ParseChar(line: string, i: nat, ucs: UcsTables) returns (code: int, j: nat)
      requires i <= |line|
      ensures (code, j) == CharTokenOf(line, i, ucs)
    {
      code := -1;
      j := i;
      while j < |line| && IsCSpace(line[j])
        invariant i <= j <= |line|
        invariant SkipSpaces(line, j) == SkipSpaces(line, i)
        decreases |line| - j
      {
        j := j + 1;
      }
      ghost var i1 := j;
      code, j := ReadCharForm(line, j, ucs);
      assert (code, j) == CharForm(line, i1, ucs);
      if code >= 0 {
        ghost var i2 := j;
        while j < |line| && IsCSpace(line[j])
          invariant i2 <= j <= |line|
          invariant SkipSpaces(line, j) == SkipSpaces(line, i2)
          decreases |line| - j
        {
          j := j + 1;
        }
        if j < |line| && line[j] != ',' && line[j] != '-' {
          code := -1;
        }
      }
    }
  
    /**
     * Looks for the `=target` suffix and enables the target as mapping to
     * itself. Returns the target (or -1) and the length of the line before
     * the `=`.
     */
    method ParseTarget(line: string, ucs: UcsTables) returns (newCode: int, rulesLen: nat)
      requires Valid()
      modifies this, table1
      ensures Valid() && retval == old(retval) && defaultAction == old(defaultAction)
      ensures (newCode, rulesLen) == TargetOf(line, ucs)
      ensures forall c :: Lookup(c) == if newCode >= 0 && c == newCode then newCode else old(Lookup(c))
    {
      newCode, rulesLen := FindTarget(line, ucs, TargetCodes(line, ucs));
      if newCode >= 0 {
        var ok := EnableChar(newCode, newCode);
      }
    }

    /**
     * The search for the target: the last `=`, then the one before it, must
     * be followed by exactly one character token whose code the tables can
     * hold (the only case in which enabling it succeeds).
     */
    static method FindTarget(line: string, ucs: UcsTables, ghost codes: seq<int>) returns (newCode: int, rulesLen: nat)
      requires codes == TargetCodes(line, ucs)
      ensures (newCode, rulesLen) == TargetFrom(line, ToUnsigned(|line| - 1), 2, codes)
    {
      newCode := -1;
      rulesLen := |line|;
      var equ: nat := |line|;
      var pos := ToUnsigned(equ - 1);
      var j := 0;
      while j < 2
        invariant 0 <= j <= 2 && newCode == -1 && rulesLen == |line|
        invariant TargetFrom(line, ToUnsigned(|line| - 1), 2, codes) == TargetFrom(line, pos, 2 - j, codes)
      {
        var e := RFind(line, '=', pos);
        if e.None? {
          TargetFromNone(line, pos, 2 - j, codes);
          break;
        }
        equ := e.value;
        var tmp := TryTarget(line, equ, ucs, codes);
        if tmp >= 0 {
          TargetFromHit(line, pos, 2 - j, codes, equ);
          newCode := tmp;
          rulesLen := equ;
          break;
        }
        TargetFromSkip(line, pos, 2 - j, codes, equ);
        pos := ToUnsigned(equ - 1);
        j := j + 1;
      }
    }

    /** The code the `=` at `equ` names: the one character token after it, or -1. */
    static method TryTarget(line: string, equ: nat, ucs: UcsTables, ghost codes: seq<int>) returns (target: int)
      requires equ < |line| && codes == TargetCodes(line, ucs)
      ensures target == codes[equ]
    {
      target := -1;
      var tmp, i := ParseChar(line, equ + 1, ucs);
      if tmp >= 0 && i == |line| && tmp <= 0xFFFF {
        target := tmp;
      }
    }

    /** Enables every code from `lo` to `hi`; false at the first code the tables cannot hold. */
    method EnableRange(lo: int, hi: int, newCode: int) returns (ok: bool)
      requires Valid() && lo >= 0 && (newCode == -1 || 0 <= newCode <= 0xFFFF)
      modifies this, table1
      ensures Valid() && retval == old(retval) && defaultAction == old(defaultAction)
      ensures ok <==> hi < lo || hi <= 0xFFFF
      ensures ok ==> forall c :: Lookup(c) == if lo <= c <= hi then Mapped(newCode, c) else old(Lookup(c))
      ensures forall c :: Lookup(c) == old(Lookup(c)) || Lookup(c) == Mapped(newCode, c)
    {
      ok := true;
      var j := lo;
      while j <= hi
        invariant lo <= j && (j <= 0x10000 || j == lo)
        invariant j <= hi + 1 || j == lo
        invariant Valid() && retval == old(retval) && defaultAction == old(defaultAction)
        invariant forall c :: Lookup(c) == if lo <= c < j then Mapped(newCode, c) else old(Lookup(c))
        decreases hi - j
      {
        ok := EnableChar(j, newCode);
        if !ok {
          break;
        }
        j := j + 1;
      }
    }

    /** Enables every byte a parsed set includes. */
    method EnableSet(members: Set, newCode: int)
      requires Valid() && members.data.Length == 256
      requires newCode == -1 || 0 <= newCode <= 0xFFFF
      modifies this, table1
      ensures Valid() && retval == old(retval) && defaultAction == old(defaultAction)
      ensures forall c :: Lookup(c) == if 0 <= c < 256 && members.Includes(c) then Mapped(newCode, c) else old(Lookup(c))
    {
      for c := 0 to 256
        invariant Valid() && retval == old(retval) && defaultAction == old(defaultAction)
        invariant forall x :: Lookup(x) == if 0 <= x < c && members.Includes(x) then Mapped(newCode, x) else old(Lookup(x))
      {
        if members.Includes(c) {
          var ok := EnableChar(c, newCode);
        }
      }
    }

    /**
     * Reads and enables the token at `i` (spaces already skipped): a set, a
     * character or a range. Sets `retval` to 2 on a syntax error.
     */
    method ParseToken(rules: string, i: nat, newCode: int, ucs: UcsTables) returns (next: nat)
      requires Valid() && retval == 0 && IsByteString(rules) && i < |rules|
      requires newCode == -1 || 0 <= newCode <= 0xFFFF
      modifies this, table1
      ensures Valid() && defaultAction == old(defaultAction)
      ensures retval == if TokenAt(rules, i, ucs).Some? then 0 else 2
      ensures next <= |rules|
      ensures retval == 0 ==> next == TokenAt(rules, i, ucs).value.1
      ensures retval == 0 ==>
        forall c :: Lookup(c) ==
          if TokenCovers(TokenAt(rules, i, ucs).value.0, c) then Mapped(newCode, c) else old(Lookup(c))
      ensures forall c :: Lookup(c) == old(Lookup(c)) || Lookup(c) == Mapped(newCode, c)
    {
      next := i;
      if rules[i] == '[' {
        var members := new Set(rules, i);
        if members.parsedLen == 0 {
          retval := 2;
          return;
        }
        next := i + members.parsedLen;
        EnableSet(members, newCode);
      } else if rules[i] == '\'' || rules[i] == 'U' {
        next := ParseCharOrRange(rules, i, newCode, ucs);
      } else {
        retval := 2;
      }
    }

    /** Reads and enables a character, or a range of two characters, at `i`. */
    method ParseCharOrRange(rules: string, i: nat, newCode: int, ucs: UcsTables) returns (next: nat)
      requires Valid() && retval == 0 && i < |rules| && (rules[i] == '\'' || rules[i] == 'U')
      requires newCode == -1 || 0 <= newCode <= 0xFFFF
      modifies this, table1
      ensures Valid() && defaultAction == old(defaultAction)
      ensures retval == if TokenAt(rules, i, ucs).Some? then 0 else 2
      ensures next <= |rules|
      ensures retval == 0 ==> next == TokenAt(rules, i, ucs).value.1
      ensures retval == 0 ==>
        forall c :: Lookup(c) ==
          if TokenCovers(TokenAt(rules, i, ucs).value.0, c) then Mapped(newCode, c) else old(Lookup(c))
      ensures forall c :: Lookup(c) == old(Lookup(c)) || Lookup(c) == Mapped(newCode, c)
    {
      TokenAtChar(rules, i, ucs);
      var code;
      code, next := ParseChar(rules, i, ucs);
      if code < 0 {
        assert TokenAt(rules, i, ucs).None?;
        retval := 2;
        return;
      }
      var ok := EnableChar(code, newCode);
      if !ok {
        assert TokenAt(rules, i, ucs).None?;
        retval := 2;
        return;
      }
      assert forall c :: Lookup(c) == if c == code then Mapped(newCode, c) else old(Lookup(c));
      if next < |rules| && rules[next] == '-' {
        assert TokenAt(rules, i, ucs) == RangeAt(rules, code, next, ucs);
        next := ParseRangeEnd(rules, next, code, newCode, ucs);
      } else {
        assert TokenAt(rules, i, ucs) == Some((CharToken(code), next));
      }
    }

    /** Reads the upper end of a range whose lower end `lo` is enabled, and enables the rest of it. */
    method ParseRangeEnd(rules: string, j: nat, lo: int, newCode: int, ucs: UcsTables) returns (next: nat)
      requires Valid() && retval == 0 && j < |rules| && rules[j] == '-' && 0 <= lo <= 0xFFFF
      requires newCode == -1 || 0 <= newCode <= 0xFFFF
      modifies this, table1
      ensures Valid() && defaultAction == old(defaultAction)
      ensures retval == if RangeAt(rules, lo, j, ucs).Some? then 0 else 2
      ensures next <= |rules|
      ensures retval == 0 ==> next == RangeAt(rules, lo, j, ucs).value.1
      ensures retval == 0 ==>
        forall c :: Lookup(c) ==
          if lo < c <= RangeAt(rules, lo, j, ucs).value.0.hi then Mapped(newCode, c) else old(Lookup(c))
      ensures forall c :: Lookup(c) == old(Lookup(c)) || Lookup(c) == Mapped(newCode, c)
    {
      var hi;
      hi, next := ParseChar(rules, j + 1, ucs);
      if hi <= lo {
        retval := 2;
        return;
      }
      var ok := EnableRange(lo + 1, hi, newCode);
      if !ok {
        retval := 2;
      }
    }

    /** Reads and enables the rules of one line; `retval` becomes 2 on a syntax error. */
    method ParseRules(rules: string, newCode: int, ucs: UcsTables)
      requires Valid() && retval == 0 && IsByteString(rules)
      requires newCode == -1 || 0 <= newCode <= 0xFFFF
      modifies this, table1
      ensures Valid() && defaultAction == old(defaultAction)
      ensures retval == if LineTokens(rules, 0, ucs).Some? then 0 else 2
      ensures retval == 0 ==>
        forall c :: Lookup(c) ==
          if TokensCover(LineTokens(rules, 0, ucs).value, c) then Mapped(newCode, c) else old(Lookup(c))
      ensures forall c :: Lookup(c) == old(Lookup(c)) || Lookup(c) == Mapped(newCode, c)
    {
      var i: nat := 0;
      ghost var done: seq<Token> := [];
      assert Extend(done, LineTokens(rules, 0, ucs)) == LineTokens(rules, 0, ucs) by {
        if LineTokens(rules, 0, ucs).Some? {
          assert [] + LineTokens(rules, 0, ucs).value == LineTokens(rules, 0, ucs).value;
        }
      }
      while retval == 0
        invariant i <= |rules|
        invariant Valid() && defaultAction == old(defaultAction)
        invariant retval == 0 || retval == 2
        invariant retval == 0 ==> Extend(done, LineTokens(rules, i, ucs)) == LineTokens(rules, 0, ucs)
        invariant retval == 2 ==> LineTokens(rules, 0, ucs).None?
        invariant retval == 0 ==>
          forall c :: Lookup(c) == if TokensCover(done, c) then Mapped(newCode, c) else old(Lookup(c))
        invariant forall c :: Lookup(c) == old(Lookup(c)) || Lookup(c) == Mapped(newCode, c)
        decreases |rules| - i, retval
      {
        ghost var i0 := i;
        LineTokensUnfold(rules, i0, ucs);
        while i < |rules| && IsCSpace(rules[i])
          invariant i0 <= i <= |rules|
          invariant SkipSpaces(rules, i) == SkipSpaces(rules, i0)
          decreases |rules| - i
        {
          i := i + 1;
        }
        assert i == SkipSpaces(rules, i0);
        if i >= |rules| {
          assert done + [] == done;
          break;
        }
        var next := ParseToken(rules, i, newCode, ucs);
        if retval != 0 {
          break;
        }
        ghost var t := TokenAt(rules, i, ucs).value.0;
        ghost var rest := LineTokens(rules, AfterComma(rules, next), ucs);
        assert LineTokens(rules, i0, ucs) == Cons(t, rest);
        ExtendCons(done, t, rest);
        TokensCoverAppend(done, t);
        done := done + [t];
        i := next;
        if i < |rules| && rules[i] == ',' {
          i := i + 1;
        }
        assert i == AfterComma(rules, next);
      }
    }

    /** Reads one line of a filter file: a `leave` or `mark` default, or rules. */
    method ParseLine(line: string, ucs: UcsTables)
      requires Valid() && retval == 0 && IsByteString(line)
      modifies this, table1
      ensures Valid()
      ensures Classify(line, ucs).DefaultLine? ==>
        retval == (if old(defaultAction) == Discard then 0 else 2) &&
        defaultAction == (if old(defaultAction) == Discard then Classify(line, ucs).action else old(defaultAction)) &&
        forall c :: Lookup(c) == old(Lookup(c))
      ensures Classify(line, ucs).RuleLine? ==>
        defaultAction == old(defaultAction) && retval == (if Classify(line, ucs).tokens.Some? then 0 else 2)
      ensures Classify(line, ucs).RuleLine? && retval == 0 ==>
        forall c :: Lookup(c) == LineLookup(Classify(line, ucs), c, old(Lookup(c)))
      ensures Classify(line, ucs).RuleLine? ==>
        forall c :: Lookup(c) == old(Lookup(c)) || Lookup(c) == Mapped(Classify(line, ucs).target, c)
    {
      if line == "leave" {
        if defaultAction == Discard {
          defaultAction := Leave;
        } else {
          retval := 2;
        }
        return;
      } else if line == "mark" {
        if defaultAction == Discard {
          defaultAction := Mark;
        } else {
          retval := 2;
        }
        return;
      }
      var newCode, rulesLen := ParseTarget(line, ucs);
      ParseRules(line[..rulesLen], newCode, ucs);
    }

    /**
     * Builds a filter from the lines of a file (comments, blank lines and
     * surrounding spaces already removed), stopping at the first error.
     */
    constructor (lines: seq<string>, ucs: UcsTables)
      requires forall k :: 0 <= k < |lines| ==> IsByteString(lines[k])
      ensures Valid()
      ensures retval == FileStatus(Classified(lines, ucs), Discard)
      ensures retval == 0 ==> defaultAction == FinalDefault(Classified(lines, ucs), Discard)
      ensures retval == 0 ==> forall c :: Lookup(c) == FileLookup(Classified(lines, ucs), c, -1)
    {
      table1 := new int[256](_ => -1);
      table2 := [];
      retval := 0;
      defaultAction := Discard;
      new;
      ghost var kinds := Classified(lines, ucs);
      var k := 0;
      while retval == 0 && k < |lines|
        invariant 0 <= k <= |lines|
        invariant Valid()
        invariant retval == 0 || retval == 2
        invariant retval == 0 ==> FileStatus(kinds, Discard) == FileStatus(kinds[k..], defaultAction)
        invariant retval == 2 ==> FileStatus(kinds, Discard) == 2
        invariant retval == 0 ==> FinalDefault(kinds, Discard) == FinalDefault(kinds[k..], defaultAction)
        invariant retval == 0 ==>
          forall c :: FileLookup(kinds, c, -1) == FileLookup(kinds[k..], c, Lookup(c))
        decreases |lines| - k
      {
        assert kinds[k..][0] == Classify(lines[k], ucs);
        assert kinds[k..][1..] == kinds[k + 1..];
        ParseLine(lines[k], ucs);
        k := k + 1;
      }
    }
  }

  /** The value of the four hexadecimal digits after `line[j]`, or -1. */
  method ReadHex4(line: string, j: nat) returns (code: int)
    requires j + 4 < |line|
    ensures code == HexValue(line[j + 1..j + 5])
  {
    code := 0;
    var k := 1;
    while k <= 4
      invariant 1 <= k <= 5
      invariant code >= 0 && code == HexValue(line[j + 1..j + k])
      decreases 5 - k
    {
      var d := XValue(line[j + k]);
      assert line[j + 1..j + k + 1][..k - 1] == line[j + 1..j + k];
      if d < 0 {
        assert line[j + 1..j + 5][k - 1] == line[j + k];
        assert HexValue(line[j + 1..j + 5]) == -1;
        code := -1;
        break;
      }
      code := code * 16 + d;
      k := k + 1;
    }
  }

  /** Reads a `'X'`, `'\\esc'` or `UXXXX` character at `i`, skipping no spaces. */
  method ReadCharForm(line: string, i: nat, ucs: UcsTables) returns (code: int, j: nat)
    requires i <= |line|
    ensures (code, j) == CharForm(line, i, ucs)
  {
    code := -1;
    j := i;
    if j + 2 < |line| && line[j] == '\'' {
      if line[j + 1] == '\\' {
        var cht, l := Escape(line, j + 2);
        if cht >= 0 && j + 2 + l < |line| && line[j + 2 + l] == '\'' {
          code := ucs.mapToUcs(cht);
          j := j + 3 + l;
        }
      } else if line[j + 2] == '\'' {
        code := ucs.mapToUcs(line[j + 1] as int);
        j := j + 3;
      }
    } else if j + 4 < |line| && line[j] == 'U' {
      code := ReadHex4(line, j);
      if code >= 0 {
        j := j + 5;
      }
    }
  }

  // ---------------------------------------------------------------------
  // Filter files as specification functions

  function Extend(done: seq<Token>, r: Option<seq<Token>>): Option<seq<Token>>
  {
    match r
    case None => None
    case Some(ts) => Some(done + ts)
  }

  lemma ExtendCons(done: seq<Token>, t: Token, r: Option<seq<Token>>)
    ensures Extend(done + [t], r) == Extend(done, Cons(t, r))
  {
    if r.Some? {
      assert done + [t] + r.value == done + ([t] + r.value);
    }
  }

  lemma TokensCoverAppend(ts: seq<Token>, t: Token)
    ensures forall c :: TokensCover(ts + [t], c) <==> TokensCover(ts, c) || TokenCovers(t, c)
  {
    forall c
      ensures TokensCover(ts + [t], c) <==> TokensCover(ts, c) || TokenCovers(t, c)
    {
      if TokensCover(ts, c) {
        var k :| 0 <= k < |ts| && TokenCovers(ts[k], c);
        assert (ts + [t])[k] == ts[k];
      }
      if TokenCovers(t, c) {
        assert (ts + [t])[|ts|] == t;
      }
    }
  }

  /** What a line of a filter file says: a default action, or rules with a target (-1 if none). */
  datatype LineKind =
    | DefaultLine(action: DefaultAction)
    | RuleLine(target: int, tokens: Option<seq<Token>>)

  function Classify(line: string, ucs: UcsTables): (k: LineKind)
    ensures k.DefaultLine? ==> k.action != Discard
    ensures k.RuleLine? ==> k.target == -1 || 0 <= k.target <= 0xFFFF
  {
    if line == "leave" then DefaultLine(Leave)
    else if line == "mark" then DefaultLine(Mark)
    else RuleLine(TargetOf(line, ucs).0, LineTokens(RulesOf(line, ucs), 0, ucs))
  }

  function Classified(lines: seq<string>, ucs: UcsTables): (kinds: seq<LineKind>)
    ensures |kinds| == |lines|
    ensures forall k :: 0 <= k < |lines| ==> kinds[k] == Classify(lines[k], ucs)
  {
    seq(|lines|, k requires 0 <= k < |lines| => Classify(lines[k], ucs))
  }

  /**
   * The code `c` maps to after a line, given what it mapped to before: a
   * code the rules or the target of an accepted rule line name maps to the
   * target (or to itself), any other keeps its mapping.
   */
  function LineLookup(kind: LineKind, c: int, prior: int): int
  {
    if Touches(kind, c) then Mapped(kind.target, c) else prior
  }

  /** True if the rules or the target of an accepted rule line name code `c`. */
  predicate Touches(kind: LineKind, c: int)
  {
    kind.RuleLine? && kind.tokens.Some? &&
    (TokensCover(kind.tokens.value, c) || (kind.target >= 0 && c == kind.target))
  }

  /** 0 if every line of a file is accepted with default `d` so far, 2 at the first error. */
  function FileStatus(kinds: seq<LineKind>, d: DefaultAction): (status: int)
    ensures status == 0 || status == 2
    ensures status == 0 ==> forall k :: 0 <= k < |kinds| && kinds[k].RuleLine? ==> kinds[k].tokens.Some?
    decreases |kinds|
  {
    if kinds == [] then 0
    else match kinds[0]
      case DefaultLine(a) => if d != Discard then 2 else FileStatus(kinds[1..], a)
      case RuleLine(_, tokens) => if tokens.None? then 2 else FileStatus(kinds[1..], d)
  }

  /** The default action at the end of an accepted file: the one a `leave` or `mark` line set, if any. */
  function FinalDefault(kinds: seq<LineKind>, d: DefaultAction): DefaultAction
    decreases |kinds|
  {
    if kinds == [] then d
    else FinalDefault(kinds[1..], if kinds[0].DefaultLine? && d == Discard then kinds[0].action else d)
  }

  /** The code `c` maps to after the lines of an accepted file, starting from `prior`. */
  function FileLookup(kinds: seq<LineKind>, c: int, prior: int): (r: int)
    ensures r == prior || exists k :: 0 <= k < |kinds| && Touches(kinds[k], c) && r == Mapped(kinds[k].target, c)
    decreases |kinds|
  {
    if kinds == [] then prior
    else
      var r := FileLookup(kinds[1..], c, LineLookup(kinds[0], c, prior));
      assert r != LineLookup(kinds[0], c, prior) ==>
        exists k :: 1 <= k < |kinds| && Touches(kinds[k], c) && r == Mapped(kinds[k].target, c) by {
        if r != LineLookup(kinds[0], c, prior) {
          var k :| 0 <= k < |kinds[1..]| && Touches(kinds[1..][k], c) && r == Mapped(kinds[1..][k].target, c);
          assert kinds[1..][k] == kinds[k + 1];
        }
      }
      r
  }

  // ---------------------------------------------------------------------
  // Properties of filter files

  /** The target of an accepted line is enabled as mapping to itself. */
  lemma TargetMapsToItself(line: string, ucs: UcsTables, prior: int)
    requires Classify(line, ucs).RuleLine? && Classify(line, ucs).tokens.Some?
    requires TargetOf(line, ucs).0 >= 0
    ensures var target := TargetOf(line, ucs).0;
      LineLookup(Classify(line, ucs), target, prior) == target
  {
  }

  /** A code that no line of a file names keeps the mapping it had. */
  lemma {:induction false} UntouchedKeepsPrior(kinds: seq<LineKind>, c: int, prior: int)
    requires forall k :: 0 <= k < |kinds| ==> !Touches(kinds[k], c)
    ensures FileLookup(kinds, c, prior) == prior
    decreases |kinds|
  {
    if kinds != [] {
      assert !Touches(kinds[0], c);
      assert forall k :: 0 <= k < |kinds| - 1 ==> kinds[1..][k] == kinds[k + 1];
      UntouchedKeepsPrior(kinds[1..], c, prior);
    }
  }

  /** The last line that names a code decides what it maps to: rules later in a file override earlier ones. */
  lemma {:induction false} LastTouchWins(kinds: seq<LineKind>, c: int, prior: int, k: nat)
    requires k < |kinds| && Touches(kinds[k], c)
    requires forall m :: k < m < |kinds| ==> !Touches(kinds[m], c)
    ensures FileLookup(kinds, c, prior) == Mapped(kinds[k].target, c)
    decreases k
  {
    assert forall m :: 0 <= m < |kinds| - 1 ==> kinds[1..][m] == kinds[m + 1];
    if k == 0 {
      UntouchedKeepsPrior(kinds[1..], c, LineLookup(kinds[0], c, prior));
    } else {
      LastTouchWins(kinds[1..], c, LineLookup(kinds[0], c, prior), k - 1);
    }
  }

  /** Once a default is set, a later `leave` or `mark` line is an error. */
  lemma {:induction false} DefaultAlreadySet(kinds: seq<LineKind>, d: DefaultAction, j: nat)
    requires d != Discard && j < |kinds| && kinds[j].DefaultLine?
    ensures FileStatus(kinds, d) == 2
    decreases j
  {
    if j > 0 && kinds[0].RuleLine? && kinds[0].tokens.Some? {
      assert kinds[1..][j - 1] == kinds[j];
      DefaultAlreadySet(kinds[1..], d, j - 1);
    }
  }

  /** `leave` and `mark` together may appear at most once in a file. */
  lemma {:induction false} DefaultAtMostOnce(kinds: seq<LineKind>, d: DefaultAction, i: nat, j: nat)
    requires i < j < |kinds| && kinds[i].DefaultLine? && kinds[j].DefaultLine?
    requires forall k :: 0 <= k < |kinds| && kinds[k].DefaultLine? ==> kinds[k].action != Discard
    ensures FileStatus(kinds, d) == 2
    decreases i
  {
    var rest := kinds[1..];
    assert rest[j - 1] == kinds[j];
    if kinds[0].DefaultLine? {
      if d == Discard {
        DefaultAlreadySet(rest, kinds[0].action, j - 1);
      }
    } else if kinds[0].tokens.Some? {
      assert i > 0 && rest[i - 1] == kinds[i];
      forall k | 0 <= k < |rest| && rest[k].DefaultLine?
        ensures rest[k].action != Discard
      {
        assert rest[k] == kinds[k + 1];
      }
      DefaultAtMostOnce(rest, d, i - 1, j - 1);
    }
  }

  /** A file with two `leave`/`mark` lines is rejected. */
  lemma TwoDefaultLinesRejected(lines: seq<string>, ucs: UcsTables, i: nat, j: nat)
    requires i < j < |lines| && lines[i] in {"leave", "mark"} && lines[j] in {"leave", "mark"}
    ensures FileStatus(Classified(lines, ucs), Discard) == 2
  {
    var kinds := Classified(lines, ucs);
    DefaultAtMostOnce(kinds, Discard, i, j);
  }
}
