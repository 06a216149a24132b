// The ISO-8859 escape decoder used by the user-filter language: the value
// of a backslash escape sequence and of a hexadecimal digit.
//
// Text is a `string` whose characters stand for the bytes of a C++
// `std::string`, read as unsigned values: `char` is taken to be unsigned.
// Where `char` is signed, a byte of 0x80 or more after a backslash is
// sign-extended and decodes to a negative code; that case is not modelled.

module Iso8859 {
  import opened Common

  /** True for an octal digit. */
  predicate IsODigit(ch: char)
  {
    '0' <= ch <= '7'
  }

  /** The value of a hexadecimal digit, or -1. */
  function XValue(ch: char): (v: int)
    ensures -1 <= v <= 15
    ensures '0' <= ch <= '9' ==> v == ch as int - '0' as int
    ensures 'a' <= ch <= 'f' ==> v == ch as int - 'a' as int + 10
    ensures 'A' <= ch <= 'F' ==> v == ch as int - 'A' as int + 10
    ensures v == -1 <==> !('0' <= ch <= '9' || 'a' <= ch <= 'f' || 'A' <= ch <= 'F')
  {
    if '0' <= ch <= '9' then ch as int - '0' as int
    else if 'a' <= ch <= 'f' then ch as int - 'a' as int + 10
    else if 'A' <= ch <= 'F' then ch as int - 'A' as int + 10
    else -1
  }

  /** The single-letter escapes and the control codes they stand for. */
  const LetterEscapes: map<char, int> :=
    map['a' := 7, 'b' := 8, 'e' := 27, 'f' := 12, 'n' := 10, 'r' := 13, 't' := 9, 'v' := 11]

  /** How many characters an octal escape starting at `i` takes: its digit run, at most 3. */
  function OctalRunLength(s: string, i: nat): (n: nat)
    requires i < |s| && IsODigit(s[i])
    ensures 1 <= n <= 3 && i + n <= |s|
    ensures forall k :: i <= k < i + n ==> IsODigit(s[k])
    ensures n < 3 && i + n < |s| ==> !IsODigit(s[i + n])
  {
    if i + 1 < |s| && IsODigit(s[i + 1]) then
      (if i + 2 < |s| && IsODigit(s[i + 2]) then 3 else 2)
    else 1
  }

  /** The value of a string of octal digits. */
  function OctalValue(digits: string): nat
    requires forall k :: 0 <= k < |digits| ==> IsODigit(digits[k])
  {
    if digits == [] then 0
    else
      assert IsODigit(digits[|digits| - 1]);
      8 * OctalValue(digits[..|digits| - 1]) + (digits[|digits| - 1] as int - '0' as int)
  }

  /**
   * The code and the length of the escape sequence that begins at `s[i]`
   * (the characters after a backslash); the code is -1 and the length 0 on
   * error.
   */
  function EscapeOf(s: string, i: nat): (r: (int, nat))
    ensures r.0 == -1 <==> r.1 == 0
    ensures r.0 != -1 ==> r.0 >= 0 && 1 <= r.1 <= 3 && i + r.1 <= |s|
  {
    if i >= |s| then (-1, 0)
    else if s[i] in LetterEscapes then (LetterEscapes[s[i]], 1)
    else if IsODigit(s[i]) then
      var n := OctalRunLength(s, i);
      var v := OctalValue(s[i..i + n]);
      if v > 255 then (-1, 0) else (v, n)
    else if s[i] == 'x' || s[i] == 'X' then
      if i + 2 >= |s| || XValue(s[i + 1]) < 0 || XValue(s[i + 2]) < 0 then (-1, 0)
      else (16 * XValue(s[i + 1]) + XValue(s[i + 2]), 3)
    else (s[i] as int, 1)
  }

  /** Decodes the escape sequence that begins at `s[i]`. */
  method Escape(s: string, i: nat) returns (code: int, len: nat)
    ensures (code, len) == EscapeOf(s, i)
  {
    if i >= |s| {
      return -1, 0;
    }
    len := 1;
    var ch := s[i] as int;
    match s[i] {
      case 'a' => ch := 7;
      case 'b' => ch := 8;
      case 'e' => ch := 27;
      case 'f' => ch := 12;
      case 'n' => ch := 10;
      case 'r' => ch := 13;
      case 't' => ch := 9;
      case 'v' => ch := 11;
      case 'x' =>
        if i + 2 >= |s| || XValue(s[i + 1]) < 0 || XValue(s[i + 2]) < 0 {
          return -1, 0;
        }
        ch := 16 * XValue(s[i + 1]) + XValue(s[i + 2]);
        len := 3;
      case 'X' =>
        if i + 2 >= |s| || XValue(s[i + 1]) < 0 || XValue(s[i + 2]) < 0 {
          return -1, 0;
        }
        ch := 16 * XValue(s[i + 1]) + XValue(s[i + 2]);
        len := 3;
      case _ =>
        if IsODigit(s[i]) {
          ch := ch - '0' as int;
          assert s[i..i + 1][..0] == [];
          while len < 3 && i + len < |s| && IsODigit(s[i + len])
            invariant 1 <= len <= 3 && i + len <= |s|
            invariant forall k :: i <= k < i + len ==> IsODigit(s[k])
            invariant len <= OctalRunLength(s, i)
            invariant ch == OctalValue(s[i..i + len])
            decreases 3 - len
          {
            assert s[i..i + len + 1][..len] == s[i..i + len];
            ch := ch * 8 + (s[i + len] as int - '0' as int);
            len := len + 1;
          }
          if ch > 255 {
            return -1, 0;
          }
        }
    }
    code := ch;
  }

  // ---------------------------------------------------------------------
  // Properties of the escape decoder

  lemma EscapePastEnd(s: string, i: nat)
    requires i >= |s|
    ensures EscapeOf(s, i).0 == -1
  {
  }

  /** The letter escapes stand for BEL, BS, ESC, FF, LF, CR, TAB and VT. */
  lemma EscapeLetters(s: string, i: nat)
    requires i < |s| && s[i] in "abefnrtv"
    ensures EscapeOf(s, i).1 == 1
    ensures s[i] == 'a' ==> EscapeOf(s, i).0 == 7
    ensures s[i] == 'b' ==> EscapeOf(s, i).0 == 8
    ensures s[i] == 'e' ==> EscapeOf(s, i).0 == 27
    ensures s[i] == 'f' ==> EscapeOf(s, i).0 == 12
    ensures s[i] == 'n' ==> EscapeOf(s, i).0 == 10
    ensures s[i] == 'r' ==> EscapeOf(s, i).0 == 13
    ensures s[i] == 't' ==> EscapeOf(s, i).0 == 9
    ensures s[i] == 'v' ==> EscapeOf(s, i).0 == 11
  {
  }

  /**
   * An octal escape takes its whole run of up to three octal digits and
   * fails exactly when their value exceeds 255.
   */
  lemma EscapeOctal(s: string, i: nat)
    requires i < |s| && IsODigit(s[i])
    ensures var (code, len) := EscapeOf(s, i);
      var n := OctalRunLength(s, i);
      (code == -1 <==> OctalValue(s[i..i + n]) > 255) &&
      (code != -1 ==> len == n && code == OctalValue(s[i..i + n]))
  {
  }

  /** `\x` or `\X` needs two hexadecimal digits and yields a byte. */
  lemma EscapeHex(s: string, i: nat)
    requires i < |s| && (s[i] == 'x' || s[i] == 'X')
    ensures var (code, len) := EscapeOf(s, i);
      (code == -1 <==> i + 2 >= |s| || XValue(s[i + 1]) < 0 || XValue(s[i + 2]) < 0) &&
      (code != -1 ==> len == 3 && 0 <= code <= 255)
  {
  }

  /** Any other character stands for itself. */
  lemma EscapeOther(s: string, i: nat)
    requires i < |s| && s[i] !in "abefnrtvxX" && !IsODigit(s[i])
    ensures EscapeOf(s, i) == (s[i] as int, 1)
  {
  }

  /** In a byte string every decoded escape is a byte. */
  lemma EscapeIsByte(s: string, i: nat)
    requires IsByteString(s)
    ensures EscapeOf(s, i).0 < 256
  {
    if i < |s| && IsODigit(s[i]) {
      var n := OctalRunLength(s, i);
      assert OctalValue(s[i..i + n]) >= 0;
    }
  }

  lemma OctalExamples()
    ensures EscapeOf("377", 0) == (255, 3)
    ensures EscapeOf("400", 0) == (-1, 0)
    ensures EscapeOf("0123", 0) == (10, 3)
    ensures EscapeOf("8", 0) == ('8' as int, 1)
  {
    assert "377"[0..3] == "377";
    assert "377"[..2] == "37" && "37"[..1] == "3" && "3"[..0] == "";
    assert "400"[0..3] == "400";
    assert "400"[..2] == "40" && "40"[..1] == "4" && "4"[..0] == "";
    assert "0123"[0..3] == "012";
    assert "012"[..2] == "01" && "01"[..1] == "0" && "0"[..0] == "";
  }
}
