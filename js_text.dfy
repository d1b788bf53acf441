/**
 * The two JavaScript string facilities the chat client leans on:
 * - a string's UTF-16 code units (what `charCodeAt` walks over), and
 * - `String.prototype.trim`, whose result is empty exactly when the string
 *   consists of white space and line terminators only.
 *
 * Dafny strings hold Unicode scalar values, so the code units are obtained
 * by encoding each character in UTF-16.
 */
module JsText {

  /** One UTF-16 code unit, the value `charCodeAt` returns. */
  type CodeUnit = c: int | 0 <= c < 0x1_0000

  /** The code units of one character: itself when it lies in the Basic
      Multilingual Plane, otherwise a high and a low surrogate. */
  function CharUnits(c: char): (r: seq<CodeUnit>)
    ensures 1 <= |r| <= 2
    ensures (c as int) < 0x1_0000 <==> |r| == 1
    ensures |r| == 1 ==> r[0] == c as int
    ensures |r| == 2 ==> 0xD800 <= r[0] < 0xDC00 <= r[1] < 0xE000
    ensures |r| == 2 ==> 0x1_0000 + (r[0] as int - 0xD800) * 0x400 + (r[1] as int - 0xDC00) == c as int
  {
    var v := c as int;
    if v < 0x1_0000 then [v]
    else [0xD800 + (v - 0x1_0000) / 0x400, 0xDC00 + (v - 0x1_0000) % 0x400]
  }

  /** The UTF-16 encoding of a string: the sequence a JavaScript string is. */
  function Utf16(s: string): (r: seq<CodeUnit>)
    ensures |s| <= |r| <= 2 * |s|
    ensures (forall i :: 0 <= i < |s| ==> (s[i] as int) < 0x1_0000) ==>
              |r| == |s| && forall i :: 0 <= i < |s| ==> r[i] == s[i] as int
  {
    if s == [] then [] else CharUnits(s[0]) + Utf16(s[1..])
  }

  /** The characters `trim` removes: the WhiteSpace and LineTerminator code
      points of ECMA-262 (tab, vertical tab, form feed, the byte order mark,
      the space separators of category Zs, LF, CR, LS and PS). */
  predicate IsWhitespace(c: char) {
    var v := c as int;
    v == 0x09 || v == 0x0A || v == 0x0B || v == 0x0C || v == 0x0D ||
    v == 0x20 || v == 0xA0 || v == 0x1680 ||
    (0x2000 <= v <= 0x200A) || v == 0x2028 || v == 0x2029 ||
    v == 0x202F || v == 0x205F || v == 0x3000 || v == 0xFEFF
  }

  /** Every character of `s` is white space (vacuously so for ""). */
  predicate IsBlank(s: string) {
    forall i :: 0 <= i < |s| ==> IsWhitespace(s[i])
  }

  /** `s` with its leading white space removed. */
  function TrimStart(s: string): (r: string)
    ensures |r| <= |s| && r == s[|s| - |r|..]
    ensures IsBlank(s[..|s| - |r|])
    ensures r != [] ==> !IsWhitespace(r[0])
  {
    if s != [] && IsWhitespace(s[0]) then TrimStart(s[1..]) else s
  }

  /** `s` with its trailing white space removed. */
  function TrimEnd(s: string): (r: string)
    ensures |r| <= |s| && r == s[..|r|]
    ensures IsBlank(s[|r|..])
    ensures r != [] ==> !IsWhitespace(r[|r| - 1])
  {
    if s != [] && IsWhitespace(s[|s| - 1]) then TrimEnd(s[..|s| - 1]) else s
  }

  /** `r` is what is left of `s` once a blank prefix of length `k` and a
      blank suffix are cut off, and neither end of `r` is white space. */
  predicate IsTrimmed(s: string, k: nat, r: string) {
    k + |r| <= |s| && r == s[k..k + |r|] &&
    IsBlank(s[..k]) && IsBlank(s[k + |r|..]) &&
    (r != [] ==> !IsWhitespace(r[0]) && !IsWhitespace(r[|r| - 1]))
  }

  /** `String.prototype.trim`: `s` with a blank prefix, the one TrimStart
      drops, and a blank suffix removed; a non-empty result starts and ends
      with a character that is not white space. */
  function Trim(s: string): (r: string)
    ensures IsTrimmed(s, |s| - |TrimStart(s)|, r)
  {
    TrimStartThenEnd(s);
    TrimEnd(TrimStart(s))
  }

  /** TrimStart followed by TrimEnd cuts exactly a blank prefix and a blank
      suffix off `s`. */
  lemma TrimStartThenEnd(s: string)
    ensures IsTrimmed(s, |s| - |TrimStart(s)|, TrimEnd(TrimStart(s)))
  {
    var t := TrimStart(s);
    TrimIsSlice(s, t, TrimEnd(t));
  }

  /** Cutting a blank prefix and then a blank suffix off `s` leaves the
      slice of `s` between them. */
  lemma TrimIsSlice(s: string, t: string, r: string)
    requires |t| <= |s| && t == s[|s| - |t|..] && IsBlank(s[..|s| - |t|])
    requires |r| <= |t| && r == t[..|r|] && IsBlank(t[|r|..])
    requires r != [] ==> !IsWhitespace(t[0]) && !IsWhitespace(r[|r| - 1])
    ensures IsTrimmed(s, |s| - |t|, r)
  {
    PrefixOfSuffix(s, t, r);
    if r != [] {
      assert r[0] == t[0];
    }
  }

  /** A prefix `r` of a suffix `t` of `s` is the slice of `s` right after
      what `t` leaves out, and what follows `r` in `t` is the rest of `s`. */
  lemma PrefixOfSuffix(s: string, t: string, r: string)
    requires |t| <= |s| && t == s[|s| - |t|..]
    requires |r| <= |t| && r == t[..|r|]
    ensures r == s[|s| - |t|..|s| - |t| + |r|]
    ensures s[|s| - |t| + |r|..] == t[|r|..]
  {
  }

  /** A blank string whose first character (if any) is not white space is
      empty. */
  lemma BlankWithoutLeadingSpaceIsEmpty(t: string)
    requires IsBlank(t)
    requires t != [] ==> !IsWhitespace(t[0])
    ensures t == []
  {
  }

  /** `s.trim()` is the empty (falsy) string exactly when `s` is blank. */
  lemma TrimIsEmptyIffBlank(s: string)
    ensures Trim(s) == [] <==> IsBlank(s)
  {
    var t := TrimStart(s);
    var p := s[..|s| - |t|];
    assert s == p + t;
    if Trim(s) == [] {
      assert t == t[|TrimEnd(t)|..];
      BlankWithoutLeadingSpaceIsEmpty(t);
      assert s == p;
    }
  }
}
