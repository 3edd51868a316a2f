/** JavaScript strings as sequences of UTF-16 code units, with the few string methods used here. */
module JsText {
  type CodeUnit = x: int | 0 <= x < 0x10000
  type JsString = seq<CodeUnit>

  const TAB: CodeUnit := 9
  const NEWLINE: CodeUnit := 10
  const SPACE: CodeUnit := 32
  const BACKTICK: CodeUnit := 0x60
  const STAR: CodeUnit := 0x2A
  const COLON: CodeUnit := 0x3A
  const BACKSLASH: CodeUnit := 0x5C

  /** White space and line terminators, as `trim` removes them. */
  predicate IsSpace(c: CodeUnit) {
    || 9 <= c <= 13 || c == SPACE || c == 0xA0 || c == 0x1680 || 0x2000 <= c <= 0x200A
    || c == 0x2028 || c == 0x2029 || c == 0x202F || c == 0x205F || c == 0x3000 || c == 0xFEFF
  }

  /** The characters a regular expression's `.` does not match. */
  predicate IsLineTerminator(c: CodeUnit) {
    c == NEWLINE || c == 13 || c == 0x2028 || c == 0x2029
  }

  function TrimStart(s: JsString): (r: JsString)
    ensures |r| <= |s|
    ensures forall k :: 0 <= k < |s| - |r| ==> IsSpace(s[k])
    ensures r != [] ==> !IsSpace(r[0])
  {
    if s != [] && IsSpace(s[0]) then TrimStart(s[1..]) else s
  }

  /** What is left is the end of the string. */
  lemma {:induction false} TrimStartIsEnd(s: JsString)
    ensures TrimStart(s) == s[|s| - |TrimStart(s)|..]
  {
    if s != [] && IsSpace(s[0]) { TrimStartIsEnd(s[1..]); }
  }

  function TrimEnd(s: JsString): (r: JsString)
    ensures r <= s
    ensures forall k :: |r| <= k < |s| ==> IsSpace(s[k])
    ensures r != [] ==> !IsSpace(r[|r| - 1])
  {
    if s != [] && IsSpace(s[|s| - 1]) then TrimEnd(s[..|s| - 1]) else s
  }

  function Trim(s: JsString): JsString {
    TrimEnd(TrimStart(s))
  }

  /** A text whose characters are all one code unit each. */
  function Units(s: string): (r: JsString)
    ensures |r| == |s|
  {
    seq(|s|, i requires 0 <= i < |s| => s[i] as int % 0x10000)
  }

  predicate IsHighSurrogate(c: CodeUnit) { 0xD800 <= c <= 0xDBFF }
  predicate IsLowSurrogate(c: CodeUnit) { 0xDC00 <= c <= 0xDFFF }

  /** How many units the first character of the string takes: two for a surrogate pair. */
  function Width(s: JsString): (w: nat)
    requires s != []
    ensures 1 <= w <= |s|
  {
    if |s| >= 2 && IsHighSurrogate(s[0]) && IsLowSurrogate(s[1]) then 2 else 1
  }

  /** Bytes of the UTF-8 encoding; a lone surrogate becomes a three-byte replacement character. */
  function Utf8Length(s: JsString): nat
    decreases |s|
  {
    if s == [] then 0
    else if Width(s) == 2 then 4 + Utf8Length(s[2..])
    else (if s[0] < 0x80 then 1 else if s[0] < 0x800 then 2 else 3) + Utf8Length(s[1..])
  }

  /** `s.indexOf(c, from)`. */
  function IndexOf(s: JsString, c: CodeUnit, from: nat): (i: int)
    requires from <= |s|
    ensures i == -1 || from <= i < |s|
    ensures i == -1 ==> forall k :: from <= k < |s| ==> s[k] != c
    ensures i >= 0 ==> s[i] == c && forall k :: from <= k < i ==> s[k] != c
    decreases |s| - from
  {
    if from == |s| then -1 else if s[from] == c then from else IndexOf(s, c, from + 1)
  }

  /** A string is blank after trimming exactly when it holds nothing but white space. */
  lemma TrimEmptyExactly(s: JsString)
    ensures Trim(s) == [] <==> forall k :: 0 <= k < |s| ==> IsSpace(s[k])
  {
    hide IsSpace;
    TrimStartIsEnd(s);
    var t := TrimStart(s);
    if t != [] {
      assert t[0] == s[|s| - |t|];
    }
  }
}
