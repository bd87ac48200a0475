/** JavaScript strings as the page's code sees them: sequences of UTF-16 code
    units, with the two built-in operations the page uses, `slice` and `trim`
    (ECMAScript, sections String.prototype.slice and String.prototype.trim). */
module JsString {

  /** One UTF-16 code unit; `s.length` in JavaScript counts these. */
  newtype CodeUnit = x: int | 0 <= x < 0x1_0000

  type JsStr = seq<CodeUnit>

  /** A high (leading) surrogate: the first half of a character outside the BMP. */
  predicate IsHighSurrogate(c: CodeUnit) {
    0xD800 <= c <= 0xDBFF
  }

  /** How `slice` resolves one of its arguments against a string of length
      `len`: a negative position counts back from the end, and the result is
      clamped to `0..len`. */
  function RelativeIndex(n: int, len: nat): (k: nat)
    ensures k <= len
  {
    if n < 0 then (if len + n < 0 then 0 else len + n)
    else if n > len then len
    else n
  }

  /** `s.slice(start, end)`: the code units from the resolved start up to the
      resolved end, or nothing when the end does not lie after the start. */
  function Slice(s: JsStr, start: int, end: int): (r: JsStr)
    ensures |r| <= |s|
    ensures 0 <= start <= end <= |s| ==> r == s[start..end]
    ensures start == 0 && end >= |s| ==> r == s
    ensures start == 0 ==> r <= s
  {
    var from := RelativeIndex(start, |s|);
    var to := RelativeIndex(end, |s|);
    if from >= to then [] else s[from..to]
  }

  /** A negative start counts back from the end: `s.slice(-m, s.length)` is
      the last `m` code units. (`-0` is position 0, hence `m > 0`.) */
  lemma SliceFromEnd(s: JsStr, m: nat)
    requires 0 < m <= |s|
    ensures Slice(s, -(m as int), |s|) == s[|s| - m..]
  {
  }

  /** An end that does not lie after the start gives the empty string. */
  lemma SliceEmptyWhenEndBeforeStart(s: JsStr, a: int, b: int)
    requires 0 <= b <= a
    ensures Slice(s, a, b) == []
  {
  }

  /** The code units that `trim` strips: the WhiteSpace and LineTerminator
      code points of ECMAScript (section 12.2 and 12.3 of ECMA-262), all of
      which lie in the BMP. Space_Separator (Zs) is taken as Unicode 15 has it. */
  predicate IsWhiteSpace(c: CodeUnit) {
    c == 0x09 || c == 0x0A || c == 0x0B || c == 0x0C || c == 0x0D
    || c == 0x20 || c == 0xA0 || c == 0x1680
    || (0x2000 <= c <= 0x200A)
    || c == 0x2028 || c == 0x2029 || c == 0x202F || c == 0x205F
    || c == 0x3000 || c == 0xFEFF
  }

  predicate AllWhiteSpace(s: JsStr) {
    forall k :: 0 <= k < |s| ==> IsWhiteSpace(s[k])
  }

  /** Strips leading white space: what is left is a suffix of `s` that is
      empty or starts with a non-white-space unit, and what was cut is all
      white space. */
  function TrimStart(s: JsStr): (r: JsStr)
    ensures |r| <= |s| && r == s[|s| - |r|..]
    ensures r == [] || !IsWhiteSpace(r[0])
    ensures AllWhiteSpace(s[..|s| - |r|])
  {
    if s != [] && IsWhiteSpace(s[0]) then TrimStart(s[1..]) else s
  }

  /** Strips trailing white space: what is left is a prefix of `s` that is
      empty or ends with a non-white-space unit, and what was cut is all
      white space. */
  function TrimEnd(s: JsStr): (r: JsStr)
    ensures |r| <= |s| && r == s[..|r|]
    ensures r == [] || !IsWhiteSpace(r[|r| - 1])
    ensures AllWhiteSpace(s[|r|..])
  {
    if s != [] && IsWhiteSpace(s[|s| - 1]) then TrimEnd(s[..|s| - 1]) else s
  }

  /** `s.trim()`. It is empty exactly when `s` is nothing but white space;
      otherwise it neither starts nor ends with white space. */
  function Trim(s: JsStr): (r: JsStr)
    ensures |r| <= |s|
    ensures r == [] <==> AllWhiteSpace(s)
    ensures r != [] ==> !IsWhiteSpace(r[0]) && !IsWhiteSpace(r[|r| - 1])
  {
    TrimmedEmpty(s);
    TrimEnd(TrimStart(s))
  }

  /** The step `Trim` needs: trimming both ends leaves nothing exactly when
      every unit is white space. */
  lemma TrimmedEmpty(s: JsStr)
    ensures TrimEnd(TrimStart(s)) == [] <==> AllWhiteSpace(s)
  {
    var t := TrimStart(s);
    var a := |s| - |t|;
    if TrimEnd(t) == [] {
      // what is left after the leading cut is all white space, hence empty
      assert t[0..] == t;
      assert t == [];
      assert s[..a] == s;
    } else {
      // the first unit left after the leading cut is not white space
      assert t != [] && s[a] == t[0];
    }
  }
}
