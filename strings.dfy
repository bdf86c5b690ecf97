/** Python string operations the settings core relies on, with their
    semantics written out: `str.replace`, `in`, `str.strip`, `readline`,
    `str.lower().startswith`, `str()` of a scalar and the ordering `sorted` uses. */
module Strings {
  import opened Common

  /** `pat in s` */
  predicate Contains(s: string, pat: string)
    decreases |s|
  {
    if |s| < |pat| then false
    else s[..|pat|] == pat || Contains(s[1..], pat)
  }

  /** `s.replace(pat, rep)`: every non-overlapping occurrence of `pat`, scanning
      from the left, becomes `rep`; an empty `pat` matches before every
      character and at the end. */
  function Replace(s: string, pat: string, rep: string): string
    decreases |s|
  {
    if pat == [] then
      (if s == [] then rep else rep + [s[0]] + Replace(s[1..], pat, rep))
    else if |s| < |pat| then s
    else if s[..|pat|] == pat then rep + Replace(s[|pat|..], pat, rep)
    else [s[0]] + Replace(s[1..], pat, rep)
  }

  /** A string without the pattern is left as it is. */
  lemma {:induction false} ReplaceAbsent(s: string, pat: string, rep: string)
    requires pat != [] && !Contains(s, pat)
    ensures Replace(s, pat, rep) == s
    decreases |s|
  {
    if |s| >= |pat| {
      ReplaceAbsent(s[1..], pat, rep);
    }
  }

  /** The whitespace `str.strip()` removes (`str.isspace`). */
  predicate IsSpace(c: char)
  {
    var n := c as int;
    || (9 <= n <= 13) || (28 <= n <= 32) || n == 0x85 || n == 0xA0 || n == 0x1680
    || (0x2000 <= n <= 0x200A) || n == 0x2028 || n == 0x2029 || n == 0x202F
    || n == 0x205F || n == 0x3000
  }

  function LStrip(s: string): string
    decreases |s|
  {
    if s != [] && IsSpace(s[0]) then LStrip(s[1..]) else s
  }

  function RStrip(s: string): string
    decreases |s|
  {
    if s != [] && IsSpace(s[|s| - 1]) then RStrip(s[..|s| - 1]) else s
  }

  /** `s.strip()` */
  function Strip(s: string): string
  {
    RStrip(LStrip(s))
  }

  predicate IsStripped(s: string)
  {
    s == [] || (!IsSpace(s[0]) && !IsSpace(s[|s| - 1]))
  }

  predicate IsLineBreak(c: char)
  {
    c == '\n' || c == '\r'
  }

  /** The text `readline()` returns for the file's first line, without its end;
      text mode reads both '\r' and '\n' as a line end. */
  function FirstLine(s: string): string
    decreases |s|
  {
    if s == [] || IsLineBreak(s[0]) then [] else [s[0]] + FirstLine(s[1..])
  }

  predicate HasLineBreak(s: string)
  {
    exists i :: 0 <= i < |s| && IsLineBreak(s[i])
  }

  lemma {:induction false} LStripShape(s: string)
    ensures |LStrip(s)| <= |s| && LStrip(s) == s[|s| - |LStrip(s)|..]
    ensures LStrip(s) == s <==> (s == [] || !IsSpace(s[0]))
    decreases |s|
  {
    if s != [] && IsSpace(s[0]) {
      LStripShape(s[1..]);
    }
  }

  lemma {:induction false} RStripShape(s: string)
    ensures |RStrip(s)| <= |s| && RStrip(s) == s[..|RStrip(s)|]
    ensures RStrip(s) == s <==> (s == [] || !IsSpace(s[|s| - 1]))
    decreases |s|
  {
    if s != [] && IsSpace(s[|s| - 1]) {
      RStripShape(s[..|s| - 1]);
    }
  }

  /** `s.strip()` leaves `s` alone exactly when `s` has no whitespace at either end. */
  lemma StripFixed(s: string)
    ensures Strip(s) == s <==> IsStripped(s)
    ensures |Strip(s)| <= |s|
  {
    LStripShape(s);
    RStripShape(LStrip(s));
    if IsStripped(s) || Strip(s) == s {
      assert LStrip(s) == s;
    }
  }

  lemma {:induction false} FirstLineShape(s: string)
    ensures |FirstLine(s)| <= |s| && FirstLine(s) == s[..|FirstLine(s)|]
    ensures FirstLine(s) == s <==> !HasLineBreak(s)
    decreases |s|
  {
    if s != [] && !IsLineBreak(s[0]) {
      FirstLineShape(s[1..]);
      if HasLineBreak(s[1..]) {
        var i :| 0 <= i < |s[1..]| && IsLineBreak(s[1..][i]);
        assert IsLineBreak(s[i + 1]);
      }
      if HasLineBreak(s) {
        var i :| 0 <= i < |s| && IsLineBreak(s[i]);
        assert i > 0 && IsLineBreak(s[1..][i - 1]);
      }
    } else if s != [] {
      assert IsLineBreak(s[0]);
    }
  }

  /** `str(v)` for the scalar JSON values. */
  predicate IsScalar(v: Value)
  {
    !v.List? && !v.Dict?
  }

  function DigitChar(d: nat): char
    requires d < 10
  {
    "0123456789"[d]
  }

  function NatToString(n: nat): string
    decreases n
  {
    if n < 10 then [DigitChar(n)] else NatToString(n / 10) + [DigitChar(n % 10)]
  }

  function PyStr(v: Value): string
    requires IsScalar(v)
  {
    match v
    case Null => "None"
    case Bool(b) => if b then "True" else "False"
    case Int(i) => if i < 0 then "-" + NatToString(-i) else NatToString(i)
    case Text(s) => s
  }

  /** `s.lower().startswith('chl')`. Only 'C'/'c', 'H'/'h' and 'L'/'l' lower-case
      to these three letters, and each to exactly one character. */
  predicate StartsWithChl(s: string)
  {
    |s| >= 3 && (s[0] == 'c' || s[0] == 'C') && (s[1] == 'h' || s[1] == 'H')
    && (s[2] == 'l' || s[2] == 'L')
  }

  /** Python's `<` on strings: by code point, a proper prefix first. */
  predicate Less(a: string, b: string)
    decreases |a|
  {
    if a == [] then b != []
    else if b == [] then false
    else if a[0] != b[0] then a[0] < b[0]
    else Less(a[1..], b[1..])
  }

  lemma {:induction false} LessIrreflexive(a: string)
    ensures !Less(a, a)
    decreases |a|
  {
    if a != [] {
      LessIrreflexive(a[1..]);
    }
  }

  lemma {:induction false} LessTotal(a: string, b: string)
    requires a != b
    ensures Less(a, b) || Less(b, a)
    decreases |a|
  {
    if a != [] && b != [] && a[0] == b[0] {
      LessTotal(a[1..], b[1..]);
    }
  }

  lemma {:induction false} LessTransitive(a: string, b: string, c: string)
    requires Less(a, b) && Less(b, c)
    ensures Less(a, c)
    decreases |a|
  {
    if a != [] && b != [] && c != [] && a[0] == b[0] && b[0] == c[0] {
      LessTransitive(a[1..], b[1..], c[1..]);
    }
  }

  lemma LessAsymmetric(a: string, b: string)
    requires Less(a, b)
    ensures !Less(b, a)
  {
    if Less(b, a) {
      LessTransitive(a, b, a);
      LessIrreflexive(a);
    }
  }
}
