/**
 * The string operations of the JDK and of Apache Commons Lang that the service
 * relies on, restricted to ASCII: letter case is folded only for 'A'..'Z' and
 * 'a'..'z'.
 */
module Strings {
  import opened Wrappers

  function LowerChar(c: char): (r: char)
    ensures 'A' <= c <= 'Z' ==> r as int == c as int + 32
    ensures !('A' <= c <= 'Z') ==> r == c
  {
    if 'A' <= c <= 'Z' then (c as int + 32) as char else c
  }

  function UpperChar(c: char): (r: char)
    ensures 'a' <= c <= 'z' ==> r as int == c as int - 32
    ensures !('a' <= c <= 'z') ==> r == c
  {
    if 'a' <= c <= 'z' then (c as int - 32) as char else c
  }

  /** `String.toLowerCase()` on ASCII text. */
  function ToLower(s: string): (r: string)
    ensures |r| == |s|
    ensures forall i :: 0 <= i < |s| ==> r[i] == LowerChar(s[i])
  {
    seq(|s|, i requires 0 <= i < |s| => LowerChar(s[i]))
  }

  /** `String.toUpperCase()` on ASCII text. */
  function ToUpper(s: string): (r: string)
    ensures |r| == |s|
    ensures forall i :: 0 <= i < |s| ==> r[i] == UpperChar(s[i])
  {
    seq(|s|, i requires 0 <= i < |s| => UpperChar(s[i]))
  }

  /** `String.equalsIgnoreCase` between two non-null strings. */
  predicate EqualsIgnoreCase(a: string, b: string)
  {
    ToLower(a) == ToLower(b)
  }

  /** `StringUtils.equalsIgnoreCase`: null equals only null. */
  predicate EqualsIgnoreCaseNullable(a: Option<string>, b: Option<string>)
  {
    match (a, b)
    case (None, None) => true
    case (Some(x), Some(y)) => EqualsIgnoreCase(x, y)
    case _ => false
  }

  /** `StringUtils.startsWithIgnoreCase` for a non-null string and prefix. */
  predicate StartsWithIgnoreCase(s: string, prefix: string)
  {
    |prefix| <= |s| && EqualsIgnoreCase(s[..|prefix|], prefix)
  }

  /** The characters `String.trim()` strips: every code point up to the space. */
  predicate IsTrimmed(c: char)
  {
    c <= ' '
  }

  function TrimStart(s: string): (r: string)
    ensures |r| <= |s| && r == s[|s| - |r|..]
    ensures r == [] || !IsTrimmed(r[0])
    ensures forall i :: 0 <= i < |s| - |r| ==> IsTrimmed(s[i])
  {
    if |s| > 0 && IsTrimmed(s[0]) then TrimStart(s[1..]) else s
  }

  function TrimEnd(s: string): (r: string)
    ensures |r| <= |s| && r == s[..|r|]
    ensures r == [] || !IsTrimmed(r[|r| - 1])
    ensures forall i :: |r| <= i < |s| ==> IsTrimmed(s[i])
  {
    if |s| > 0 && IsTrimmed(s[|s| - 1]) then TrimEnd(s[..|s| - 1]) else s
  }

  /** Strings equal ignoring case in a head and in the rest are equal ignoring case. */
  lemma EqualsIgnoreCaseSplit(a: string, b: string, n: nat)
    requires n <= |a| && n <= |b|
    requires EqualsIgnoreCase(a[..n], b[..n]) && EqualsIgnoreCase(a[n..], b[n..])
    ensures EqualsIgnoreCase(a, b)
  {
    assert |a| == |b| by {
      assert |ToLower(a[n..])| == |ToLower(b[n..])|;
    }
    forall i | 0 <= i < |a| ensures ToLower(a)[i] == ToLower(b)[i] {
      if i < n {
        assert ToLower(a[..n])[i] == ToLower(b[..n])[i];
        assert a[..n][i] == a[i] && b[..n][i] == b[i];
      } else {
        assert ToLower(a[n..])[i - n] == ToLower(b[n..])[i - n];
        assert a[n..][i - n] == a[i] && b[n..][i - n] == b[i];
      }
    }
  }

  /** `String.trim()`: strips leading and trailing characters up to the space. */
  function Trim(s: string): string
  {
    TrimEnd(TrimStart(s))
  }

  /**
   * `Character.isWhitespace`: the ASCII controls tab to carriage return and
   * 0x1C..0x1F, and the Unicode space, line and paragraph separators except
   * the non-breaking ones (U+00A0, U+2007, U+202F).
   */
  predicate IsWhitespace(c: char)
  {
    c == ' ' || ('\t' <= c <= '\r') || (0x1C <= c as int <= 0x1F)
    || c as int == 0x1680 || (0x2000 <= c as int <= 0x2006) || (0x2008 <= c as int <= 0x200A)
    || c as int == 0x2028 || c as int == 0x2029 || c as int == 0x205F || c as int == 0x3000
  }

  /** `StringUtils.isBlank`: null, empty, or whitespace only. */
  predicate IsBlank(s: Option<string>)
  {
    s.None? || forall i :: 0 <= i < |s.value| ==> IsWhitespace(s.value[i])
  }

  /** Strict lexicographic order on character sequences (shorter prefix first). */
  predicate LexLess(a: string, b: string)
  {
    if |a| == 0 then |b| > 0
    else if |b| == 0 then false
    else a[0] < b[0] || (a[0] == b[0] && LexLess(a[1..], b[1..]))
  }

  /** `String.CASE_INSENSITIVE_ORDER` on ASCII text: `a` sorts strictly before `b`. */
  predicate LessIgnoreCase(a: string, b: string)
  {
    LexLess(ToLower(a), ToLower(b))
  }

  lemma {:induction false} LexLessIrreflexive(a: string)
    ensures !LexLess(a, a)
  {
    if |a| > 0 {
      LexLessIrreflexive(a[1..]);
    }
  }

  lemma {:induction false} LexLessTransitive(a: string, b: string, c: string)
    requires LexLess(a, b) && LexLess(b, c)
    ensures LexLess(a, c)
  {
    if |a| > 0 && |b| > 0 && |c| > 0 && a[0] == b[0] && b[0] == c[0] {
      LexLessTransitive(a[1..], b[1..], c[1..]);
    }
  }

  lemma {:induction false} LexLessTotal(a: string, b: string)
    ensures a == b || LexLess(a, b) || LexLess(b, a)
  {
    if |a| > 0 && |b| > 0 && a[0] == b[0] {
      LexLessTotal(a[1..], b[1..]);
      if a[1..] == b[1..] {
        assert a == [a[0]] + a[1..] && b == [b[0]] + b[1..];
      }
    }
  }

  /** Case-insensitive order is a strict total order on the lower-cased forms. */
  lemma LessIgnoreCaseTrichotomy(a: string, b: string)
    ensures EqualsIgnoreCase(a, b) || LessIgnoreCase(a, b) || LessIgnoreCase(b, a)
    ensures LessIgnoreCase(a, b) ==> !EqualsIgnoreCase(a, b) && !LessIgnoreCase(b, a)
  {
    LexLessTotal(ToLower(a), ToLower(b));
    LexLessIrreflexive(ToLower(a));
    if LessIgnoreCase(a, b) && LessIgnoreCase(b, a) {
      LexLessTransitive(ToLower(a), ToLower(b), ToLower(a));
    }
  }

  /** `trim()` leaves a string alone when neither end is a control character or a space. */
  lemma TrimUntrimmed(s: string)
    requires |s| > 0 && !IsTrimmed(s[0]) && !IsTrimmed(s[|s| - 1])
    ensures Trim(s) == s
  {
    assert TrimStart(s) == s;
  }

  /** `trim()` drops a trailing space or control character. */
  lemma TrimTrailing(s: string, c: char)
    requires |s| > 0 && !IsTrimmed(s[0]) && !IsTrimmed(s[|s| - 1]) && IsTrimmed(c)
    ensures Trim(s + [c]) == s
  {
    var t := s + [c];
    assert TrimStart(t) == t;
    assert t[..|t| - 1] == s;
    assert TrimEnd(s) == s;
  }
}
