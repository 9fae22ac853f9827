/** String helpers behind the JavaScript and Python string operations the
    application uses: `toLowerCase`, `includes`, `startsWith`, `trim`,
    `padStart`, template-literal number rendering and `str.split(" ")`. */
module Text {

  // ---------------------------------------------------------------------------
  // Case folding (ASCII letters only) and substring search
  // ---------------------------------------------------------------------------

  /** `toLowerCase` on one character; only 'A'..'Z' are folded. */
  function LowerChar(c: char): (r: char)
    ensures 'A' <= c <= 'Z' ==> 'a' <= r <= 'z' && r as int == c as int + 32
    ensures !('A' <= c <= 'Z') ==> r == c
  {
    if 'A' <= c <= 'Z' then (c as int + 32) as char else c
  }

  function Lower(s: string): (r: string)
    ensures |r| == |s|
    ensures forall i :: 0 <= i < |s| ==> r[i] == LowerChar(s[i])
  {
    seq(|s|, i requires 0 <= i < |s| => LowerChar(s[i]))
  }

  lemma LowerIdempotent(s: string)
    ensures Lower(Lower(s)) == Lower(s)
  {
  }

  /** `p` occurs in `s` at position `i`. */
  predicate OccursAt(s: string, p: string, i: int)
  {
    0 <= i && i + |p| <= |s| && s[i..i + |p|] == p
  }

  /** `s.startsWith(p)`, case-sensitive. */
  predicate StartsWith(s: string, p: string)
  {
    |p| <= |s| && s[..|p|] == p
  }

  /** `s.includes(p)`: scans the start positions from left to right. */
  function Contains(s: string, p: string): (r: bool)
    ensures r <==> exists i :: OccursAt(s, p, i)
    decreases |s|
  {
    if StartsWith(s, p) then
      assert OccursAt(s, p, 0);
      true
    else if |s| == 0 then
      assert forall i :: !OccursAt(s, p, i);
      false
    else
      var r := Contains(s[1..], p);
      assert forall i :: OccursAt(s[1..], p, i) <==> OccursAt(s, p, i + 1) by {
        forall i ensures OccursAt(s[1..], p, i) <==> OccursAt(s, p, i + 1) {
          if 0 <= i && i + |p| <= |s| - 1 {
            assert s[1..][i..i + |p|] == s[i + 1..i + 1 + |p|];
          }
        }
      }
      assert !OccursAt(s, p, 0);
      assert (exists i :: OccursAt(s, p, i)) ==> exists i :: OccursAt(s[1..], p, i) by {
        if exists i :: OccursAt(s, p, i) {
          var i :| OccursAt(s, p, i);
          assert i > 0;
          assert OccursAt(s[1..], p, i - 1);
        }
      }
      r
  }

  lemma ContainsEmpty(s: string)
    ensures Contains(s, "")
  {
    assert OccursAt(s, "", 0);
  }

  // ---------------------------------------------------------------------------
  // `String.prototype.trim`
  // ---------------------------------------------------------------------------

  /** ECMAScript WhiteSpace and LineTerminator code points, the set `trim` strips. */
  predicate IsJsWhitespace(c: char)
  {
    c == '\t' || c == '\n' || c == '\U{000B}' || c == '\U{000C}' || c == '\r' || c == ' '
    || c == '\U{00A0}' || c == '\U{1680}' || ('\U{2000}' <= c <= '\U{200A}')
    || c == '\U{2028}' || c == '\U{2029}' || c == '\U{202F}' || c == '\U{205F}'
    || c == '\U{3000}' || c == '\U{FEFF}'
  }

  predicate AllWhitespace(s: string)
  {
    forall i :: 0 <= i < |s| ==> IsJsWhitespace(s[i])
  }

  /** Number of leading whitespace characters. */
  function LeadingWhitespace(s: string): (k: nat)
    ensures k <= |s| && AllWhitespace(s[..k])
    ensures k < |s| ==> !IsJsWhitespace(s[k])
    decreases |s|
  {
    if |s| == 0 || !IsJsWhitespace(s[0]) then 0
    else
      var k := LeadingWhitespace(s[1..]);
      assert s[..k + 1] == [s[0]] + s[1..][..k];
      k + 1
  }

  /** Number of trailing whitespace characters. */
  function TrailingWhitespace(s: string): (k: nat)
    ensures k <= |s| && forall i :: |s| - k <= i < |s| ==> IsJsWhitespace(s[i])
    ensures k < |s| ==> !IsJsWhitespace(s[|s| - k - 1])
  {
    TrailingWhitespaceBefore(s, |s|)
  }

  /** Number of whitespace characters ending just before position `n`. */
  function TrailingWhitespaceBefore(s: string, n: nat): (k: nat)
    requires n <= |s|
    ensures k <= n && forall i :: n - k <= i < n ==> IsJsWhitespace(s[i])
    ensures k < n ==> !IsJsWhitespace(s[n - k - 1])
  {
    if n == 0 || !IsJsWhitespace(s[n - 1]) then 0 else TrailingWhitespaceBefore(s, n - 1) + 1
  }

  /** `trim`: `s` is the result with a whitespace prefix and a whitespace
      suffix around it. */
  function Trim(s: string): (r: string)
    ensures exists p, q :: s == p + r + q && AllWhitespace(p) && AllWhitespace(q)
  {
    var a := LeadingWhitespace(s);
    var t := s[a..];
    var b := TrailingWhitespace(t);
    var r := t[..|t| - b];
    assert s == s[..a] + r + t[|t| - b..];
    assert AllWhitespace(t[|t| - b..]);
    r
  }

  /** `!s.trim()` holds exactly for strings made only of whitespace. */
  lemma TrimEmptyIff(s: string)
    ensures Trim(s) == "" <==> AllWhitespace(s)
  {
    var a := LeadingWhitespace(s);
    var t := s[a..];
    var b := TrailingWhitespace(t);
    if a < |s| {
      // s[a] is not whitespace, so it survives the trailing strip too
      assert t[0] == s[a];
      assert b < |t|;
      assert Trim(s) != "";
      assert !AllWhitespace(s);
    } else {
      assert s[..a] == s;
    }
  }

  /** The trimmed string neither starts nor ends with whitespace. */
  lemma TrimStripsBothEnds(s: string)
    ensures var r := Trim(s); r == "" || (!IsJsWhitespace(r[0]) && !IsJsWhitespace(r[|r| - 1]))
  {
    var a := LeadingWhitespace(s);
    var t := s[a..];
    var b := TrailingWhitespace(t);
    var r := t[..|t| - b];
    if r != "" {
      assert r[0] == t[0];
      assert r[|r| - 1] == t[|t| - b - 1];
    }
  }

  // ---------------------------------------------------------------------------
  // Decimal rendering and `padStart`
  // ---------------------------------------------------------------------------

  function DigitChar(d: nat): char
    requires d < 10
  {
    ('0' as int + d) as char
  }

  predicate IsDigit(c: char)
  {
    '0' <= c <= '9'
  }

  function DigitValue(c: char): nat
    requires IsDigit(c)
  {
    c as int - '0' as int
  }

  /** The number a non-empty string of decimal digits denotes. */
  function DigitsValue(s: string): nat
    requires forall i :: 0 <= i < |s| ==> IsDigit(s[i])
    decreases |s|
  {
    if |s| == 0 then 0 else DigitsValue(s[..|s| - 1]) * 10 + DigitValue(s[|s| - 1])
  }

  /** The shortest decimal rendering of `n`, as `String(n)` gives it. */
  function NatToDecimal(n: nat): (r: string)
    ensures |r| >= 1
    ensures forall i :: 0 <= i < |r| ==> IsDigit(r[i])
    ensures DigitsValue(r) == n
    ensures n >= 10 ==> r[0] != '0'
    ensures |r| == 1 <==> n < 10
    decreases n
  {
    if n < 10 then [DigitChar(n)]
    else
      var p := NatToDecimal(n / 10);
      var r := p + [DigitChar(n % 10)];
      assert r[..|r| - 1] == p;
      r
  }

  lemma NatToDecimalLength(n: nat, width: nat)
    requires width >= 1
    ensures |NatToDecimal(n)| <= width <==> n < Pow10(width)
    decreases width
  {
    if width > 1 && n >= 10 {
      NatToDecimalLength(n / 10, width - 1);
    }
  }

  function Pow10(k: nat): (r: nat)
    ensures r >= 1
  {
    if k == 0 then 1 else 10 * Pow10(k - 1)
  }

  /** `String(x)` for an integer: a minus sign, then the digits of |x|. */
  function IntToDecimal(x: int): string
  {
    if x < 0 then "-" + NatToDecimal(-x) else NatToDecimal(x)
  }

  /** `s.padStart(width, c)`. */
  function PadStart(s: string, width: nat, c: char): (r: string)
    ensures |r| == if |s| >= width then |s| else width
    ensures r[|r| - |s|..] == s
    ensures forall i :: 0 <= i < |r| - |s| ==> r[i] == c
  {
    if |s| >= width then s else seq(width - |s|, _ => c) + s
  }

  // ---------------------------------------------------------------------------
  // Python `str.split(sep)` with an explicit separator
  // ---------------------------------------------------------------------------

  function Split(s: string, sep: char): (r: seq<string>)
    ensures |r| >= 1
    decreases |s|
  {
    if |s| == 0 then [""]
    else if s[0] == sep then [""] + Split(s[1..], sep)
    else
      var rest := Split(s[1..], sep);
      [[s[0]] + rest[0]] + rest[1..]
  }

  function Join(fields: seq<string>, sep: char): string
    requires |fields| >= 1
    decreases |fields|
  {
    if |fields| == 1 then fields[0] else fields[0] + [sep] + Join(fields[1..], sep)
  }

  /** Splitting and re-joining with the same separator gives back the string. */
  lemma {:induction false} JoinSplit(s: string, sep: char)
    ensures Join(Split(s, sep), sep) == s
    decreases |s|
  {
    if |s| == 0 {
    } else if s[0] == sep {
      JoinSplit(s[1..], sep);
      assert s == [sep] + s[1..];
    } else {
      var rest := Split(s[1..], sep);
      JoinSplit(s[1..], sep);
      if |rest| == 1 {
        assert s == [s[0]] + rest[0];
      } else {
        assert rest == [rest[0]] + rest[1..];
        assert Join(rest, sep) == rest[0] + [sep] + Join(rest[1..], sep);
        assert ([[s[0]] + rest[0]] + rest[1..])[1..] == rest[1..];
        assert s == [s[0]] + s[1..];
      }
    }
  }

  /** No field of a split contains the separator. */
  lemma {:induction false} SplitFieldsHaveNoSeparator(s: string, sep: char)
    ensures forall i :: 0 <= i < |Split(s, sep)| ==> sep !in Split(s, sep)[i]
    decreases |s|
  {
    if |s| > 0 {
      SplitFieldsHaveNoSeparator(s[1..], sep);
    }
  }

  /** A string that contains the separator splits into at least two fields. */
  lemma {:induction false} SplitAtLeastTwo(s: string, sep: char)
    requires sep in s
    ensures |Split(s, sep)| >= 2
    decreases |s|
  {
    if s[0] != sep {
      SplitAtLeastTwo(s[1..], sep);
    }
  }

  /** Splitting a string that starts with a separator-free prefix followed by
      the separator: the first field is the prefix, the rest splits the tail. */
  lemma {:induction false} SplitAfterPrefix(p: string, sep: char, tail: string)
    requires sep !in p
    ensures Split(p + [sep] + tail, sep) == [p] + Split(tail, sep)
    decreases |p|
  {
    if |p| == 0 {
      assert p + [sep] + tail == [sep] + tail;
      assert ([sep] + tail)[1..] == tail;
    } else {
      SplitAfterPrefix(p[1..], sep, tail);
      assert (p + [sep] + tail)[1..] == p[1..] + [sep] + tail;
      assert [p[0]] + p[1..] == p;
    }
  }

  /** A string without the separator is a single field. */
  lemma {:induction false} SplitWithoutSeparator(s: string, sep: char)
    requires sep !in s
    ensures Split(s, sep) == [s]
    decreases |s|
  {
    if |s| > 0 {
      SplitWithoutSeparator(s[1..], sep);
      assert [s[0]] + s[1..] == s;
    }
  }
}
