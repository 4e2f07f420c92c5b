/**
 * The pieces of JavaScript's string library the pipeline relies on, written
 * out as functions over `seq<char>`: white space as `\s` and `trim()` see it,
 * `toLowerCase()` on ASCII, `includes`, `join`, `split` on runs of a character
 * class, `replace` of one character, and decimal rendering of indices.
 */
module Strings {

  /** The characters JavaScript's `\s` matches and `trim()` removes
      (ECMAScript WhiteSpace and LineTerminator). */
  predicate IsSpace(c: char) {
    || c == ' ' || c == '\t' || c == '\n' || c == '\r'
    || c == '\U{000B}' || c == '\U{000C}' || c == '\U{00A0}' || c == '\U{1680}'
    || ('\U{2000}' <= c <= '\U{200A}')
    || c == '\U{2028}' || c == '\U{2029}' || c == '\U{202F}' || c == '\U{205F}'
    || c == '\U{3000}' || c == '\U{FEFF}'
  }

  /** The characters a regular-expression `.` refuses to match. */
  predicate IsLineTerminator(c: char) {
    c == '\n' || c == '\r' || c == '\U{2028}' || c == '\U{2029}'
  }

  predicate AllSpace(s: string) {
    forall i :: 0 <= i < |s| ==> IsSpace(s[i])
  }

  predicate NoLineTerminator(s: string) {
    forall i :: 0 <= i < |s| ==> !IsLineTerminator(s[i])
  }

  /** `trimStart()`: drops the leading white space. */
  function TrimStart(s: string): (r: string)
    ensures |r| <= |s| && r == s[|s| - |r|..]
    ensures r == [] || !IsSpace(r[0])
    ensures AllSpace(s[..|s| - |r|])
  {
    if s == [] || !IsSpace(s[0]) then s
    else
      var r := TrimStart(s[1..]);
      assert s[1..][..|s| - 1 - |r|] == s[1..|s| - |r|];
      r
  }

  /** `trimEnd()`: drops the trailing white space. */
  function TrimEnd(s: string): (r: string)
    ensures |r| <= |s| && r == s[..|r|]
    ensures r == [] || !IsSpace(r[|r| - 1])
    ensures AllSpace(s[|r|..])
  {
    if s == [] || !IsSpace(s[|s| - 1]) then s
    else
      var r := TrimEnd(s[..|s| - 1]);
      assert s[..|s| - 1][..|r|] == s[..|r|];
      r
  }

  /** `trim()`: the slice of `s` left after dropping white space at both ends. */
  function Trim(s: string): (r: string)
    ensures r == [] || (!IsSpace(r[0]) && !IsSpace(r[|r| - 1]))
  {
    TrimEnd(TrimStart(s))
  }

  /** `trim()` is a slice of its argument with only white space cut away. */
  lemma TrimIsSlice(s: string) returns (a: nat, b: nat)
    ensures a <= b <= |s| && Trim(s) == s[a..b]
    ensures AllSpace(s[..a]) && AllSpace(s[b..])
  {
    var t := TrimStart(s);
    var e := TrimEnd(t);
    a := |s| - |t|;
    b := a + |e|;
    assert e == s[a..b] by {
      assert t == s[a..];
    }
    assert t[|e|..] == s[b..] by {
      assert t == s[a..];
    }
  }

  /** `trim()` gives the empty string exactly when there is nothing but white space. */
  lemma TrimEmptyIffAllSpace(s: string)
    ensures Trim(s) == [] <==> AllSpace(s)
  {
    var a, b := TrimIsSlice(s);
    if Trim(s) == [] {
      forall i | 0 <= i < |s| ensures IsSpace(s[i]) {
        if i < a { assert s[..a][i] == s[i]; } else { assert s[b..][i - b] == s[i]; }
      }
    }
    if AllSpace(s) {
      TrimStartOfSpace(s);
    }
  }

  lemma {:induction false} TrimStartOfSpace(s: string)
    requires AllSpace(s)
    ensures TrimStart(s) == []
  {
    if s != [] {
      assert AllSpace(s[1..]) by {
        forall i | 0 <= i < |s| - 1 ensures IsSpace(s[1..][i]) { assert s[1..][i] == s[i + 1]; }
      }
      TrimStartOfSpace(s[1..]);
    }
  }

  /** Every character of `trim(s)` comes from `s`. */
  lemma TrimChars(s: string)
    ensures forall c :: c in Trim(s) ==> c in s
  {
    var a, b := TrimIsSlice(s);
    forall c | c in Trim(s) ensures c in s {
      var k :| 0 <= k < |Trim(s)| && Trim(s)[k] == c;
      assert s[a + k] == c;
    }
  }

  /** `toLowerCase()` on one character; only A-Z are folded (see README). */
  function LowerChar(c: char): char {
    if 'A' <= c <= 'Z' then (c as int + 32) as char else c
  }

  function Lower(s: string): (r: string)
    ensures |r| == |s|
  {
    seq(|s|, i requires 0 <= i < |s| => LowerChar(s[i]))
  }

  /** `s.includes(pat)`. */
  predicate Contains(s: string, pat: string)
    decreases |s|
  {
    pat <= s || (s != [] && Contains(s[1..], pat))
  }

  /** A string contains every character of a string it contains. */
  lemma {:induction false} ContainsChars(s: string, pat: string)
    ensures Contains(s, pat) ==> forall c :: c in pat ==> c in s
    decreases |s|
  {
    if Contains(s, pat) && !(pat <= s) {
      ContainsChars(s[1..], pat);
      forall c | c in pat ensures c in s {
        assert c in s[1..];
        var k :| 0 <= k < |s| - 1 && s[1..][k] == c;
        assert s[k + 1] == c;
      }
    } else if pat <= s {
      forall c | c in pat ensures c in s {
        var k :| 0 <= k < |pat| && pat[k] == c;
        assert s[k] == c;
      }
    }
  }

  /** `parts.join(sep)`. */
  function Join(parts: seq<string>, sep: string): string
    decreases |parts|
  {
    if |parts| == 0 then ""
    else if |parts| == 1 then parts[0]
    else parts[0] + sep + Join(parts[1..], sep)
  }

  /** Joining two non-empty lists is joining their joins. */
  lemma {:induction false} JoinAppend(xs: seq<string>, ys: seq<string>, sep: string)
    requires xs != [] && ys != []
    ensures Join(xs + ys, sep) == Join(xs, sep) + sep + Join(ys, sep)
    decreases |xs|
  {
    if |xs| == 1 {
      assert (xs + ys)[1..] == ys;
    } else {
      assert (xs + ys)[1..] == xs[1..] + ys;
      JoinAppend(xs[1..], ys, sep);
    }
  }

  /** `s.replace(/[c]/g, d)`: every `c` becomes `d`. */
  function ReplaceChar(s: string, c: char, d: char): (r: string)
    ensures |r| == |s|
    ensures forall i :: 0 <= i < |s| ==> r[i] == (if s[i] == c then d else s[i])
  {
    seq(|s|, i requires 0 <= i < |s| => if s[i] == c then d else s[i])
  }

  /** Drops the leading characters of `s` that satisfy `sep`. */
  function DropRun(s: string, sep: char -> bool): (r: string)
    ensures |r| <= |s| && r == s[|s| - |r|..]
    ensures s != [] && sep(s[0]) ==> |r| < |s|
    ensures r == [] || !sep(r[0])
    ensures forall i :: 0 <= i < |s| - |r| ==> sep(s[i])
  {
    if s == [] || !sep(s[0]) then s
    else
      var r := DropRun(s[1..], sep);
      assert s[1..][|s| - 1 - |r|..] == s[|s| - |r|..];
      assert forall i :: 1 <= i < |s| - |r| ==> s[i] == s[1..][i - 1];
      r
  }

  /** `s.split(/[x]+/)` where `sep` is the character class `[x]`: the pieces
      between maximal runs of separator characters, empty pieces included. */
  function SplitRuns(s: string, sep: char -> bool): (r: seq<string>)
    ensures |r| >= 1
    ensures forall i, k :: 0 <= i < |r| && 0 <= k < |r[i]| ==> !sep(r[i][k])
    decreases |s|
  {
    if s == [] then [""]
    else if sep(s[0]) then [""] + SplitRuns(DropRun(s, sep), sep)
    else
      var rest := SplitRuns(s[1..], sep);
      [[s[0]] + rest[0]] + rest[1..]
  }

  /** Every character of a piece of `SplitRuns(s, sep)` comes from `s`. */
  lemma {:induction false} SplitRunsChars(s: string, sep: char -> bool)
    ensures forall i, c :: 0 <= i < |SplitRuns(s, sep)| && c in SplitRuns(s, sep)[i] ==> c in s
    decreases |s|
  {
    if s == [] {
    } else if sep(s[0]) {
      var d := DropRun(s, sep);
      SplitRunsChars(d, sep);
      forall c | c in d ensures c in s {
        var k :| 0 <= k < |d| && d[k] == c;
        assert s[|s| - |d| + k] == c;
      }
    } else {
      SplitRunsChars(s[1..], sep);
      var rest := SplitRuns(s[1..], sep);
      forall i, c | 0 <= i < |SplitRuns(s, sep)| && c in SplitRuns(s, sep)[i] ensures c in s {
        var piece := if i == 0 then rest[0] else rest[i];
        if i == 0 && c !in rest[0] {
          assert c == s[0];
        } else {
          assert c in piece;
          assert c in s[1..];
          var k :| 0 <= k < |s| - 1 && s[1..][k] == c;
          assert s[k + 1] == c;
        }
      }
    }
  }

  function DigitChar(d: nat): char
    requires d < 10
  {
    ('0' as int + d) as char
  }

  predicate IsDigit(c: char) {
    '0' <= c <= '9'
  }

  /** The decimal rendering of an index, as template literals produce it. */
  function NatToString(n: nat): (r: string)
    ensures |r| >= 1
    ensures forall i :: 0 <= i < |r| ==> IsDigit(r[i])
  {
    if n < 10 then [DigitChar(n)] else NatToString(n / 10) + [DigitChar(n % 10)]
  }

  /** The value of a string of decimal digits. */
  function DigitsValue(s: string): nat
    requires forall i :: 0 <= i < |s| ==> IsDigit(s[i])
  {
    if s == [] then 0 else 10 * DigitsValue(s[..|s| - 1]) + DigitValue(s[|s| - 1])
  }

  function DigitValue(c: char): nat
    requires IsDigit(c)
  {
    c as int - '0' as int
  }

  /** Reading back the decimal rendering gives the number. */
  lemma {:induction false} NatToStringRoundTrip(n: nat)
    ensures DigitsValue(NatToString(n)) == n
  {
    if n >= 10 {
      var r := NatToString(n);
      assert r[..|r| - 1] == NatToString(n / 10);
      NatToStringRoundTrip(n / 10);
    }
  }

  /** Distinct indices render to distinct strings. */
  lemma NatToStringInjective(m: nat, n: nat)
    ensures NatToString(m) == NatToString(n) ==> m == n
  {
    NatToStringRoundTrip(m);
    NatToStringRoundTrip(n);
  }

  /** A common prefix can be cancelled. */
  lemma CancelPrefix(p: string, a: string, b: string)
    ensures p + a == p + b ==> a == b
  {
    if p + a == p + b {
      assert a == (p + a)[|p|..];
      assert b == (p + b)[|p|..];
    }
  }

  /** Strings that differ only in a decimal suffix after the same prefix name different indices. */
  lemma PrefixedIndexInjective(p: string, m: nat, n: nat)
    ensures p + NatToString(m) == p + NatToString(n) ==> m == n
  {
    CancelPrefix(p, NatToString(m), NatToString(n));
    NatToStringInjective(m, n);
  }
}
