/**
 * The text cleanup `src/lib/server/contentFetcher.ts` applies to Wikipedia
 * summaries and articles: `[digits]` citation markers become spaces, runs of
 * white space become one space, and the ends are trimmed.
 */
module TextCleanup {
  import opened Strings

  /** The number of digits `s` starts with. */
  function DigitRun(s: string): (n: nat)
    ensures n <= |s|
    ensures forall i :: 0 <= i < n ==> IsDigit(s[i])
    ensures n < |s| ==> !IsDigit(s[n])
  {
    if s != [] && IsDigit(s[0]) then
      var n := DigitRun(s[1..]);
      assert forall i :: 1 <= i < 1 + n ==> s[i] == s[1..][i - 1];
      1 + n
    else 0
  }

  /** The length of the `[digits]` citation marker `s` starts with; 0 when it starts with none. */
  function MarkerLen(s: string): (n: nat)
    ensures n == 0 || (3 <= n <= |s| && s[0] == '[' && s[n - 1] == ']')
  {
    if s == [] || s[0] != '[' then 0
    else
      var d := DigitRun(s[1..]);
      if 1 <= d && d + 1 < |s| && s[d + 1] == ']' then d + 2 else 0
  }

  /** No citation marker starts anywhere in `s`. */
  predicate NoMarker(s: string) {
    forall i :: 0 <= i < |s| ==> MarkerLen(s[i..]) == 0
  }

  /** `replace(/\[[0-9]+\]/g, ' ')`: scanning left to right, each marker becomes one space. */
  function StripCitations(s: string): (r: string)
    ensures s == [] <==> r == []
    ensures s != [] ==> r[0] == (if MarkerLen(s) > 0 then ' ' else s[0])
    decreases |s|
  {
    if s == [] then []
    else if MarkerLen(s) > 0 then [' '] + StripCitations(s[MarkerLen(s)..])
    else [s[0]] + StripCitations(s[1..])
  }

  /** `replace(/\s+/g, ' ')`: each run of white space becomes one space. */
  function CollapseSpace(s: string): (r: string)
    ensures s == [] <==> r == []
    ensures s != [] ==> r[0] == (if IsSpace(s[0]) then ' ' else s[0])
    decreases |s|
  {
    if s == [] then []
    else if IsSpace(s[0]) then [' '] + CollapseSpace(DropRun(s, IsSpace))
    else [s[0]] + CollapseSpace(s[1..])
  }

  /** The only white space is single plain spaces. */
  predicate SingleSpaced(s: string) {
    forall i :: 0 <= i < |s| && IsSpace(s[i]) ==> s[i] == ' ' && (i + 1 == |s| || !IsSpace(s[i + 1]))
  }

  /** A text with no white space at its ends, only single spaces and no
      citation marker. */
  predicate IsCleanText(t: string) {
    && (t == [] || (!IsSpace(t[0]) && !IsSpace(t[|t| - 1])))
    && SingleSpaced(t)
    && NoMarker(t)
  }

  /** The cleanup applied to summaries (`:235`) and to the article text (`:351`). */
  function Clean(s: string): string {
    Trim(CollapseSpace(StripCitations(s)))
  }

  lemma AppendAssoc(a: string, b: string, c: string)
    ensures a + (b + c) == (a + b) + c
  {
  }

  lemma DigitNotSpace(c: char)
    requires IsDigit(c)
    ensures !IsSpace(c)
  {
  }

  /** The white-space pass copies a character that is not white space. */
  /** The head and a slice of the tail make a slice of the whole. */
  lemma ConsSlice(s: string, d: nat)
    requires 0 < d <= |s|
    ensures [s[0]] + s[1..][..d - 1] == s[..d] && s[1..][d - 1..] == s[d..]
  {
  }

  lemma CollapseStep(s: string)
    requires s != [] && !IsSpace(s[0])
    ensures CollapseSpace(s) == [s[0]] + CollapseSpace(s[1..])
  {
  }

  /** A digit prefix of known length is the whole digit run. */
  lemma {:induction false} DigitRunExact(s: string, d: nat)
    requires d <= |s| && (forall i :: 0 <= i < d ==> IsDigit(s[i])) && (d == |s| || !IsDigit(s[d]))
    ensures DigitRun(s) == d
  {
    if d > 0 {
      DigitRunExact(s[1..], d - 1);
    }
  }

  /** A marker at the start of a prefix is a marker of the whole string. */
  lemma MarkerOfPrefix(p: string, u: string)
    requires p <= u && MarkerLen(p) > 0
    ensures MarkerLen(u) == MarkerLen(p)
  {
    var d := DigitRun(p[1..]);
    DigitRunExact(u[1..], d);
  }

  lemma NoMarkerSuffix(s: string, k: nat)
    requires NoMarker(s) && k <= |s|
    ensures NoMarker(s[k..])
  {
    forall i | 0 <= i < |s| - k ensures MarkerLen(s[k..][i..]) == 0 {
      assert s[k..][i..] == s[k + i..];
    }
  }

  /** Cutting a marker-free string leaves it marker-free. */
  lemma NoMarkerSlice(s: string, a: nat, b: nat)
    requires NoMarker(s) && a <= b <= |s|
    ensures NoMarker(s[a..b])
  {
    forall i | 0 <= i < b - a ensures MarkerLen(s[a..b][i..]) == 0 {
      assert s[a..b][i..] <= s[a + i..];
      if MarkerLen(s[a..b][i..]) > 0 {
        MarkerOfPrefix(s[a..b][i..], s[a + i..]);
      }
    }
  }

  /** Digits pass through the citation pass unchanged. */
  lemma {:induction false} StripOverDigits(s: string, d: nat)
    requires d <= |s| && forall i :: 0 <= i < d ==> IsDigit(s[i])
    ensures StripCitations(s) == s[..d] + StripCitations(s[d..])
  {
    if d > 0 {
      var t := s[1..];
      StripOverDigits(t, d - 1);
      calc {
        StripCitations(s);
        { assert MarkerLen(s) == 0; }
        [s[0]] + StripCitations(t);
        [s[0]] + (t[..d - 1] + StripCitations(t[d - 1..]));
        { AppendAssoc([s[0]], t[..d - 1], StripCitations(t[d - 1..])); }
        ([s[0]] + t[..d - 1]) + StripCitations(t[d - 1..]);
        { ConsSlice(s, d); }
        s[..d] + StripCitations(s[d..]);
      }
    }
  }

  /** Digits pass through the white-space pass unchanged. */
  lemma {:induction false} CollapseOverDigits(s: string, d: nat)
    requires d <= |s| && forall i :: 0 <= i < d ==> IsDigit(s[i])
    ensures CollapseSpace(s) == s[..d] + CollapseSpace(s[d..])
  {
    if d > 0 {
      var t := s[1..];
      CollapseOverDigits(t, d - 1);
      calc {
        CollapseSpace(s);
        { DigitNotSpace(s[0]); CollapseStep(s); }
        [s[0]] + CollapseSpace(t);
        [s[0]] + (t[..d - 1] + CollapseSpace(t[d - 1..]));
        { AppendAssoc([s[0]], t[..d - 1], CollapseSpace(t[d - 1..])); }
        ([s[0]] + t[..d - 1]) + CollapseSpace(t[d - 1..]);
        { ConsSlice(s, d); }
        s[..d] + CollapseSpace(s[d..]);
      }
    }
  }

  /** `'[' + digits + rest` starts no marker when `rest` is empty or starts
      with something other than a digit or `]`. */
  lemma NoMarkerAfterBracket(r: string, digits: string, rest: string)
    requires r == ['['] + digits + rest
    requires forall i :: 0 <= i < |digits| ==> IsDigit(digits[i])
    requires rest == [] || (!IsDigit(rest[0]) && (|digits| >= 1 ==> rest[0] != ']'))
    ensures MarkerLen(r) == 0
  {
    assert r[1..] == digits + rest;
    DigitRunExact(r[1..], |digits|);
  }

  /** A marker-free tail behind a head that starts no marker. */
  lemma NoMarkerCons(x: char, rest: string)
    requires NoMarker(rest) && MarkerLen([x] + rest) == 0
    ensures NoMarker([x] + rest)
  {
    var r := [x] + rest;
    forall i | 0 <= i < |r| ensures MarkerLen(r[i..]) == 0 {
      if i == 0 {
        assert r[0..] == r;
      } else {
        assert r[i..] == rest[i - 1..];
      }
    }
  }

  /** A `[` that starts no marker still starts none after the citation pass. */
  lemma StripAfterBracket(s: string)
    requires s != [] && s[0] == '[' && MarkerLen(s) == 0
    ensures MarkerLen([s[0]] + StripCitations(s[1..])) == 0
  {
    var t := s[1..];
    var d := DigitRun(t);
    var rest := StripCitations(t[d..]);
    StripOverDigits(t, d);
    AppendAssoc([s[0]], t[..d], rest);
    assert rest == [] || (!IsDigit(rest[0]) && (d >= 1 ==> rest[0] != ']')) by {
      if rest != [] {
        assert t[d..][0] == t[d] == s[d + 1];
        assert rest[0] == ' ' || rest[0] == t[d];
      }
    }
    NoMarkerAfterBracket([s[0]] + StripCitations(t), t[..d], rest);
  }

  /** A `[` that starts no marker still starts none after the white-space pass. */
  lemma CollapseAfterBracket(s: string)
    requires s != [] && s[0] == '[' && MarkerLen(s) == 0
    ensures MarkerLen([s[0]] + CollapseSpace(s[1..])) == 0
  {
    var t := s[1..];
    var d := DigitRun(t);
    CollapseOverDigits(t, d);
    NoMarkerAfterBracket([s[0]] + CollapseSpace(t), t[..d], CollapseSpace(t[d..]));
  }

  /** No marker survives the citation pass. */
  lemma {:induction false} StripLeavesNoMarker(s: string)
    ensures NoMarker(StripCitations(s))
    decreases |s|
  {
    if s != [] {
      var k := if MarkerLen(s) > 0 then MarkerLen(s) else 1;
      var x := if MarkerLen(s) > 0 then ' ' else s[0];
      var rest := StripCitations(s[k..]);
      StripLeavesNoMarker(s[k..]);
      assert StripCitations(s) == [x] + rest;
      if x == '[' {
        StripAfterBracket(s);
      }
      NoMarkerCons(x, rest);
    }
  }

  /** The citation pass leaves a marker-free string as it is. */
  lemma {:induction false} StripOfNoMarker(s: string)
    requires NoMarker(s)
    ensures StripCitations(s) == s
    decreases |s|
  {
    if s != [] {
      assert s[0..] == s;
      NoMarkerSuffix(s, 1);
      StripOfNoMarker(s[1..]);
    }
  }

  /** After the white-space pass, white space comes only as single spaces. */
  lemma {:induction false} CollapseSingleSpaced(s: string)
    ensures SingleSpaced(CollapseSpace(s))
    decreases |s|
  {
    if s != [] {
      var r := CollapseSpace(s);
      var next := if IsSpace(s[0]) then DropRun(s, IsSpace) else s[1..];
      var rest := CollapseSpace(next);
      CollapseSingleSpaced(next);
      assert r == [r[0]] + rest;
      forall i | 0 <= i < |r| && IsSpace(r[i]) ensures r[i] == ' ' && (i + 1 == |r| || !IsSpace(r[i + 1])) {
        if i > 0 {
          assert r[i] == rest[i - 1];
          if i + 1 < |r| {
            assert r[i + 1] == rest[i];
          }
        }
      }
    }
  }

  /** The white-space pass keeps a marker-free string marker-free. */
  lemma {:induction false} CollapseKeepsNoMarker(s: string)
    requires NoMarker(s)
    ensures NoMarker(CollapseSpace(s))
    decreases |s|
  {
    if s != [] {
      var next := if IsSpace(s[0]) then DropRun(s, IsSpace) else s[1..];
      var x := if IsSpace(s[0]) then ' ' else s[0];
      var rest := CollapseSpace(next);
      NoMarkerSuffix(s, |s| - |next|);
      assert s[|s| - |next|..] == next;
      CollapseKeepsNoMarker(next);
      assert CollapseSpace(s) == [x] + rest;
      if x == '[' {
        assert s[0..] == s;
        CollapseAfterBracket(s);
      }
      NoMarkerCons(x, rest);
    }
  }

  /** The white-space pass leaves a single-spaced string as it is. */
  lemma {:induction false} CollapseOfSingleSpaced(s: string)
    requires SingleSpaced(s)
    ensures CollapseSpace(s) == s
    decreases |s|
  {
    if s != [] {
      assert SingleSpaced(s[1..]) by {
        SingleSpacedSlice(s, 1, |s|);
        assert s[1..|s|] == s[1..];
      }
      if IsSpace(s[0]) {
        assert DropRun(s, IsSpace) == s[1..];
      } else {
        CollapseStep(s);
      }
      CollapseOfSingleSpaced(s[1..]);
    }
  }

  /** A slice of a single-spaced string is single-spaced. */
  lemma SingleSpacedSlice(s: string, a: nat, b: nat)
    requires SingleSpaced(s) && a <= b <= |s|
    ensures SingleSpaced(s[a..b])
  {
    forall i | 0 <= i < b - a && IsSpace(s[a..b][i])
      ensures s[a..b][i] == ' ' && (i + 1 == b - a || !IsSpace(s[a..b][i + 1]))
    {
      assert s[a..b][i] == s[a + i];
    }
  }

  /** The cleaned text has no white space at either end, white space only as
      single spaces, and no citation marker. */
  lemma CleanShape(s: string)
    ensures IsCleanText(Clean(s))
  {
    var stripped := StripCitations(s);
    var collapsed := CollapseSpace(stripped);
    StripLeavesNoMarker(s);
    CollapseKeepsNoMarker(stripped);
    CollapseSingleSpaced(stripped);
    var a, b := TrimIsSlice(collapsed);
    NoMarkerSlice(collapsed, a, b);
    SingleSpacedSlice(collapsed, a, b);
  }

  /** `trim()` leaves a string without white space at its ends as it is. */
  lemma TrimOfTrimmed(s: string)
    requires s == [] || (!IsSpace(s[0]) && !IsSpace(s[|s| - 1]))
    ensures Trim(s) == s
  {
  }

  /** Cleaning twice is cleaning once. */
  lemma CleanIdempotent(s: string)
    ensures Clean(Clean(s)) == Clean(s)
  {
    var c := Clean(s);
    CleanShape(s);
    StripOfNoMarker(c);
    CollapseOfSingleSpaced(c);
    TrimOfTrimmed(c);
  }
}
