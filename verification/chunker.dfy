/**
 * `chunkText` of src/lib/server/claimExtractor.ts: the text is cut at blank
 * lines into trimmed paragraphs, an over-long paragraph is cut further into
 * sentence-like units, and the units are packed greedily into chunks joined
 * by a blank line, with a cap on the number of chunks.
 */
module Chunker {
  import opened Strings

  /** The separator chunks are joined with. */
  const Sep: string := "\n\n"

  // ---------------------------------------------------------------------
  // Units: text.split(/\n{2,}/) -> trim -> drop empty -> split long ones
  // ---------------------------------------------------------------------

  /** Drops the leading newlines of `s`. */
  function DropNewlines(s: string): (r: string)
    ensures |r| <= |s| && r == s[|s| - |r|..]
    ensures s != [] && s[0] == '\n' ==> |r| < |s|
    ensures forall i :: 0 <= i < |s| - |r| ==> s[i] == '\n'
  {
    if s == [] || s[0] != '\n' then s
    else
      var r := DropNewlines(s[1..]);
      assert s[1..][|s| - 1 - |r|..] == s[|s| - |r|..];
      assert forall i :: 1 <= i < |s| - |r| ==> s[i] == s[1..][i - 1];
      r
  }

  /** `s.split(/\n{2,}/)`: the pieces between runs of two or more newlines
      (a single newline stays inside its piece). */
  function SplitBlankLines(s: string): (r: seq<string>)
    ensures |r| >= 1
    decreases |s|
  {
    if s == [] then [""]
    else if |s| >= 2 && s[0] == '\n' && s[1] == '\n' then [""] + SplitBlankLines(DropNewlines(s))
    else
      var rest := SplitBlankLines(s[1..]);
      [[s[0]] + rest[0]] + rest[1..]
  }

  /** `.map(p => p.trim()).filter(Boolean)`. */
  function Paragraphs(pieces: seq<string>): (r: seq<string>)
    ensures [] !in r
  {
    if pieces == [] then []
    else
      var t := Trim(pieces[0]);
      var rest := Paragraphs(pieces[1..]);
      if t == [] then rest else [t] + rest
  }

  predicate IsTerminator(c: char) {
    c == '.' || c == '!' || c == '?'
  }

  /** Length of the longest prefix of `s` free of `.`, `!`, `?`. */
  function NonTerminatorRun(s: string): (n: nat)
    ensures n <= |s|
    ensures n < |s| ==> IsTerminator(s[n])
  {
    if s == [] || IsTerminator(s[0]) then 0 else 1 + NonTerminatorRun(s[1..])
  }

  /** Length of the longest prefix of `s` made of `.`, `!`, `?`. */
  function TerminatorRun(s: string): (n: nat)
    ensures n <= |s|
    ensures s != [] && IsTerminator(s[0]) ==> n >= 1
  {
    if s == [] || !IsTerminator(s[0]) then 0 else 1 + TerminatorRun(s[1..])
  }

  /** The successive matches of `/[^.!?]+[.!?]+["']?|.+$/g` in `s`. The first
      alternative matches where some non-terminators are followed by a
      terminator; otherwise the second matches only if the rest of `s` holds no
      line terminator; where neither matches, the search moves on one character. */
  function SentenceMatches(s: string): (r: seq<string>)
    ensures forall i :: 0 <= i < |r| ==> r[i] != []
    decreases |s|
  {
    if s == [] then []
    else
      var n := NonTerminatorRun(s);
      if 0 < n < |s| then
        var t := TerminatorRun(s[n..]);
        var q := if n + t < |s| && (s[n + t] == '"' || s[n + t] == '\'') then 1 else 0;
        [s[..n + t + q]] + SentenceMatches(s[n + t + q..])
      else if NoLineTerminator(s) then [s]
      else SentenceMatches(s[1..])
  }

  /** A paragraph longer than `targetLen` becomes its sentence matches, or
      stays whole when there are none (`|| [p]`). */
  function SplitLong(p: string, targetLen: nat): (r: seq<string>)
    requires p != []
    ensures r != []
    ensures forall i :: 0 <= i < |r| ==> r[i] != []
  {
    if |p| > targetLen then
      var m := SentenceMatches(p);
      if m == [] then [p] else m
    else [p]
  }

  function Refine(ps: seq<string>, targetLen: nat): (r: seq<string>)
    requires forall i :: 0 <= i < |ps| ==> ps[i] != []
    ensures r == [] <==> ps == []
    ensures forall i :: 0 <= i < |r| ==> r[i] != []
  {
    if ps == [] then [] else SplitLong(ps[0], targetLen) + Refine(ps[1..], targetLen)
  }

  /** The units the packing loop consumes, in order. */
  function Units(text: string, targetLen: nat): (r: seq<string>)
    ensures forall i :: 0 <= i < |r| ==> r[i] != []
  {
    Refine(Paragraphs(SplitBlankLines(text)), targetLen)
  }

  /** `s` is white space, stated by recursion. */
  predicate Blank(s: string) {
    s == [] || (IsSpace(s[0]) && Blank(s[1..]))
  }

  lemma {:induction false} BlankIsAllSpace(s: string)
    ensures Blank(s) <==> AllSpace(s)
  {
    if s != [] {
      BlankIsAllSpace(s[1..]);
      assert forall i :: 1 <= i < |s| ==> s[i] == s[1..][i - 1];
    }
  }

  lemma {:induction false} BlankDropNewlines(s: string)
    ensures Blank(DropNewlines(s)) == Blank(s)
  {
    if s != [] && s[0] == '\n' {
      BlankDropNewlines(s[1..]);
    }
  }

  /** Every piece is white space. */
  predicate AllBlank(ps: seq<string>) {
    ps == [] || (Blank(ps[0]) && AllBlank(ps[1..]))
  }

  /** The pieces are all white space exactly when the text is. */
  lemma {:induction false} SplitBlankLinesSpace(s: string)
    ensures Blank(s) <==> AllBlank(SplitBlankLines(s))
    decreases |s|
  {
    if s == [] {
    } else if |s| >= 2 && s[0] == '\n' && s[1] == '\n' {
      var d := DropNewlines(s);
      SplitBlankLinesSpace(d);
      BlankDropNewlines(s);
      assert ([""] + SplitBlankLines(d))[1..] == SplitBlankLines(d);
    } else {
      var rest := SplitBlankLines(s[1..]);
      SplitBlankLinesSpace(s[1..]);
      assert ([s[0]] + rest[0])[1..] == rest[0];
      assert ([[s[0]] + rest[0]] + rest[1..])[1..] == rest[1..];
    }
  }

  /** No paragraph survives exactly when every piece is white space. */
  lemma {:induction false} ParagraphsEmpty(pieces: seq<string>)
    ensures Paragraphs(pieces) == [] <==> AllBlank(pieces)
  {
    if pieces != [] {
      TrimEmptyIffAllSpace(pieces[0]);
      BlankIsAllSpace(pieces[0]);
      ParagraphsEmpty(pieces[1..]);
    }
  }

  lemma UnitsEmptyIffNoParagraphs(text: string, targetLen: nat)
    ensures Units(text, targetLen) == [] <==> Paragraphs(SplitBlankLines(text)) == []
  {
  }

  /** The text yields no unit exactly when it is all white space. */
  lemma UnitsEmptyIffAllSpace(text: string, targetLen: nat)
    ensures Units(text, targetLen) == [] <==> AllSpace(text)
  {
    UnitsEmptyIffNoParagraphs(text, targetLen);
    SplitBlankLinesSpace(text);
    ParagraphsEmpty(SplitBlankLines(text));
    BlankIsAllSpace(text);
  }

  // ---------------------------------------------------------------------
  // Packing
  // ---------------------------------------------------------------------

  /** Flattens the groups of units, in order. */
  function Concat(gs: seq<seq<string>>): seq<string>
  {
    if gs == [] then [] else Concat(gs[..|gs| - 1]) + gs[|gs| - 1]
  }

  /** Every unit after the first was appended because the running chunk and
      the unit together (separator not counted) were within `targetLen`. */
  ghost predicate Fits(g: seq<string>, targetLen: nat)
  {
    forall j :: 0 < j < |g| ==> |Join(g[..j], Sep)| + |g[j]| <= targetLen
  }

  /** What the packing loop builds: chunk `k` is the join of the non-empty
      group of units `groups[k]`, each appended unit fitted (`Fits`), and a new
      chunk was started only because its first unit did not fit beside the
      previous chunk. */
  ghost predicate Packed(chunks: seq<string>, groups: seq<seq<string>>, targetLen: nat)
  {
    && |groups| == |chunks|
    && (forall k :: 0 <= k < |chunks| ==>
          chunks[k] != [] && groups[k] != [] && chunks[k] == Join(groups[k], Sep) && Fits(groups[k], targetLen))
    && (forall k :: 0 < k < |chunks| ==> |chunks[k - 1]| + |groups[k][0]| > targetLen)
  }

  /** The state of the packing loop: the chunks pushed so far, the running
      chunk `current`, whether the loop has broken out, and, for the proofs,
      the units behind each chunk, the units behind `current` and how many
      units have been consumed. */
  datatype PackState = PackState(
    chunks: seq<string>, current: string, stopped: bool,
    groups: seq<seq<string>>, group: seq<string>, used: nat)

  /** One iteration of the loop on unit `p` (a stopped loop ignores the rest). */
  function Step(s: PackState, p: string, targetLen: nat, maxChunks: nat): PackState
  {
    if s.stopped then s
    else if |s.current| + |p| > targetLen then
      var chunks := if s.current != "" then s.chunks + [s.current] else s.chunks;
      var groups := if s.current != "" then s.groups + [s.group] else s.groups;
      PackState(chunks, p, |chunks| >= maxChunks, groups, [p], s.used + 1)
    else
      PackState(s.chunks, if s.current != "" then s.current + Sep + p else p, false,
                s.groups, s.group + [p], s.used + 1)
  }

  /** The loop run over `units`. */
  function Run(units: seq<string>, targetLen: nat, maxChunks: nat): PackState
  {
    if units == [] then PackState([], "", false, [], [], 0)
    else Step(Run(units[..|units| - 1], targetLen, maxChunks), units[|units| - 1], targetLen, maxChunks)
  }

  /** The push after the loop, guarded by `<=`. */
  function Finish(s: PackState, maxChunks: nat): PackState
  {
    if s.current != "" && |s.chunks| <= maxChunks
    then s.(chunks := s.chunks + [s.current], groups := s.groups + [s.group])
    else s
  }

  function Packing(units: seq<string>, targetLen: nat, maxChunks: nat): PackState
  {
    Finish(Run(units, targetLen, maxChunks), maxChunks)
  }

  /**
   * `chunkText`. The packing is what the loop builds (`Packing`); see
   * `PackingIsPacked` for what that guarantees.
   */
  method ChunkText(text: string, targetLen: nat, maxChunks: nat) returns (chunks: seq<string>)
    ensures chunks == Packing(Units(text, targetLen), targetLen, maxChunks).chunks
    ensures |chunks| <= maxChunks + 1
    ensures chunks == [] <==> AllSpace(text)
  {
    chunks := Pack(Units(text, targetLen), targetLen, maxChunks);
    PackingIsPacked(Units(text, targetLen), targetLen, maxChunks);
    UnitsEmptyIffAllSpace(text, targetLen);
  }

  /** The loop of `chunkText` over its units. */
  method Pack(units: seq<string>, targetLen: nat, maxChunks: nat) returns (chunks: seq<string>)
    ensures chunks == Packing(units, targetLen, maxChunks).chunks
  {
    chunks := [];
    var current := "";
    var i := 0;
    while i < |units|
      invariant i <= |units|
      invariant chunks == Run(units[..i], targetLen, maxChunks).chunks
      invariant current == Run(units[..i], targetLen, maxChunks).current
      invariant !Run(units[..i], targetLen, maxChunks).stopped
    {
      var p := units[i];
      assert units[..i + 1][..i] == units[..i];
      if |current| + |p| > targetLen {
        if current != "" {
          chunks := chunks + [current];
        }
        current := p;
        i := i + 1;
        if |chunks| >= maxChunks {
          RunStopped(units, i, targetLen, maxChunks);
          break;
        }
      } else {
        current := if current != "" then current + Sep + p else p;
        i := i + 1;
      }
    }
    assert units[..|units|] == units;
    if current != "" && |chunks| <= maxChunks {
      chunks := chunks + [current];
    }
  }

  /** Once the loop has broken out, the remaining units change nothing. */
  lemma {:induction false} RunStopped(units: seq<string>, i: nat, targetLen: nat, maxChunks: nat)
    requires i <= |units| && Run(units[..i], targetLen, maxChunks).stopped
    ensures Run(units, targetLen, maxChunks) == Run(units[..i], targetLen, maxChunks)
    decreases |units| - i
  {
    if i < |units| {
      assert units[..i + 1][..i] == units[..i];
      RunStopped(units, i + 1, targetLen, maxChunks);
    } else {
      assert units[..i] == units;
    }
  }

  /** What holds of the loop state after each prefix of the units. */
  ghost predicate RunInv(units: seq<string>, s: PackState, k: nat, targetLen: nat, maxChunks: nat)
  {
    && s.used <= k
    && PackInv(units, s.used, targetLen, s.chunks, s.groups, s.current, s.group)
    && (s.stopped ==> maxChunks <= |s.chunks| <= maxChunks + 1 && s.used > 0)
    && (!s.stopped ==> s.used == k && |s.chunks| <= maxChunks)
  }

  lemma {:induction false} RunKeeps(units: seq<string>, k: nat, targetLen: nat, maxChunks: nat)
    requires k <= |units|
    requires forall j :: 0 <= j < |units| ==> units[j] != []
    ensures RunInv(units, Run(units[..k], targetLen, maxChunks), k, targetLen, maxChunks)
  {
    if k > 0 {
      var prev := Run(units[..k - 1], targetLen, maxChunks);
      assert Run(units[..k], targetLen, maxChunks) == Step(prev, units[k - 1], targetLen, maxChunks) by {
        assert units[..k][..k - 1] == units[..k - 1];
      }
      RunKeeps(units, k - 1, targetLen, maxChunks);
      StepKeeps(units, prev, k - 1, targetLen, maxChunks);
    }
  }

  lemma StepKeeps(units: seq<string>, s: PackState, k: nat, targetLen: nat, maxChunks: nat)
    requires k < |units|
    requires RunInv(units, s, k, targetLen, maxChunks)
    ensures RunInv(units, Step(s, units[k], targetLen, maxChunks), k + 1, targetLen, maxChunks)
  {
    if !s.stopped {
      if |s.current| + |units[k]| > targetLen {
        FlushKeeps(units, k, targetLen, s.chunks, s.groups, s.current, s.group);
      } else {
        AppendKeeps(units, k, targetLen, s.chunks, s.groups, s.current, s.group);
      }
    }
  }

  /**
   * The guarantees of the packing: every chunk is the blank-line join of a
   * non-empty run of consecutive units, each unit after the first fitted
   * (`Fits`), each new chunk was started because its first unit did not fit;
   * the units used are a prefix of all units, all of them while the cap is not
   * exceeded; there are at most `maxChunks + 1` chunks (the break after the
   * push that reaches `maxChunks`, then the push after the loop, which is
   * guarded by `<=`), and none exactly when there are no units.
   */
  lemma PackingIsPacked(units: seq<string>, targetLen: nat, maxChunks: nat)
    requires forall j :: 0 <= j < |units| ==> units[j] != []
    ensures var r := Packing(units, targetLen, maxChunks);
      && Packed(r.chunks, r.groups, targetLen)
      && |r.chunks| <= maxChunks + 1
      && Concat(r.groups) <= units
      && (|r.chunks| <= maxChunks ==> Concat(r.groups) == units)
      && (r.chunks == [] <==> units == [])
  {
    RunKeeps(units, |units|, targetLen, maxChunks);
    assert units[..|units|] == units;
    var s := Run(units, targetLen, maxChunks);
    FinishKeeps(units, s.used, targetLen, maxChunks, s.chunks, s.groups, s.current, s.group,
                Packing(units, targetLen, maxChunks).chunks, Packing(units, targetLen, maxChunks).groups);
  }

  /** A chunk built from several units exceeds `targetLen` by at most the
      separator, which the size test leaves out; a chunk of one unit is that
      unit, however long. */
  lemma ChunkLength(chunks: seq<string>, groups: seq<seq<string>>, targetLen: nat, k: nat)
    requires Packed(chunks, groups, targetLen) && k < |chunks|
    ensures |groups[k]| == 1 ==> chunks[k] == groups[k][0]
    ensures |groups[k]| >= 2 ==> |chunks[k]| <= targetLen + |Sep|
  {
    var g := groups[k];
    if |g| >= 2 {
      var n := |g| - 1;
      assert g == g[..n] + [g[n]];
      JoinAppend(g[..n], [g[n]], Sep);
    }
  }

  /** Joining the chunks with a blank line gives the join of the units they
      were built from: packing drops and reorders nothing. */
  lemma {:induction false} JoinChunks(chunks: seq<string>, groups: seq<seq<string>>)
    requires |chunks| == |groups|
    requires forall k :: 0 <= k < |chunks| ==> groups[k] != [] && chunks[k] == Join(groups[k], Sep)
    ensures Join(chunks, Sep) == Join(Concat(groups), Sep)
    ensures chunks != [] ==> Concat(groups) != []
  {
    if |chunks| > 0 {
      var n := |chunks| - 1;
      JoinChunks(chunks[..n], groups[..n]);
      assert chunks == chunks[..n] + [chunks[n]];
      assert Concat(groups) == Concat(groups[..n]) + groups[n];
      if n > 0 {
        JoinAppend(chunks[..n], [chunks[n]], Sep);
        JoinAppend(Concat(groups[..n]), groups[n], Sep);
      } else {
        assert groups[..n] == [];
        assert Concat(groups) == groups[0];
      }
    }
  }

  /** The cap is exceeded by one: one unit per chunk and a cap of one chunk
      give two chunks. */
  lemma CapLetsOneMoreOut()
    ensures Packing(["ab", "cd", "ef"], 1, 1).chunks == ["ab", "cd"]
  {
    var u := ["ab", "cd", "ef"];
    assert u[..1] == ["ab"] && u[..2] == ["ab", "cd"] && u[..3] == u;
    assert [u[0]][..0] == [];
    assert Run(["ab"], 1, 1) == PackState([], "ab", false, [], ["ab"], 1);
    assert Run(["ab", "cd"], 1, 1) == PackState(["ab"], "cd", true, [["ab"]], ["cd"], 2);
    assert Run(u, 1, 1) == Run(["ab", "cd"], 1, 1);
  }

  /** The loop invariant behind `PackingIsPacked`: the units before `i` are
      in the flushed groups followed by the running group, whose join is
      `current`. */
  ghost predicate PackInv(units: seq<string>, i: nat, targetLen: nat,
                          chunks: seq<string>, groups: seq<seq<string>>, current: string, group: seq<string>)
  {
    && i <= |units|
    && (forall k :: 0 <= k < |units| ==> units[k] != [])
    && Packed(chunks, groups, targetLen)
    && Concat(groups) + group == units[..i]
    && (group == [] <==> i == 0)
    && (group == [] ==> current == "")
    && (group != [] ==> current == Join(group, Sep) && current != [])
    && Fits(group, targetLen)
    && (chunks != [] ==> group != [] && |chunks[|chunks| - 1]| + |group[0]| > targetLen)
  }

  lemma FlushKeeps(units: seq<string>, i: nat, targetLen: nat,
                   chunks: seq<string>, groups: seq<seq<string>>, current: string, group: seq<string>)
    requires PackInv(units, i, targetLen, chunks, groups, current, group) && i < |units|
    requires |current| + |units[i]| > targetLen
    ensures current != "" ==>
      PackInv(units, i + 1, targetLen, chunks + [current], groups + [group], units[i], [units[i]])
    ensures current == "" ==>
      PackInv(units, i + 1, targetLen, chunks, groups, units[i], [units[i]])
  {
    assert units[..i + 1] == units[..i] + [units[i]];
    if current != "" {
      PackedSnoc(chunks, groups, current, group, targetLen);
      ConcatSnoc(groups, group);
    }
  }

  lemma AppendKeeps(units: seq<string>, i: nat, targetLen: nat,
                    chunks: seq<string>, groups: seq<seq<string>>, current: string, group: seq<string>)
    requires PackInv(units, i, targetLen, chunks, groups, current, group) && i < |units|
    requires |current| + |units[i]| <= targetLen
    ensures PackInv(units, i + 1, targetLen, chunks, groups,
                    if current != "" then current + Sep + units[i] else units[i], group + [units[i]])
  {
    assert units[..i + 1] == units[..i] + [units[i]];
    if current != "" {
      FitsSnoc(group, units[i], targetLen);
    }
  }

  lemma FinishKeeps(units: seq<string>, i: nat, targetLen: nat, maxChunks: nat,
                    chunks: seq<string>, groups: seq<seq<string>>, current: string, group: seq<string>,
                    chunks': seq<string>, groups': seq<seq<string>>)
    requires PackInv(units, i, targetLen, chunks, groups, current, group) && |chunks| <= maxChunks + 1
    requires i == |units| || (|chunks| >= maxChunks && i > 0)
    requires current != "" && |chunks| <= maxChunks ==> chunks' == chunks + [current] && groups' == groups + [group]
    requires !(current != "" && |chunks| <= maxChunks) ==> chunks' == chunks && groups' == groups
    ensures Packed(chunks', groups', targetLen)
    ensures |chunks'| <= maxChunks + 1
    ensures Concat(groups') <= units
    ensures |chunks'| <= maxChunks ==> Concat(groups') == units
    ensures chunks' == [] <==> units == []
  {
    assert Concat(groups) <= units[..i] <= units;
    if current != "" && |chunks| <= maxChunks {
      PackedSnoc(chunks, groups, current, group, targetLen);
      ConcatSnoc(groups, group);
      if i < |units| {
        assert |chunks'| > maxChunks;
      }
    }
    assert units[..|units|] == units;
  }

  lemma PackedSnoc(chunks: seq<string>, groups: seq<seq<string>>, c: string, g: seq<string>, targetLen: nat)
    requires Packed(chunks, groups, targetLen)
    requires c != [] && g != [] && c == Join(g, Sep) && Fits(g, targetLen)
    requires chunks != [] ==> |chunks[|chunks| - 1]| + |g[0]| > targetLen
    ensures Packed(chunks + [c], groups + [g], targetLen)
  {
  }

  lemma FitsSnoc(g: seq<string>, p: string, targetLen: nat)
    requires g != [] && Fits(g, targetLen) && |Join(g, Sep)| + |p| <= targetLen
    ensures Fits(g + [p], targetLen)
    ensures Join(g + [p], Sep) == Join(g, Sep) + Sep + p
  {
    JoinAppend(g, [p], Sep);
    assert (g + [p])[..|g|] == g;
    assert forall j :: 0 < j < |g| ==> (g + [p])[..j] == g[..j];
  }

  lemma ConcatSnoc(gs: seq<seq<string>>, g: seq<string>)
    ensures Concat(gs + [g]) == Concat(gs) + g
  {
    assert (gs + [g])[..|gs|] == gs;
  }
}
