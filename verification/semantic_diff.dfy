/**
 * `src/lib/server/semanticDiff.ts`: the greedy matcher that pairs each claim
 * of source A with the most similar unconsumed claim of source B, and the
 * word-overlap (Dice) similarity it scores pairs with.
 *
 * The scores are exact rationals here. Each comparison with 0.6 and 0.9 is
 * the integer comparison proved in `AboveMatchThreshold` and
 * `BelowExactThreshold`.
 */
module SemanticDiff {
  import opened Wrappers
  import opened Strings
  import opened Claims
  import opened Seqs
  import LlmClient

  datatype ComparisonResult = ComparisonResult(topic: string, discrepancies: seq<Discrepancy>)

  // ---------------------------------------------------------------------
  // calculateSimilarity
  // ---------------------------------------------------------------------

  /** `\w`: an ASCII letter, digit or `_`. */
  predicate IsWordChar(c: char) {
    ('a' <= c <= 'z') || ('A' <= c <= 'Z') || ('0' <= c <= '9') || c == '_'
  }

  predicate IsNonWord(c: char) {
    !IsWordChar(c)
  }

  /** `new Set(s.toLowerCase().split(/\W+/))`: never empty, since `split`
      yields at least one piece (possibly ""). */
  function Words(s: string): (r: set<string>)
    ensures r != {}
  {
    var pieces := SplitRuns(Lower(s), IsNonWord);
    var r := set p | p in pieces;
    assert pieces[0] in r;
    r
  }

  /** `2 * |wa ∩ wb| / (|wa| + |wb|)`. */
  function Dice(wa: set<string>, wb: set<string>): real
    requires wa != {}
  {
    (2 * |wa * wb|) as real / (|wa| + |wb|) as real
  }

  /** The common words are no more than either set. */
  lemma CommonWordsBound(wa: set<string>, wb: set<string>)
    ensures |wa * wb| <= |wa| && |wa * wb| <= |wb|
  {
    assert |wa - wb| == |wa| - |wa * wb|;
    assert |wb - wa| == |wb| - |wb * wa|;
    assert wb * wa == wa * wb;
  }

  lemma DiceRange(wa: set<string>, wb: set<string>)
    requires wa != {}
    ensures 0.0 <= Dice(wa, wb) <= 1.0
  {
    CommonWordsBound(wa, wb);
  }

  /** `calculateSimilarity(a, b)`. */
  function Similarity(a: Claim, b: Claim): (r: real)
    ensures 0.0 <= r <= 1.0
  {
    DiceRange(Words(a.rawText), Words(b.rawText));
    Dice(Words(a.rawText), Words(b.rawText))
  }

  lemma SimilaritySymmetric(a: Claim, b: Claim)
    ensures Similarity(a, b) == Similarity(b, a)
  {
    var wa, wb := Words(a.rawText), Words(b.rawText);
    assert wa * wb == wb * wa;
  }

  /** The coefficient is 1 exactly when the two sets are equal. */
  lemma DiceOneIffEqual(wa: set<string>, wb: set<string>)
    requires wa != {}
    ensures Dice(wa, wb) == 1.0 <==> wa == wb
  {
    var i := wa * wb;
    CommonWordsBound(wa, wb);
    RatioOne(|i|, |wa| + |wb|);
    if Dice(wa, wb) == 1.0 {
      assert |wa - wb| == 0 && |wb - wa| == 0 by {
        assert |wa - wb| == |wa| - |i|;
        assert |wb - wa| == |wb| - |wb * wa|;
        assert wb * wa == i;
      }
      assert wa - wb == {} && wb - wa == {};
      assert wa <= wb && wb <= wa;
    }
  }

  /** The score is 1 exactly when the two texts have the same word set. */
  lemma SimilarityOneIffSameWords(a: Claim, b: Claim)
    ensures Similarity(a, b) == 1.0 <==> Words(a.rawText) == Words(b.rawText)
  {
    DiceOneIffEqual(Words(a.rawText), Words(b.rawText));
  }

  lemma RatioOne(i: nat, n: nat)
    requires n > 0
    ensures (2 * i) as real / n as real == 1.0 <==> 2 * i == n
  {
    var x := (2 * i) as real / n as real;
    assert x * n as real == (2 * i) as real;
  }

  /** For `n > 0`, `2i/n > p/q` exactly when `2iq > pn`. */
  lemma RatioAbove(i: nat, n: nat, p: nat, q: nat)
    requires n > 0 && q > 0
    ensures (2 * i) as real / n as real > p as real / q as real <==> 2 * i * q > p * n
  {
    var x, y := (2 * i) as real / n as real, p as real / q as real;
    assert x * n as real == (2 * i) as real;
    assert y * q as real == p as real;
    assert x * (n * q) as real == (2 * i * q) as real;
    assert y * (n * q) as real == (p * n) as real;
  }

  /** `score > 0.6` as an integer comparison. */
  lemma AboveMatchThreshold(a: Claim, b: Claim)
    ensures var wa, wb := Words(a.rawText), Words(b.rawText);
      Similarity(a, b) > 0.6 <==> 10 * |wa * wb| > 3 * (|wa| + |wb|)
  {
    var wa, wb := Words(a.rawText), Words(b.rawText);
    RatioAbove(|wa * wb|, |wa| + |wb|, 3, 5);
  }

  /** `score < 0.9` as an integer comparison. */
  lemma BelowExactThreshold(a: Claim, b: Claim)
    ensures var wa, wb := Words(a.rawText), Words(b.rawText);
      Similarity(a, b) < 0.9 <==> 20 * |wa * wb| < 9 * (|wa| + |wb|)
  {
    var wa, wb := Words(a.rawText), Words(b.rawText);
    RatioAbove(|wa * wb|, |wa| + |wb|, 9, 10);
    assert (2 * |wa * wb|) as real / (|wa| + |wb|) as real != 9 as real / 10 as real
      <== 20 * |wa * wb| != 9 * (|wa| + |wb|);
  }

  // ---------------------------------------------------------------------
  // compareClaims, as functions
  // ---------------------------------------------------------------------

  /** The inner loop: the index of the first unconsumed B claim with the
      strictly highest score, starting from a best score of 0. */
  function Best(a: Claim, bs: seq<Claim>, consumed: set<string>): (r: Option<nat>)
    ensures r.Some? ==> r.value < |bs| && bs[r.value].id !in consumed && Similarity(a, bs[r.value]) > 0.0
    ensures r.Some? ==> forall j :: 0 <= j < |bs| && bs[j].id !in consumed ==>
      Similarity(a, bs[j]) <= Similarity(a, bs[r.value])
    ensures r.Some? ==> forall j :: 0 <= j < r.value && bs[j].id !in consumed ==>
      Similarity(a, bs[j]) < Similarity(a, bs[r.value])
    ensures r.None? ==> forall j :: 0 <= j < |bs| && bs[j].id !in consumed ==> Similarity(a, bs[j]) == 0.0
  {
    FirstMax(bs, (b: Claim) => Similarity(a, b), (b: Claim) => b.id !in consumed, 0.0)
  }

  /** The B claim paired with `a`: the candidate, when its score is above 0.6. */
  function Choose(a: Claim, bs: seq<Claim>, consumed: set<string>): (r: Option<nat>)
    ensures r.Some? ==> r.value < |bs| && bs[r.value].id !in consumed && Similarity(a, bs[r.value]) > 0.6
    ensures r.Some? ==> r == Best(a, bs, consumed)
    ensures r.None? <==> forall j :: 0 <= j < |bs| && bs[j].id !in consumed ==> Similarity(a, bs[j]) <= 0.6
  {
    var k := Best(a, bs, consumed);
    if k.Some? && Similarity(a, bs[k.value]) > 0.6 then k else None
  }

  function MissingInB(a: Claim): Discrepancy {
    Discrepancy(Missing, "Claim in source A not found in source B: \"" + a.rawText + "\"", 0.9, Some(a), None)
  }

  function MissingInA(b: Claim): Discrepancy {
    Discrepancy(Missing, "Claim in source B not found in source A: \"" + b.rawText + "\"", 0.9, None, Some(b))
  }

  /** What one A claim adds to the list, given the B claim it was paired with. */
  function Entry(hasKey: bool, a: Claim, bs: seq<Claim>, choice: Option<nat>): seq<Discrepancy>
    requires choice.Some? ==> choice.value < |bs|
  {
    match choice
    case None => [MissingInB(a)]
    case Some(k) =>
      if Similarity(a, bs[k]) < 0.9 then
        var s := LlmClient.SummarizeDiscrepancy(hasKey, a, bs[k]);
        if s.kind != Missing then [Discrepancy(s.kind, s.summary, s.confidence, Some(a), Some(bs[k]))] else []
      else []
  }

  /** The state after the outer loop has seen some A claims: the B claim
      each was paired with, the discrepancies so far and the consumed ids. */
  datatype Pass = Pass(choices: seq<Option<nat>>, entries: seq<Discrepancy>, consumed: set<string>)

  function MatchAll(hasKey: bool, claimsA: seq<Claim>, claimsB: seq<Claim>): (p: Pass)
    ensures |p.choices| == |claimsA|
    ensures forall i :: 0 <= i < |claimsA| && p.choices[i].Some? ==> p.choices[i].value < |claimsB|
  {
    if claimsA == [] then Pass([], [], {})
    else
      var p := MatchAll(hasKey, claimsA[..|claimsA| - 1], claimsB);
      var a := claimsA[|claimsA| - 1];
      var c := Choose(a, claimsB, p.consumed);
      Pass(p.choices + [c],
           p.entries + Entry(hasKey, a, claimsB, c),
           if c.Some? then p.consumed + {claimsB[c.value].id} else p.consumed)
  }

  /** The final loop: a `missing` entry for each B claim whose id was not consumed. */
  function Leftovers(bs: seq<Claim>, consumed: set<string>): seq<Discrepancy> {
    if bs == [] then []
    else
      var b := bs[|bs| - 1];
      Leftovers(bs[..|bs| - 1], consumed) + (if b.id in consumed then [] else [MissingInA(b)])
  }

  /** `compareClaims(topic, claimsA, claimsB)`. */
  function Compare(hasKey: bool, topic: string, claimsA: seq<Claim>, claimsB: seq<Claim>): ComparisonResult {
    var p := MatchAll(hasKey, claimsA, claimsB);
    ComparisonResult(topic, p.entries + Leftovers(claimsB, p.consumed))
  }

  // ---------------------------------------------------------------------
  // What compareClaims promises
  // ---------------------------------------------------------------------

  /** The ids of the B claims the A claims were paired with. */
  function ChosenIds(choices: seq<Option<nat>>, bs: seq<Claim>): set<string> {
    set i | 0 <= i < |choices| && choices[i].Some? && choices[i].value < |bs| :: bs[choices[i].value].id
  }

  lemma ChosenIdsSnoc(choices: seq<Option<nat>>, c: Option<nat>, bs: seq<Claim>)
    ensures ChosenIds(choices + [c], bs)
         == ChosenIds(choices, bs) + (if c.Some? && c.value < |bs| then {bs[c.value].id} else {})
  {
    var cs := choices + [c];
    assert cs[|choices|] == c;
    assert forall i :: 0 <= i < |choices| ==> cs[i] == choices[i];
  }

  /** Each B id is consumed by at most one A claim, and the consumed set is
      exactly the ids of the paired B claims. */
  lemma {:induction false} ConsumedOnce(hasKey: bool, claimsA: seq<Claim>, claimsB: seq<Claim>)
    ensures var p := MatchAll(hasKey, claimsA, claimsB);
      && p.consumed == ChosenIds(p.choices, claimsB)
      && forall i, j :: 0 <= i < j < |claimsA| && p.choices[i].Some? && p.choices[j].Some? ==>
           claimsB[p.choices[i].value].id != claimsB[p.choices[j].value].id
  {
    if claimsA != [] {
      var n := |claimsA| - 1;
      ConsumedOnce(hasKey, claimsA[..n], claimsB);
      var p := MatchAll(hasKey, claimsA[..n], claimsB);
      var c := Choose(claimsA[n], claimsB, p.consumed);
      var q := MatchAll(hasKey, claimsA, claimsB);
      assert q.choices == p.choices + [c];
      ChosenIdsSnoc(p.choices, c, claimsB);
      forall i, j | 0 <= i < j < |claimsA| && q.choices[i].Some? && q.choices[j].Some?
        ensures claimsB[q.choices[i].value].id != claimsB[q.choices[j].value].id
      {
        if j == n {
          assert q.choices[i] == p.choices[i];
          assert claimsB[p.choices[i].value].id in ChosenIds(p.choices, claimsB);
        } else {
          assert q.choices[i] == p.choices[i] && q.choices[j] == p.choices[j];
        }
      }
    }
  }

  /** What one A claim contributes: exactly one `missing` entry (confidence
      0.9, only `claimA`) when no unconsumed B claim scores above 0.6;
      nothing when the paired claim scores 0.9 or more; otherwise exactly one
      `contradiction` carrying both claims, because the summariser never
      answers `missing`. */
  lemma EntryCases(hasKey: bool, a: Claim, bs: seq<Claim>, consumed: set<string>)
    ensures var c := Choose(a, bs, consumed);
      var e := Entry(hasKey, a, bs, c);
      && (c.None? ==>
            |e| == 1 && e[0].kind == Missing && e[0].confidence == 0.9
            && e[0].claimA == Some(a) && e[0].claimB == None)
      && (c.Some? && Similarity(a, bs[c.value]) >= 0.9 ==> e == [])
      && (c.Some? && Similarity(a, bs[c.value]) < 0.9 ==>
            |e| == 1 && e[0].kind == Contradiction && e[0].confidence == (if hasKey then 0.9 else 0.8)
            && e[0].claimA == Some(a) && e[0].claimB == Some(bs[c.value]))
  {
  }

  /** The B claims whose id was not consumed, in order. */
  function Unconsumed(bs: seq<Claim>, consumed: set<string>): seq<Claim> {
    Filter(bs, (b: Claim) => b.id !in consumed)
  }

  /** The trailing entries are one `missing` entry (confidence 0.9, only
      `claimB`) per unconsumed B claim, in B order, and none is skipped. */
  lemma {:induction false} LeftoversInOrder(bs: seq<Claim>, consumed: set<string>)
    ensures var u := Unconsumed(bs, consumed);
      && |Leftovers(bs, consumed)| == |u|
      && (forall i :: 0 <= i < |u| ==> Leftovers(bs, consumed)[i] == MissingInA(u[i]))
      && Subsequence(u, bs)
      && (forall b :: b in bs && b.id !in consumed ==> b in u)
  {
    FilterKeeps(bs, (b: Claim) => b.id !in consumed);
    if bs != [] {
      LeftoversInOrder(bs[..|bs| - 1], consumed);
    }
  }

  lemma {:induction false} EntriesBound(hasKey: bool, claimsA: seq<Claim>, claimsB: seq<Claim>)
    ensures |MatchAll(hasKey, claimsA, claimsB).entries| <= |claimsA|
  {
    if claimsA != [] {
      EntriesBound(hasKey, claimsA[..|claimsA| - 1], claimsB);
    }
  }

  lemma {:induction false} LeftoversBound(bs: seq<Claim>, consumed: set<string>)
    ensures |Leftovers(bs, consumed)| <= |bs|
  {
    if bs != [] {
      LeftoversBound(bs[..|bs| - 1], consumed);
    }
  }

  /** Nothing is truncated and nothing is invented: at most one entry per claim. */
  lemma CountBound(hasKey: bool, topic: string, claimsA: seq<Claim>, claimsB: seq<Claim>)
    ensures |Compare(hasKey, topic, claimsA, claimsB).discrepancies| <= |claimsA| + |claimsB|
  {
    EntriesBound(hasKey, claimsA, claimsB);
    LeftoversBound(claimsB, MatchAll(hasKey, claimsA, claimsB).consumed);
  }

  lemma {:induction false} MatchAllWithoutB(hasKey: bool, claimsA: seq<Claim>)
    ensures MatchAll(hasKey, claimsA, []).entries == seq(|claimsA|, i requires 0 <= i < |claimsA| => MissingInB(claimsA[i]))
  {
    if claimsA != [] {
      var n := |claimsA| - 1;
      MatchAllWithoutB(hasKey, claimsA[..n]);
    }
  }

  /** With no B claims, every A claim is reported missing from B, in order. */
  lemma CompareWithoutB(hasKey: bool, topic: string, claimsA: seq<Claim>)
    ensures Compare(hasKey, topic, claimsA, []).discrepancies
         == seq(|claimsA|, i requires 0 <= i < |claimsA| => MissingInB(claimsA[i]))
  {
    MatchAllWithoutB(hasKey, claimsA);
  }

  /** One A claim against an empty B yields one `missing` entry. */
  lemma OneClaimAgainstNothing(hasKey: bool)
    ensures var r := Compare(hasKey, "Topic", [Claim("1", "A", "is", "B", "A is B", 0.9)], []);
      |r.discrepancies| == 1 && r.discrepancies[0].kind == Missing
  {
    CompareWithoutB(hasKey, "Topic", [Claim("1", "A", "is", "B", "A is B", 0.9)]);
  }

  // ---------------------------------------------------------------------
  // compareClaims
  // ---------------------------------------------------------------------

  /** One turn of the outer loop, in terms of what the inner loop found. */
  lemma MatchStep(hasKey: bool, claimsA: seq<Claim>, claimsB: seq<Claim>, i: nat,
                  bestMatch: Option<Claim>, bestScore: real)
    requires i < |claimsA|
    requires var k := Best(claimsA[i], claimsB, MatchAll(hasKey, claimsA[..i], claimsB).consumed);
      && bestMatch == (if k.Some? then Some(claimsB[k.value]) else None)
      && bestScore == (if k.Some? then Similarity(claimsA[i], claimsB[k.value]) else 0.0)
    ensures var p, a := MatchAll(hasKey, claimsA[..i], claimsB), claimsA[i];
      var q := MatchAll(hasKey, claimsA[..i + 1], claimsB);
      if bestMatch.Some? && bestScore > 0.6 then
        && q.consumed == p.consumed + {bestMatch.value.id}
        && q.entries == p.entries +
             (if bestScore < 0.9 then
                var s := LlmClient.SummarizeDiscrepancy(hasKey, a, bestMatch.value);
                if s.kind != Missing then [Discrepancy(s.kind, s.summary, s.confidence, Some(a), bestMatch)] else []
              else [])
      else
        q.consumed == p.consumed && q.entries == p.entries + [MissingInB(a)]
  {
    assert claimsA[..i + 1][..i] == claimsA[..i];
    var p := MatchAll(hasKey, claimsA[..i], claimsB);
    var k := Best(claimsA[i], claimsB, p.consumed);
    var c := Choose(claimsA[i], claimsB, p.consumed);
    assert c == if bestMatch.Some? && bestScore > 0.6 then k else None;
  }

  /** `compareClaims(topic, claimsA, claimsB)`; `hasKey` says whether
      `OPENAI_API_KEY` is set, which is all `summarizeDiscrepancy` looks at. */
  method CompareClaims(hasKey: bool, topic: string, claimsA: seq<Claim>, claimsB: seq<Claim>)
    returns (result: ComparisonResult)
    ensures result == Compare(hasKey, topic, claimsA, claimsB)
  {
    var discrepancies: seq<Discrepancy> := [];
    var matchedB: set<string> := {};
    for i := 0 to |claimsA|
      invariant discrepancies == MatchAll(hasKey, claimsA[..i], claimsB).entries
      invariant matchedB == MatchAll(hasKey, claimsA[..i], claimsB).consumed
    {
      var cA := claimsA[i];
      var bestMatch, bestScore := ScanCandidates(cA, claimsB, matchedB);
      MatchStep(hasKey, claimsA, claimsB, i, bestMatch, bestScore);
      if bestMatch.Some? && bestScore > 0.6 {
        matchedB := matchedB + {bestMatch.value.id};
        if bestScore < 0.9 {
          var summary := LlmClient.SummarizeDiscrepancy(hasKey, cA, bestMatch.value);
          if summary.kind != Missing {
            discrepancies := discrepancies + [Discrepancy(summary.kind, summary.summary, summary.confidence,
                                                          Some(cA), bestMatch)];
          }
        }
      } else {
        discrepancies := discrepancies + [MissingInB(cA)];
      }
    }
    assert claimsA[..|claimsA|] == claimsA;
    discrepancies := AppendLeftovers(discrepancies, claimsB, matchedB);
    result := ComparisonResult(topic, discrepancies);
  }

  /** The final loop of `compareClaims`: a `missing` entry for every B claim
      whose id was not consumed, in order. */
  method AppendLeftovers(entries: seq<Discrepancy>, claimsB: seq<Claim>, matchedB: set<string>)
    returns (discrepancies: seq<Discrepancy>)
    ensures discrepancies == entries + Leftovers(claimsB, matchedB)
  {
    discrepancies := entries;
    for j := 0 to |claimsB|
      invariant discrepancies == entries + Leftovers(claimsB[..j], matchedB)
    {
      assert claimsB[..j + 1][..j] == claimsB[..j];
      var cB := claimsB[j];
      if cB.id !in matchedB {
        discrepancies := discrepancies + [MissingInA(cB)];
      }
    }
    assert claimsB[..|claimsB|] == claimsB;
  }

  /** The inner loop of `compareClaims`: the first unconsumed B claim with the
      strictly highest score against `cA`, and that score (0 when there is none). */
  method ScanCandidates(cA: Claim, claimsB: seq<Claim>, matchedB: set<string>)
    returns (bestMatch: Option<Claim>, bestScore: real)
    ensures var k := Best(cA, claimsB, matchedB);
      && bestMatch == (if k.Some? then Some(claimsB[k.value]) else None)
      && bestScore == (if k.Some? then Similarity(cA, claimsB[k.value]) else 0.0)
  {
    bestMatch, bestScore := None, 0.0;
    ghost var bestIndex: Option<nat> := None;
    for j := 0 to |claimsB|
      invariant bestIndex == Best(cA, claimsB[..j], matchedB)
      invariant bestIndex.Some? ==> bestIndex.value < j
      invariant bestMatch == (if bestIndex.Some? then Some(claimsB[bestIndex.value]) else None)
      invariant bestScore == (if bestIndex.Some? then Similarity(cA, claimsB[bestIndex.value]) else 0.0)
    {
      assert claimsB[..j + 1][..j] == claimsB[..j];
      var cB := claimsB[j];
      if cB.id in matchedB {
        continue;
      }
      var score := Similarity(cA, cB);
      if score > bestScore {
        bestScore := score;
        bestMatch := Some(cB);
        bestIndex := Some(j);
      }
    }
    assert claimsB[..|claimsB|] == claimsB;
  }
}
