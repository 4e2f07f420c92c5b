/**
 * `extractClaimsFromText` of src/lib/server/claimExtractor.ts: chunk the
 * text, ask the extraction model for each chunk, collect the arrays it
 * returns, give each claim an id, drop repeated texts and drop claims that are
 * too short or are boilerplate. The model is an oracle `extract(i, chunk)`.
 */
module ClaimExtractor {
  import opened Wrappers
  import opened Strings
  import opened Claims
  import opened Chunker
  import opened LlmClient
  import opened Seqs

  /** The chunk size and cap the extractor passes to `chunkText`. */
  const TargetLen: nat := 2000
  const MaxChunks: nat := 8

  // ---------------------------------------------------------------------
  // Aggregation over the chunks
  // ---------------------------------------------------------------------

  /** How the call for one chunk ends: with a value, or with an exception. */
  datatype ChunkOutcome = Returned(extraction: Extraction) | Threw

  /** The outcome for each chunk, in order. */
  function Outcomes(chunks: seq<string>, extract: (nat, string) -> ChunkOutcome): (r: seq<ChunkOutcome>)
    ensures |r| == |chunks|
    ensures forall i :: 0 <= i < |chunks| ==> r[i] == extract(i, chunks[i])
  {
    seq(|chunks|, i requires 0 <= i < |chunks| => extract(i, chunks[i]))
  }

  /** What one chunk adds: the array's items, or nothing for a non-array or an exception. */
  function Items(o: ChunkOutcome): seq<RawClaim> {
    if o.Returned? && o.extraction.ClaimArray? then o.extraction.items else []
  }

  /** The aggregate after the given outcomes. */
  function Collected(outcomes: seq<ChunkOutcome>): seq<RawClaim> {
    if outcomes == [] then []
    else Collected(outcomes[..|outcomes| - 1]) + Items(outcomes[|outcomes| - 1])
  }

  /** The aggregation loop: each chunk's array is appended, failures are skipped. */
  method Aggregate(chunks: seq<string>, extract: (nat, string) -> ChunkOutcome) returns (aggregated: seq<RawClaim>)
    ensures aggregated == Collected(Outcomes(chunks, extract))
  {
    ghost var outcomes := Outcomes(chunks, extract);
    aggregated := [];
    for i := 0 to |chunks|
      invariant aggregated == Collected(outcomes[..i])
    {
      assert outcomes[..i + 1][..i] == outcomes[..i];
      var part := extract(i, chunks[i]);
      if part.Returned? && part.extraction.ClaimArray? {
        aggregated := aggregated + part.extraction.items;
      }
    }
    assert outcomes[..|chunks|] == outcomes;
  }

  /** Outcomes are collected independently: what a chunk contributes does
      not depend on the chunks before or after it. */
  lemma {:induction false} CollectedAppend(xs: seq<ChunkOutcome>, ys: seq<ChunkOutcome>)
    ensures Collected(xs + ys) == Collected(xs) + Collected(ys)
    decreases |ys|
  {
    if ys == [] {
      assert xs + ys == xs;
    } else {
      var n := |ys| - 1;
      assert (xs + ys)[..|xs + ys| - 1] == xs + ys[..n];
      CollectedAppend(xs, ys[..n]);
    }
  }

  /** A chunk whose call throws or returns a non-array adds nothing, and the
      later chunks are still collected. */
  lemma FailedChunkSkipped(xs: seq<ChunkOutcome>, o: ChunkOutcome, ys: seq<ChunkOutcome>)
    requires o == Threw || o == Returned(NotAnArray)
    ensures Collected(xs + [o] + ys) == Collected(xs) + Collected(ys)
  {
    var front := xs + [o];
    assert front[..|front| - 1] == xs;
    assert Collected(front) == Collected(xs);
    CollectedAppend(front, ys);
  }

  // ---------------------------------------------------------------------
  // Ids
  // ---------------------------------------------------------------------

  /** `jobId.replace(/[:]/g, '-')`, or the random suffix when there is no job id. */
  function RunSuffix(jobId: string, randomSuffix: string): (r: string)
    ensures jobId != "" ==> |r| == |jobId| && forall k :: 0 <= k < |r| ==> r[k] != ':'
    ensures jobId != "" ==> forall k :: 0 <= k < |r| ==> r[k] == (if jobId[k] == ':' then '-' else jobId[k])
    ensures jobId == "" ==> r == randomSuffix
  {
    if jobId != "" then ReplaceChar(jobId, ':', '-') else randomSuffix
  }

  function ClaimId(suffix: string, i: nat): string {
    "claim-" + suffix + "-" + NatToString(i)
  }

  const DefaultConfidence: real := 0.9

  /** The claim built from aggregate element `c` under id `id`: the text
      falls back to `c.text` and the confidence to 0.9 when falsy. */
  function ToClaim(c: RawClaim, id: string): (r: Claim)
    ensures r.id == id && r.subject == c.subject && r.pred == c.pred && r.obj == c.obj
    ensures r.rawText == if c.rawText != "" then c.rawText else c.text
    ensures r.confidence == if c.confidence.None? || c.confidence.value == 0.0 then DefaultConfidence else c.confidence.value
  {
    var conf := if c.confidence.Some? && c.confidence.value != 0.0 then c.confidence.value else DefaultConfidence;
    Claim(id, c.subject, c.pred, c.obj, if c.rawText != "" then c.rawText else c.text, conf)
  }

  /** The id-assigning `map`: element `i` becomes `claim-<suffix>-<i>`. */
  function AssignIds(aggregated: seq<RawClaim>, suffix: string): (r: seq<Claim>)
    ensures |r| == |aggregated|
  {
    seq(|aggregated|, i requires 0 <= i < |aggregated| => ToClaim(aggregated[i], ClaimId(suffix, i)))
  }

  /** Every claim keeps its element's fields, and no two claims share an id. */
  lemma AssignedIds(aggregated: seq<RawClaim>, suffix: string)
    ensures forall i :: 0 <= i < |aggregated| ==> AssignIds(aggregated, suffix)[i] == ToClaim(aggregated[i], ClaimId(suffix, i))
    ensures forall i, j :: 0 <= i < j < |aggregated| ==> AssignIds(aggregated, suffix)[i].id != AssignIds(aggregated, suffix)[j].id
  {
    forall i, j | 0 <= i < j < |aggregated|
      ensures AssignIds(aggregated, suffix)[i].id != AssignIds(aggregated, suffix)[j].id
    {
      PrefixedIndexInjective("claim-" + suffix + "-", i, j);
      assert ClaimId(suffix, i) == ("claim-" + suffix + "-") + NatToString(i);
      assert ClaimId(suffix, j) == ("claim-" + suffix + "-") + NatToString(j);
    }
  }

  // ---------------------------------------------------------------------
  // Deduplication on the text
  // ---------------------------------------------------------------------

  function Id(c: Claim): string {
    c.id
  }

  /** The dedup key: the lowercased, trimmed text. */
  function Key(c: Claim): string {
    TextKey(c.rawText)
  }

  function TextKey(s: string): string {
    Trim(Lower(s))
  }

  /** The `filter` with the `seen` set: the first claim for each key, in order. */
  method DedupByText(claims: seq<Claim>) returns (kept: seq<Claim>)
    ensures kept == FirstBy(claims, Key)
  {
    var seen: set<string> := {};
    kept := [];
    for i := 0 to |claims|
      invariant kept == FirstBy(claims[..i], Key)
      invariant seen == KeysOf(kept, Key)
    {
      assert claims[..i + 1][..i] == claims[..i];
      var key := Key(claims[i]);
      if key !in seen {
        KeysOfSnoc(kept, claims[i], Key);
        seen := seen + {key};
        kept := kept + [claims[i]];
      }
    }
    assert claims[..|claims|] == claims;
  }

  // ---------------------------------------------------------------------
  // The boilerplate filter
  // ---------------------------------------------------------------------

  /** `/subject of .* interest/i`, on the lowercased text: "subject of "
      followed, on the same line, by " interest". */
  predicate SubjectOfInterest(s: string)
    decreases |s|
  {
    s != [] && (("subject of " <= s && InterestOnLine(s[11..])) || SubjectOfInterest(s[1..]))
  }

  /** " interest" occurs before the next line terminator. */
  predicate InterestOnLine(s: string)
    decreases |s|
  {
    " interest" <= s || (s != [] && !IsLineTerminator(s[0]) && InterestOnLine(s[1..]))
  }

  /** `/^\s*\[.*\]\s*$/` on a trimmed string: it opens with `[`, closes with
      `]` and has no line terminator in between. */
  predicate IsCitation(t: string) {
    |t| >= 2 && t[0] == '[' && t[|t| - 1] == ']' && NoLineTerminator(t[1..|t| - 1])
  }

  /** One of the four generic patterns matches the trimmed text `t`; the `i`
      flag folds only ASCII letters, which is what `Lower` does. */
  predicate IsGeneric(t: string) {
    var l := Lower(t);
    SubjectOfInterest(l) || Contains(l, "article discusses") || Contains(l, "refer to:") || IsCitation(t)
  }

  predicate IsValid(c: Claim) {
    var t := Trim(c.rawText);
    |t| > 10 && !IsGeneric(t)
  }

  // ---------------------------------------------------------------------
  // extractClaimsFromText
  // ---------------------------------------------------------------------

  /** The claims `extractClaimsFromText` returns, as a function of its inputs. */
  function Extracted(text: string, jobId: string, randomSuffix: string,
                     extract: (nat, string) -> ChunkOutcome): seq<Claim>
  {
    var chunks := Packing(Units(text, TargetLen), TargetLen, MaxChunks).chunks;
    var aggregated := Collected(Outcomes(chunks, extract));
    Filter(FirstBy(AssignIds(aggregated, RunSuffix(jobId, randomSuffix)), Key), IsValid)
  }

  /**
   * `extractClaimsFromText(text, topic, jobId)`. `randomSuffix` stands for
   * the random base-36 suffix used when there is no job id. Every claim
   * returned is valid, no two share an id or a dedup key, and they come in
   * the order of the aggregate.
   */
  method ExtractClaimsFromText(text: string, jobId: string, randomSuffix: string,
                               extract: (nat, string) -> ChunkOutcome) returns (claims: seq<Claim>)
    ensures claims == Extracted(text, jobId, randomSuffix, extract)
    ensures forall i :: 0 <= i < |claims| ==> IsValid(claims[i])
    ensures forall i, j :: 0 <= i < j < |claims| ==> claims[i].id != claims[j].id && Key(claims[i]) != Key(claims[j])
  {
    var chunks := ChunkText(text, TargetLen, MaxChunks);
    var aggregated := Aggregate(chunks, extract);
    var suffix := RunSuffix(jobId, randomSuffix);
    var all := AssignIds(aggregated, suffix);
    var unique := DedupByText(all);
    claims := Filter(unique, IsValid);
    AssignedIds(aggregated, suffix);
    ExtractedDistinct(all, unique, claims);
  }

  /** Every extracted claim is valid, and no two share an id or a normalised text. */
  lemma ExtractedWellFormed(text: string, jobId: string, randomSuffix: string,
                            extract: (nat, string) -> ChunkOutcome)
    ensures var claims := Extracted(text, jobId, randomSuffix, extract);
      && (forall i :: 0 <= i < |claims| ==> IsValid(claims[i]))
      && (forall i, j :: 0 <= i < j < |claims| ==> claims[i].id != claims[j].id && Key(claims[i]) != Key(claims[j]))
  {
    var chunks := Packing(Units(text, TargetLen), TargetLen, MaxChunks).chunks;
    var aggregated := Collected(Outcomes(chunks, extract));
    var suffix := RunSuffix(jobId, randomSuffix);
    var all := AssignIds(aggregated, suffix);
    AssignedIds(aggregated, suffix);
    ExtractedDistinct(all, FirstBy(all, Key), Filter(FirstBy(all, Key), IsValid));
  }

  lemma ExtractedDistinct(all: seq<Claim>, unique: seq<Claim>, claims: seq<Claim>)
    requires DistinctBy(all, Id)
    requires unique == FirstBy(all, Key) && claims == Filter(unique, IsValid)
    ensures forall i, j :: 0 <= i < j < |claims| ==> claims[i].id != claims[j].id && Key(claims[i]) != Key(claims[j])
  {
    FirstByKeys(all, Key);
    FirstBySubsequence(all, Key);
    FilterKeeps(unique, IsValid);
    SubsequenceDistinctBy(unique, all, Id);
    SubsequenceDistinctBy(claims, unique, Id);
    SubsequenceDistinctBy(claims, unique, Key);
  }

  // ---------------------------------------------------------------------
  // One claim per chunk
  // ---------------------------------------------------------------------

  function Repeat<T>(x: T, n: nat): (r: seq<T>)
    ensures |r| == n && forall i :: 0 <= i < n ==> r[i] == x
  {
    seq(n, i => x)
  }

  lemma {:induction false} CollectedConstant(outcomes: seq<ChunkOutcome>, c: RawClaim)
    requires forall i :: 0 <= i < |outcomes| ==> outcomes[i] == Returned(ClaimArray([c]))
    ensures Collected(outcomes) == Repeat(c, |outcomes|)
  {
    if outcomes != [] {
      var init := outcomes[..|outcomes| - 1];
      CollectedConstant(init, c);
    }
  }

  /**
   * When the model returns the same single claim for every chunk of a text
   * that is not all white space, and that claim is valid, exactly one claim
   * comes out: the first chunk's, with id index 0 and its triple intact.
   */
  lemma OneClaimPerChunk(text: string, jobId: string, randomSuffix: string, c: RawClaim)
    requires !AllSpace(text)
    requires IsValid(ToClaim(c, ClaimId(RunSuffix(jobId, randomSuffix), 0)))
    ensures Extracted(text, jobId, randomSuffix, (i: nat, chunk: string) => Returned(ClaimArray([c])))
      == [ToClaim(c, ClaimId(RunSuffix(jobId, randomSuffix), 0))]
  {
    var n := SameClaimEachChunk(text, c);
    RepeatedClaimKeptOnce(c, n, RunSuffix(jobId, randomSuffix));
  }

  lemma SameClaimEachChunk(text: string, c: RawClaim) returns (n: nat)
    requires !AllSpace(text)
    ensures n >= 1
    ensures Collected(Outcomes(Packing(Units(text, TargetLen), TargetLen, MaxChunks).chunks,
                               (i: nat, chunk: string) => Returned(ClaimArray([c])))) == Repeat(c, n)
  {
    var chunks := Packing(Units(text, TargetLen), TargetLen, MaxChunks).chunks;
    ChunksOfNonBlank(text);
    n := |chunks|;
    CollectedConstant(Outcomes(chunks, (i: nat, chunk: string) => Returned(ClaimArray([c]))), c);
  }

  lemma ChunksOfNonBlank(text: string)
    requires !AllSpace(text)
    ensures Packing(Units(text, TargetLen), TargetLen, MaxChunks).chunks != []
  {
    UnitsEmptyIffAllSpace(text, TargetLen);
    PackingIsPacked(Units(text, TargetLen), TargetLen, MaxChunks);
  }

  lemma RepeatedClaimKeptOnce(c: RawClaim, n: nat, suffix: string)
    requires n >= 1 && IsValid(ToClaim(c, ClaimId(suffix, 0)))
    ensures Filter(FirstBy(AssignIds(Repeat(c, n), suffix), Key), IsValid) == [ToClaim(c, ClaimId(suffix, 0))]
  {
    var all := AssignIds(Repeat(c, n), suffix);
    AssignedIds(Repeat(c, n), suffix);
    forall i | 0 <= i < |all| ensures Key(all[i]) == Key(all[0]) {
      assert all[i].rawText == all[0].rawText;
    }
    FirstBySameKey(all, Key);
    assert Filter([all[0]], IsValid) == [all[0]] by {
      assert [all[0]][..0] == [];
    }
  }

  /** The claim of the extractor's test. */
  const EarthClaim := RawClaim("Earth", "orbits", "Sun", "The Earth orbits the Sun.", "", Some(0.99))

  /** "subject of" has a `j`. */
  lemma {:induction false} SubjectOfInterestHasJ(s: string)
    ensures SubjectOfInterest(s) ==> 'j' in s
    decreases |s|
  {
    if SubjectOfInterest(s) {
      if "subject of " <= s {
        assert s[3] == 'j';
      } else {
        SubjectOfInterestHasJ(s[1..]);
        var k :| 0 <= k < |s| - 1 && s[1..][k] == 'j';
        assert s[k + 1] == 'j';
      }
    }
  }

  /** Lowercasing cannot create a letter whose two cases are both absent. */
  lemma LowerAvoids(s: string, c: char)
    requires 'a' <= c <= 'z'
    requires forall k :: 0 <= k < |s| ==> s[k] != c && s[k] != (c as int - 32) as char
    ensures c !in Lower(s)
  {
    forall k | 0 <= k < |s| ensures Lower(s)[k] != c {
    }
  }

  lemma EarthTextLetters()
    ensures forall k :: 0 <= k < |EarthClaim.rawText| ==>
      EarthClaim.rawText[k] !in {'j', 'J', 'c', 'C', 'f', 'F', '['}
  {
  }

  lemma EarthTextTrimmed()
    ensures Trim(EarthClaim.rawText) == EarthClaim.rawText
  {
    var t := EarthClaim.rawText;
    assert !IsSpace(t[0]) && !IsSpace(t[|t| - 1]);
  }

  /** The lowercased example text has no `j`, `c` or `f`. */
  lemma EarthLowerLacks(c: char)
    requires c == 'j' || c == 'c' || c == 'f'
    ensures c !in Lower(EarthClaim.rawText)
  {
    EarthTextLetters();
    LowerAvoids(EarthClaim.rawText, c);
  }

  lemma EarthTextNotGeneric()
    ensures !IsGeneric(EarthClaim.rawText)
  {
    var t := EarthClaim.rawText;
    var l := Lower(t);
    assert !SubjectOfInterest(l) by {
      EarthLowerLacks('j');
      SubjectOfInterestHasJ(l);
    }
    assert !Contains(l, "article discusses") by {
      EarthLowerLacks('c');
      ContainsChars(l, "article discusses");
      assert "article discusses"[4] == 'c';
    }
    assert !Contains(l, "refer to:") by {
      EarthLowerLacks('f');
      ContainsChars(l, "refer to:");
      assert "refer to:"[2] == 'f';
    }
    assert !IsCitation(t) by {
      assert t[0] == 'T';
    }
  }

  lemma EarthClaimValid(id: string)
    ensures IsValid(ToClaim(EarthClaim, id))
  {
    EarthTextTrimmed();
    EarthTextNotGeneric();
    assert ToClaim(EarthClaim, id).rawText == EarthClaim.rawText;
  }

  /** The extractor's test: one chunk whose model answer is the Earth claim
      yields that one claim, subject, predicate and object unchanged. */
  lemma EarthClaimPassesThrough(jobId: string, randomSuffix: string)
    ensures var r := Extracted("The Earth orbits the Sun.", jobId, randomSuffix,
                               (i: nat, chunk: string) => Returned(ClaimArray([EarthClaim])));
      |r| == 1 && r[0].subject == "Earth" && r[0].pred == "orbits" && r[0].obj == "Sun"
  {
    var text := "The Earth orbits the Sun.";
    assert !IsSpace(text[0]);
    EarthClaimValid(ClaimId(RunSuffix(jobId, randomSuffix), 0));
    OneClaimPerChunk(text, jobId, randomSuffix, EarthClaim);
  }
}
