/**
 * `src/lib/server/assetGenerator.ts`: the three JSON-LD knowledge assets of a
 * finished comparison (the Wikipedia baseline, the Grokipedia subject and the
 * community note that reviews it) and the trust score the note carries.
 * Only the fields that vary are kept; the constant `@context`/`@type`
 * members and the timestamp are left out.
 */
module AssetGenerator {
  import opened Wrappers
  import opened Strings
  import opened Claims

  // ---------------------------------------------------------------------
  // calculateTrustScore
  // ---------------------------------------------------------------------

  /**
   * `calculateTrustScore(totalBaseline, discrepancies)`: 0 for an empty
   * baseline, else `max(0, Math.round(100 - 100 * d / n))`, where
   * `Math.round` rounds halves up. As an integer quotient that is
   * `(201n - 200d) div 2n`, and the rounding is stated by the bracket
   * `2r - 1 <= 2x < 2r + 1` with `x = 100(n - d)/n`.
   */
  function TrustScore(totalBaseline: nat, discrepancies: nat): (r: nat)
    ensures r <= 100
    ensures totalBaseline == 0 ==> r == 0
    ensures totalBaseline > 0 && discrepancies <= totalBaseline ==>
      var n, d := totalBaseline, discrepancies;
      (2 * r - 1) * n <= 200 * (n - d) < (2 * r + 1) * n
    ensures discrepancies > totalBaseline ==> r == 0
  {
    if totalBaseline == 0 then 0
    else
      var n, d := totalBaseline, discrepancies;
      var q := (201 * n - 200 * d) / (2 * n);
      ScoreBracket(n, d);
      if q < 0 then 0 else q
  }

  /** The Euclidean quotient by a positive divisor is the floor. */
  lemma QuotientBracket(a: int, b: int)
    requires b > 0
    ensures (a / b) * b <= a < (a / b + 1) * b
  {
  }

  /** The quotient `(201n - 200d) div 2n` brackets `200(n - d)/n`, is at
      most 100, is not negative when `d <= n` and not positive when `d > n`. */
  lemma ScoreBracket(n: nat, d: nat)
    requires n > 0
    ensures var q := (201 * n - 200 * d) / (2 * n);
      && (2 * q - 1) * n <= 200 * (n - d) < (2 * q + 1) * n
      && q <= 100
      && (d <= n ==> q >= 0)
      && (d > n ==> q <= 0)
  {
    var a := 201 * n - 200 * d;
    var q := a / (2 * n);
    QuotientBracket(a, 2 * n);
    assert q * (2 * n) == 2 * q * n && (q + 1) * (2 * n) == 2 * q * n + 2 * n;
    assert (2 * q - 1) * n == 2 * q * n - n && (2 * q + 1) * n == 2 * q * n + n;
    if q > 100 {
      MulMono(101, q, 2 * n);
    }
    if d <= n && q < 0 {
      MulMono(q + 1, 0, 2 * n);
    }
    if d > n && q > 0 {
      MulMono(1, 2 * q - 1, n);
    }
  }

  /** A quotient is determined by its bracket. */
  lemma QuotientUnique(a: int, b: int, q: int)
    requires b > 0 && q * b <= a < (q + 1) * b
    ensures a / b == q
  {
    QuotientBracket(a, b);
    var p := a / b;
    if p > q {
      MulMono(q + 1, p, b);
    } else if p < q {
      MulMono(p + 1, q, b);
    }
  }

  /** Division by a positive number keeps order. */
  lemma QuotientMono(a: int, c: int, b: int)
    requires a <= c && b > 0
    ensures a / b <= c / b
  {
    QuotientBracket(a, b);
    QuotientBracket(c, b);
    if a / b > c / b {
      MulMono(c / b + 1, a / b, b);
    }
  }

  lemma MulMono(x: int, y: int, b: int)
    requires x <= y && b >= 0
    ensures x * b <= y * b
  {
  }

  /** A perfect match scores 100. */
  lemma TrustScoreFull(n: nat)
    requires n > 0
    ensures TrustScore(n, 0) == 100
  {
    QuotientUnique(201 * n, 2 * n, 100);
  }

  /** More discrepancies never raise the score. */
  lemma TrustScoreAntitone(n: nat, d1: nat, d2: nat)
    requires d1 <= d2
    ensures TrustScore(n, d2) <= TrustScore(n, d1)
  {
    if n > 0 {
      QuotientMono(201 * n - 200 * d2, 201 * n - 200 * d1, 2 * n);
    }
  }

  // ---------------------------------------------------------------------
  // generateKnowledgeAssets
  // ---------------------------------------------------------------------

  /** A `Statement` of an article's `mentions`: `description` is only on the Wikipedia side. */
  datatype Mention = Mention(id: string, text: string, subject: string, description: Option<string>)

  datatype Article = Article(id: string, headline: string, about: string, author: string, mentions: seq<Mention>)

  /** One `ClaimReview` of the note's `analysis`; `evidence` is the `@id` of `dkg:evidence`. */
  datatype ClaimReview = ClaimReview(
    reviewAspect: DiscrepancyType,
    claimReviewed: string,
    reviewBody: string,
    confidence: real,
    evidence: Option<string>)

  datatype Note = Note(id: string, name: string, itemReviewed: string, ratingValue: nat, analysis: seq<ClaimReview>)

  datatype TruthAssets = TruthAssets(wikipedia: Article, grokipedia: Article, communityNote: Note)

  function BaseUri(jobId: string): string {
    "urn:truthscope:job:" + jobId
  }

  /** `${assetId}#claim-${i}`. */
  function MentionId(assetId: string, i: nat): string {
    assetId + "#claim-" + NatToString(i)
  }

  /** `claims.findIndex(c => c.id === id)`, as `None` for -1. */
  function FindIndex(claims: seq<Claim>, id: string): (r: Option<nat>)
    ensures r.Some? ==> r.value < |claims| && claims[r.value].id == id
    ensures r.Some? ==> forall j :: 0 <= j < r.value ==> claims[j].id != id
    ensures r.None? ==> forall j :: 0 <= j < |claims| ==> claims[j].id != id
  {
    if claims == [] then None
    else if claims[0].id == id then Some(0)
    else
      var k := FindIndex(claims[1..], id);
      if k.Some? then Some(k.value + 1) else None
  }

  /** The evidence `@id` for one discrepancy: the first baseline claim with the same id. */
  function Evidence(wikiAssetId: string, claimsA: seq<Claim>, d: Discrepancy): Option<string> {
    if d.claimA.Some? then
      var idx := FindIndex(claimsA, d.claimA.value.id);
      if idx.Some? then Some(MentionId(wikiAssetId, idx.value)) else None
    else None
  }

  function Review(wikiAssetId: string, claimsA: seq<Claim>, d: Discrepancy): ClaimReview {
    ClaimReview(
      d.kind,
      if d.claimB.Some? && d.claimB.value.rawText != "" then d.claimB.value.rawText else "Missing Context",
      d.summary,
      d.confidence,
      Evidence(wikiAssetId, claimsA, d))
  }

  /** `generateKnowledgeAssets(topic, claimsA, claimsB, discrepancies, jobId)`. */
  function GenerateKnowledgeAssets(topic: string, claimsA: seq<Claim>, claimsB: seq<Claim>,
                                   discrepancies: seq<Discrepancy>, jobId: string): (r: TruthAssets)
    ensures r.wikipedia.id == BaseUri(jobId) + ":wiki" && r.grokipedia.id == BaseUri(jobId) + ":grok"
    ensures r.communityNote.itemReviewed == r.grokipedia.id
    ensures r.communityNote.ratingValue == TrustScore(|claimsA|, |discrepancies|)
    ensures |r.wikipedia.mentions| == |claimsA| && |r.grokipedia.mentions| == |claimsB|
    ensures |r.communityNote.analysis| == |discrepancies|
  {
    var base := BaseUri(jobId);
    var wikiAssetId := base + ":wiki";
    var grokAssetId := base + ":grok";
    var wikipedia := Article(wikiAssetId, "Wikipedia Analysis: " + topic, topic, "Wikipedia",
      seq(|claimsA|, i requires 0 <= i < |claimsA| =>
        Mention(MentionId(wikiAssetId, i), claimsA[i].rawText, claimsA[i].subject,
                Some(claimsA[i].pred + " " + claimsA[i].obj))));
    var grokipedia := Article(grokAssetId, "Grokipedia Generation: " + topic, topic, "Grokipedia AI",
      seq(|claimsB|, i requires 0 <= i < |claimsB| =>
        Mention(MentionId(grokAssetId, i), claimsB[i].rawText, claimsB[i].subject, None)));
    var note := Note(base + ":note", "TruthScope Discrepancy Report: " + topic, grokAssetId,
      TrustScore(|claimsA|, |discrepancies|),
      seq(|discrepancies|, i requires 0 <= i < |discrepancies| => Review(wikiAssetId, claimsA, discrepancies[i])));
    TruthAssets(wikipedia, grokipedia, note)
  }

  /** Mention `i` of the Wikipedia asset is claim `i` of `claimsA`, under the
      `@id` `…:wiki#claim-i`; these ids are pairwise distinct. */
  lemma WikipediaMentions(topic: string, claimsA: seq<Claim>, claimsB: seq<Claim>,
                          discrepancies: seq<Discrepancy>, jobId: string)
    ensures var w := GenerateKnowledgeAssets(topic, claimsA, claimsB, discrepancies, jobId).wikipedia;
      && (forall i :: 0 <= i < |claimsA| ==>
            && w.mentions[i].id == "urn:truthscope:job:" + jobId + ":wiki#claim-" + NatToString(i)
            && w.mentions[i].text == claimsA[i].rawText
            && w.mentions[i].subject == claimsA[i].subject
            && w.mentions[i].description == Some(claimsA[i].pred + " " + claimsA[i].obj))
      && (forall i, j :: 0 <= i < j < |claimsA| ==> w.mentions[i].id != w.mentions[j].id)
  {
    var w := GenerateKnowledgeAssets(topic, claimsA, claimsB, discrepancies, jobId).wikipedia;
    forall i, j | 0 <= i < j < |claimsA| ensures w.mentions[i].id != w.mentions[j].id {
      PrefixedIndexInjective(BaseUri(jobId) + ":wiki" + "#claim-", i, j);
      assert w.mentions[i].id == BaseUri(jobId) + ":wiki" + "#claim-" + NatToString(i);
      assert w.mentions[j].id == BaseUri(jobId) + ":wiki" + "#claim-" + NatToString(j);
    }
  }

  /** Mention `i` of the Grokipedia asset is claim `i` of `claimsB`, under `…:grok#claim-i`. */
  lemma GrokipediaMentions(topic: string, claimsA: seq<Claim>, claimsB: seq<Claim>,
                           discrepancies: seq<Discrepancy>, jobId: string)
    ensures var g := GenerateKnowledgeAssets(topic, claimsA, claimsB, discrepancies, jobId).grokipedia;
      && (forall i :: 0 <= i < |claimsB| ==>
            && g.mentions[i].id == "urn:truthscope:job:" + jobId + ":grok#claim-" + NatToString(i)
            && g.mentions[i].text == claimsB[i].rawText
            && g.mentions[i].subject == claimsB[i].subject
            && g.mentions[i].description == None)
      && (forall i, j :: 0 <= i < j < |claimsB| ==> g.mentions[i].id != g.mentions[j].id)
  {
    var g := GenerateKnowledgeAssets(topic, claimsA, claimsB, discrepancies, jobId).grokipedia;
    forall i, j | 0 <= i < j < |claimsB| ensures g.mentions[i].id != g.mentions[j].id {
      PrefixedIndexInjective(BaseUri(jobId) + ":grok" + "#claim-", i, j);
      assert g.mentions[i].id == BaseUri(jobId) + ":grok" + "#claim-" + NatToString(i);
      assert g.mentions[j].id == BaseUri(jobId) + ":grok" + "#claim-" + NatToString(j);
    }
  }

  /**
   * Review `i` reviews discrepancy `i`: its aspect, body and confidence are
   * copied; `claimReviewed` is claim B's text or "Missing Context"; and it has
   * evidence exactly when the discrepancy names an A claim whose id some
   * baseline claim has, in which case the evidence is the `@id` of the
   * Wikipedia mention of the first such claim.
   */
  lemma NoteReviews(topic: string, claimsA: seq<Claim>, claimsB: seq<Claim>,
                    discrepancies: seq<Discrepancy>, jobId: string, i: nat)
    requires i < |discrepancies|
    ensures var r := GenerateKnowledgeAssets(topic, claimsA, claimsB, discrepancies, jobId);
      var v, d := r.communityNote.analysis[i], discrepancies[i];
      && v.reviewAspect == d.kind && v.reviewBody == d.summary && v.confidence == d.confidence
      && v.claimReviewed == (if d.claimB.Some? && d.claimB.value.rawText != "" then d.claimB.value.rawText
                             else "Missing Context")
      && (v.evidence.Some? <==>
            d.claimA.Some? && exists k :: 0 <= k < |claimsA| && claimsA[k].id == d.claimA.value.id)
      && (v.evidence.Some? ==> exists k ::
            && 0 <= k < |claimsA| && claimsA[k].id == d.claimA.value.id
            && (forall j :: 0 <= j < k ==> claimsA[j].id != d.claimA.value.id)
            && v.evidence.value == r.wikipedia.mentions[k].id)
  {
    var r := GenerateKnowledgeAssets(topic, claimsA, claimsB, discrepancies, jobId);
    var d := discrepancies[i];
    if d.claimA.Some? {
      var idx := FindIndex(claimsA, d.claimA.value.id);
      if idx.Some? {
        assert r.wikipedia.mentions[idx.value].id == MentionId(BaseUri(jobId) + ":wiki", idx.value);
      }
    }
  }
}
