/**
 * `src/lib/server/llmClient.ts`: claim extraction and JSON-LD generation by
 * the language model, with the heuristics used when no API key is set or the
 * call fails, and the discrepancy summariser. The model's replies are inputs.
 */
module LlmClient {
  import opened Wrappers
  import opened Strings
  import opened Claims
  import opened Seqs

  // ---------------------------------------------------------------------
  // The model's replies
  // ---------------------------------------------------------------------

  /** What `JSON.parse` makes of the model's content. */
  datatype Parsed =
    | Unparsable            // JSON.parse throws
    | JsonArray(items: seq<RawClaim>)
    | JsonOther             // valid JSON that is not an array

  /** How a chat-completion call ends. */
  datatype Reply =
    | CallFailed            // the SDK call throws
    | NoContent             // `content` is null or ""
    | Content(parsed: Parsed)

  /** What `extractClaims` resolves to: an array, or whatever non-array the model sent. */
  datatype Extraction = ClaimArray(items: seq<RawClaim>) | NotAnArray

  // ---------------------------------------------------------------------
  // mockExtractClaims
  // ---------------------------------------------------------------------

  const MockConfidence: real := 0.7

  /** The mock claim made from one sentence. */
  function MockClaim(sentence: string): RawClaim {
    RawClaim("Entity", "related_to", "Something", Trim(sentence), "", Some(MockConfidence))
  }

  /** `.filter(s => s.trim().length > 10).map(...)` over the pieces. */
  function MockClaims(pieces: seq<string>): (r: seq<RawClaim>)
    ensures |r| <= |pieces|
    ensures forall i :: 0 <= i < |r| ==>
      && r[i].subject == "Entity" && r[i].pred == "related_to" && r[i].obj == "Something"
      && r[i].confidence == Some(MockConfidence) && |r[i].rawText| > 10
  {
    if pieces == [] then []
    else
      var rest := MockClaims(pieces[1..]);
      if |Trim(pieces[0])| > 10 then [MockClaim(pieces[0])] + rest else rest
  }

  /** The claims one piece contributes. */
  function MockHead(piece: string): seq<RawClaim> {
    if |Trim(piece)| > 10 then [MockClaim(piece)] else []
  }

  lemma MockClaimsCons(pieces: seq<string>)
    requires pieces != []
    ensures MockClaims(pieces) == MockHead(pieces[0]) + MockClaims(pieces[1..])
  {
    var rest := MockClaims(pieces[1..]);
    assert MockClaims(pieces) == if |Trim(pieces[0])| > 10 then [MockClaim(pieces[0])] + rest else rest;
    if |Trim(pieces[0])| <= 10 {
      assert MockHead(pieces[0]) + rest == rest;
    }
  }

  /** `mockExtractClaims(text)`: the sentences between runs of `.`, `!`, `?`. */
  function MockExtractClaims(text: string): (r: seq<RawClaim>)
  {
    MockClaims(SplitRuns(text, IsSentenceEnd))
  }

  predicate IsSentenceEnd(c: char) {
    c == '.' || c == '!' || c == '?'
  }

  predicate NoSentenceEnd(s: string) {
    forall k :: 0 <= k < |s| ==> !IsSentenceEnd(s[k])
  }

  /** Every mock claim is `Entity related_to Something` at confidence 0.7,
      its `rawText` a trimmed sentence longer than ten characters with no
      `.`, `!` or `?` in it. */
  lemma MockClaimsShape(text: string)
    ensures forall c :: c in MockExtractClaims(text) ==>
      && c.subject == "Entity" && c.pred == "related_to" && c.obj == "Something"
      && c.confidence == Some(MockConfidence)
      && |c.rawText| > 10
      && NoSentenceEnd(c.rawText)
  {
    var pieces := SplitRuns(text, IsSentenceEnd);
    MockClaimsNoEnd(pieces);
  }

  lemma {:induction false} MockClaimsNoEnd(pieces: seq<string>)
    requires forall j, k :: 0 <= j < |pieces| && 0 <= k < |pieces[j]| ==> !IsSentenceEnd(pieces[j][k])
    ensures forall i :: 0 <= i < |MockClaims(pieces)| ==> NoSentenceEnd(MockClaims(pieces)[i].rawText)
  {
    if pieces != [] {
      MockClaimsNoEnd(pieces[1..]);
      var t := Trim(pieces[0]);
      TrimChars(pieces[0]);
      forall k | 0 <= k < |t| ensures !IsSentenceEnd(t[k]) {
        assert t[k] in pieces[0];
      }
    }
  }

  /** The filter keeps the pieces of each part in order: the claims of a
      concatenation are the claims of the first part, then of the second. */
  lemma {:induction false} MockClaimsAppend(ps: seq<string>, qs: seq<string>)
    ensures MockClaims(ps + qs) == MockClaims(ps) + MockClaims(qs)
  {
    MockClaimsFlatMap(ps + qs);
    MockClaimsFlatMap(ps);
    MockClaimsFlatMap(qs);
    FlatMapAppend(ps, qs, MockHead);
  }

  /** The filter-and-map is the concatenation of each piece's contribution. */
  lemma {:induction false} MockClaimsFlatMap(pieces: seq<string>)
    ensures MockClaims(pieces) == FlatMap(pieces, MockHead)
  {
    if pieces != [] {
      MockClaimsCons(pieces);
      MockClaimsFlatMap(pieces[1..]);
    }
  }

  /** No sentence long enough is dropped. */
  lemma {:induction false} MockClaimsComplete(pieces: seq<string>, j: nat)
    requires j < |pieces| && |Trim(pieces[j])| > 10
    ensures MockClaim(pieces[j]) in MockClaims(pieces)
  {
    var rest := MockClaims(pieces[1..]);
    if j > 0 {
      assert pieces[1..][j - 1] == pieces[j];
      MockClaimsComplete(pieces[1..], j - 1);
      assert MockClaim(pieces[j]) in rest;
    }
    assert MockClaims(pieces) == if |Trim(pieces[0])| > 10 then [MockClaim(pieces[0])] + rest else rest;
  }

  // ---------------------------------------------------------------------
  // extractClaims
  // ---------------------------------------------------------------------

  /** `extractClaims(text)`: the heuristics without a key or when the call or
      the parse fails, `[]` for empty content, else the parsed JSON as is. */
  function ExtractClaims(hasKey: bool, text: string, reply: Reply): (r: Extraction)
    ensures r == NotAnArray <==> hasKey && reply == Content(JsonOther)
    ensures !hasKey ==> r == ClaimArray(MockExtractClaims(text))
    ensures hasKey && (reply == CallFailed || reply == Content(Unparsable)) ==> r == ClaimArray(MockExtractClaims(text))
    ensures hasKey && reply == NoContent ==> r == ClaimArray([])
    ensures hasKey && reply.Content? && reply.parsed.JsonArray? ==> r == ClaimArray(reply.parsed.items)
  {
    if !hasKey then ClaimArray(MockExtractClaims(text))
    else match reply
      case CallFailed => ClaimArray(MockExtractClaims(text))
      case NoContent => ClaimArray([])
      case Content(Unparsable) => ClaimArray(MockExtractClaims(text))
      case Content(JsonArray(items)) => ClaimArray(items)
      case Content(JsonOther) => NotAnArray
  }

  /** Without a key the model is never consulted. */
  lemma ExtractWithoutKeyIgnoresReply(text: string, r1: Reply, r2: Reply)
    ensures ExtractClaims(false, text, r1) == ExtractClaims(false, text, r2)
  {
  }

  // ---------------------------------------------------------------------
  // mockGenerateRdf and generateRdfFromClaims
  // ---------------------------------------------------------------------

  type Triple = (string, string, string)

  /** A `Statement` mention of the mock JSON-LD. */
  datatype Statement = Statement(text: string, confidence: real)

  /** The JSON-LD document: the mock `Article`, or the model's parsed JSON
      (kept as the content it was parsed from). */
  datatype JsonLd =
    | MockArticle(headline: string, author: string, mentions: seq<Statement>)
    | ModelJson(content: string)

  datatype Rdf = Rdf(jsonld: JsonLd, triples: seq<Triple>)

  const MockMentionConfidence: real := 0.8

  function Or(s: string, default: string): string {
    if s != "" then s else default
  }

  /** `mockGenerateRdf(topic, claims, source)`. */
  function MockGenerateRdf(topic: string, claims: seq<Claim>, source: string): (r: Rdf)
    ensures r.jsonld.MockArticle? && r.jsonld.headline == topic && r.jsonld.author == source
    ensures |r.jsonld.mentions| == |claims| && |r.triples| == |claims|
    ensures forall i :: 0 <= i < |claims| ==>
      r.jsonld.mentions[i] == Statement(claims[i].rawText, MockMentionConfidence)
    ensures forall i :: 0 <= i < |claims| ==>
      var (s, p, o) := r.triples[i];
      && (s == if claims[i].subject != "" then claims[i].subject else "Entity")
      && (p == if claims[i].pred != "" then claims[i].pred else "relates")
      && (o == if claims[i].obj != "" then claims[i].obj else "Thing")
  {
    Rdf(MockArticle(topic, source,
          seq(|claims|, i requires 0 <= i < |claims| => Statement(claims[i].rawText, MockMentionConfidence))),
        seq(|claims|, i requires 0 <= i < |claims| =>
          (Or(claims[i].subject, "Entity"), Or(claims[i].pred, "relates"), Or(claims[i].obj, "Thing"))))
  }

  /** No mock triple has an empty component. */
  lemma MockTriplesNonEmpty(topic: string, claims: seq<Claim>, source: string)
    ensures forall t :: t in MockGenerateRdf(topic, claims, source).triples ==> t.0 != "" && t.1 != "" && t.2 != ""
  {
    var r := MockGenerateRdf(topic, claims, source);
    forall t | t in r.triples ensures t.0 != "" && t.1 != "" && t.2 != "" {
      var i :| 0 <= i < |r.triples| && r.triples[i] == t;
    }
  }

  /** The model's reply to the RDF prompt, as the content it sent. */
  datatype RdfReply = RdfCallFailed | RdfNoContent | RdfContent(content: string, parses: bool)

  /** `generateRdfFromClaims(topic, claims, source)`: the mock without a key
      or on any failure, else the model's JSON with the claims' own triples. */
  function GenerateRdfFromClaims(hasKey: bool, topic: string, claims: seq<Claim>, source: string, reply: RdfReply): (r: Rdf)
    ensures |r.triples| == |claims|
    ensures r.jsonld.ModelJson? <==> hasKey && reply.RdfContent? && reply.parses
    ensures r.jsonld.ModelJson? ==> forall i :: 0 <= i < |claims| ==>
      r.triples[i] == (claims[i].subject, claims[i].pred, claims[i].obj)
    ensures !r.jsonld.ModelJson? ==> r == MockGenerateRdf(topic, claims, source)
  {
    if hasKey && reply.RdfContent? && reply.parses then
      Rdf(ModelJson(reply.content),
          seq(|claims|, i requires 0 <= i < |claims| => (claims[i].subject, claims[i].pred, claims[i].obj)))
    else MockGenerateRdf(topic, claims, source)
  }

  // ---------------------------------------------------------------------
  // summarizeDiscrepancy
  // ---------------------------------------------------------------------

  datatype Summary = Summary(kind: DiscrepancyType, summary: string, confidence: real)

  /** `summarizeDiscrepancy(claimA, claimB)`: a fixed verdict that depends only on the key. */
  function SummarizeDiscrepancy(hasKey: bool, a: Claim, b: Claim): (r: Summary)
    ensures r.kind == Contradiction
    ensures r.confidence == if hasKey then 0.9 else 0.8
  {
    if hasKey then Summary(Contradiction, "LLM detected difference between claims.", 0.9)
    else Summary(Contradiction, "Heuristic detected difference between claims.", 0.8)
  }
}
