/**
 * `src/lib/server/knowledgeAssets.ts`: the JSON-LD builders for an article
 * asset (Wikipedia or Grokipedia), a community analysis note and a trust
 * event. Only the varying fields are kept; the constant `@context`/`@type`
 * members and the timestamps are left out.
 */
module KnowledgeAssets {
  import opened Wrappers
  import opened Strings
  import opened Claims

  /** `mainEntity` of a mention. */
  datatype Thing = Thing(name: string, description: string)

  datatype Statement = Statement(id: string, text: string, mainEntity: Thing)

  datatype ArticleAsset = ArticleAsset(headline: string, author: string, url: string,
                                       mentions: seq<Statement>, publisher: string)

  /** `claim:${i}`. */
  function StatementId(i: nat): string {
    "claim:" + NatToString(i)
  }

  /** `createWikipediaAssetJsonLd(topic, claims, url)`. */
  function CreateWikipediaAssetJsonLd(topic: string, claims: seq<Claim>, url: string): (r: ArticleAsset)
    ensures r.headline == topic && r.author == "Wikipedia" && r.url == url && r.publisher == "TruthScope"
    ensures |r.mentions| == |claims|
  {
    ArticleAsset(topic, "Wikipedia", url,
      seq(|claims|, i requires 0 <= i < |claims| =>
        Statement(StatementId(i), claims[i].rawText, Thing(claims[i].subject, claims[i].pred + " " + claims[i].obj))),
      "TruthScope")
  }

  /** `createGrokipediaAssetJsonLd(topic, claims, url)`. */
  function CreateGrokipediaAssetJsonLd(topic: string, claims: seq<Claim>, url: string): (r: ArticleAsset)
    ensures r.headline == topic && r.author == "Grokipedia" && r.url == url && r.publisher == "TruthScope"
    ensures |r.mentions| == |claims|
  {
    ArticleAsset(topic, "Grokipedia", url,
      seq(|claims|, i requires 0 <= i < |claims| =>
        Statement(StatementId(i), claims[i].rawText, Thing(claims[i].subject, claims[i].pred + " " + claims[i].obj))),
      "TruthScope")
  }

  /** Mention `i` of an article asset is claim `i` under `@id` `claim:i`,
      naming its subject and describing it by predicate and object; the ids
      are pairwise distinct. */
  lemma ArticleMentions(topic: string, claims: seq<Claim>, url: string)
    ensures var m := CreateWikipediaAssetJsonLd(topic, claims, url).mentions;
      && (forall i :: 0 <= i < |claims| ==>
            && m[i].id == "claim:" + NatToString(i)
            && m[i].text == claims[i].rawText
            && m[i].mainEntity == Thing(claims[i].subject, claims[i].pred + " " + claims[i].obj))
      && (forall i, j :: 0 <= i < j < |claims| ==> m[i].id != m[j].id)
  {
    var m := CreateWikipediaAssetJsonLd(topic, claims, url).mentions;
    forall i, j | 0 <= i < j < |claims| ensures m[i].id != m[j].id {
      PrefixedIndexInjective("claim:", i, j);
    }
  }

  /** The two article builders differ only in `author.name`. */
  lemma ArticleBuildersDifferOnlyInAuthor(topic: string, claims: seq<Claim>, url: string)
    ensures CreateGrokipediaAssetJsonLd(topic, claims, url)
         == CreateWikipediaAssetJsonLd(topic, claims, url).(author := "Grokipedia")
  {
    var g := CreateGrokipediaAssetJsonLd(topic, claims, url);
    var w := CreateWikipediaAssetJsonLd(topic, claims, url);
    assert g.mentions == w.mentions;
  }

  /** A `{ "@id": ual }` reference. */
  datatype Ref = Ref(id: string)

  /** The analysis note. */
  datatype CommunityNote = CommunityNote(
    name: string,
    description: string,
    finding: string,
    confidence: real,
    stakedValue: string,
    evidence: seq<Ref>,
    author: string)

  /** `createCommunityNoteAssetJsonLd(topic, finding, summary, evidenceUals, confidence, stakedValue)`. */
  function CreateCommunityNoteAssetJsonLd(topic: string, finding: string, summary: string,
                                          evidenceUals: seq<string>, confidence: real,
                                          stakedValue: string): (r: CommunityNote)
    ensures r.name == "TruthScope Analysis: " + topic && r.author == "TruthScope Agent"
    ensures r.description == summary && r.finding == finding
    ensures r.confidence == confidence && r.stakedValue == stakedValue
    ensures |r.evidence| == |evidenceUals|
    ensures forall i :: 0 <= i < |evidenceUals| ==> r.evidence[i] == Ref(evidenceUals[i])
  {
    CommunityNote("TruthScope Analysis: " + topic, summary, finding, confidence, stakedValue,
                  seq(|evidenceUals|, i requires 0 <= i < |evidenceUals| => Ref(evidenceUals[i])),
                  "TruthScope Agent")
  }

  datatype Action = Stake | Vote

  datatype TrustEvent = TrustEvent(target: string, agent: string, action: Action,
                                   amount: Option<string>, reputationScore: Option<real>)

  /** `createTrustMetadataAssetJsonLd(targetUal, validator, action, amount, score)`. */
  function CreateTrustMetadataAssetJsonLd(targetUal: string, validator: string, action: Action,
                                          amount: Option<string>, score: Option<real>): (r: TrustEvent)
    ensures r.target == targetUal && r.agent == validator
    ensures r.action == action && r.amount == amount && r.reputationScore == score
  {
    TrustEvent(targetUal, validator, action, amount, score)
  }
}
