/**
 * `src/server/truthAgent.ts`: `runComparisonJob` checks for the API key,
 * records a `processing` job and hands back its id; the detached body then
 * extracts the claims of both texts, converts them to JSON-LD, compares them,
 * optionally publishes the two documents, and finally patches the job to
 * `completed` or `error`.
 *
 * The agent writes its jobs through an object-patch store with the statuses
 * `processing`, `completed` and `error`; that store is `AgentStore` here, a
 * map of records updated by merging a patch. The detached body is the method
 * `RunJobBody`, run after `RunComparisonJob`; every outcome it cannot compute
 * (the model's replies, the publisher's answers, an escaping exception) is an
 * input gathered in `Oracles`.
 */
module TruthAgent {
  import opened Wrappers
  import opened Claims
  import opened LlmClient
  import opened ClaimExtractor
  import opened SemanticDiff

  // ---------------------------------------------------------------------
  // The store the agent writes to
  // ---------------------------------------------------------------------

  datatype AgentStatus = Processing | Completed | Error

  /** What a publication resolves to: the `{ kaId, ual }` pair of the publisher
      the agent expects (its `publishKnowledgeAsset` import). */
  datatype Published = Published(kaId: string, ual: string)

  /** `assets`: a key is present only when its publication succeeded. */
  datatype Assets = Assets(sourceA: Option<Published>, sourceB: Option<Published>)

  datatype JobResult = JobResult(
    topic: string,
    sourceA: string,
    sourceB: string,
    claimsA: seq<Claim>,
    claimsB: seq<Claim>,
    discrepancies: seq<Discrepancy>,
    assets: Assets)

  datatype AgentJob = AgentJob(
    status: AgentStatus,
    topic: string,
    sourceA: string,
    sourceB: string,
    result: Option<JobResult>,
    error: Option<string>)

  /** The two patches the body writes: `{status: 'completed', result}` and `{status: 'error', error}`. */
  datatype Patch = CompletedPatch(result: JobResult) | ErrorPatch(message: string)

  /** The records after merging `patch` into job `id`; an unknown id is left alone. */
  function Patched(jobs: map<string, AgentJob>, id: string, patch: Patch): (r: map<string, AgentJob>)
    ensures r.Keys == jobs.Keys
    ensures forall k :: k in jobs && k != id ==> r[k] == jobs[k]
    ensures id in jobs ==>
      && r[id].topic == jobs[id].topic && r[id].sourceA == jobs[id].sourceA && r[id].sourceB == jobs[id].sourceB
      && (patch.CompletedPatch? ==>
            r[id].status == Completed && r[id].result == Some(patch.result) && r[id].error == jobs[id].error)
      && (patch.ErrorPatch? ==>
            r[id].status == Error && r[id].error == Some(patch.message) && r[id].result == jobs[id].result)
  {
    if id !in jobs then jobs
    else match patch
      case CompletedPatch(result) => jobs[id := jobs[id].(status := Completed, result := Some(result))]
      case ErrorPatch(message) => jobs[id := jobs[id].(status := Error, error := Some(message))]
  }

  class AgentStore {
    var jobs: map<string, AgentJob>

    constructor ()
      ensures jobs == map[]
    {
      jobs := map[];
    }

    /** `createJob({status: 'processing', topic, sourceA, sourceB})`; `freshId` is the id the store picks. */
    method CreateJob(freshId: string, topic: string, sourceA: string, sourceB: string) returns (id: string)
      modifies this
      ensures id == freshId
      ensures jobs == old(jobs)[id := AgentJob(Processing, topic, sourceA, sourceB, None, None)]
    {
      id := freshId;
      jobs := jobs[id := AgentJob(Processing, topic, sourceA, sourceB, None, None)];
    }

    /** `updateJob(id, patch)`. */
    method UpdateJob(id: string, patch: Patch)
      modifies this
      ensures jobs == Patched(old(jobs), id, patch)
    {
      if id in jobs {
        match patch
        case CompletedPatch(result) =>
          jobs := jobs[id := jobs[id].(status := Completed, result := Some(result))];
        case ErrorPatch(message) =>
          jobs := jobs[id := jobs[id].(status := Error, error := Some(message))];
      }
    }
  }

  // ---------------------------------------------------------------------
  // runComparisonJob
  // ---------------------------------------------------------------------

  const MissingKeyMessage := "OPENAI_API_KEY missing; cannot run comparison job"

  /** The synchronous part of `runComparisonJob`: without a key it throws
      before touching the store; otherwise it records a `processing` job and
      returns its id at once. */
  method RunComparisonJob(store: AgentStore, hasKey: bool, topic: string, sourceA: string, sourceB: string,
                          freshId: string) returns (r: Result<string, string>)
    modifies store
    ensures !hasKey ==> r == Failure(MissingKeyMessage) && store.jobs == old(store.jobs)
    ensures hasKey ==>
      && r == Success(freshId)
      && store.jobs == old(store.jobs)[freshId := AgentJob(Processing, topic, sourceA, sourceB, None, None)]
  {
    if !hasKey {
      return Failure(MissingKeyMessage);
    }
    var jobId := store.CreateJob(freshId, topic, sourceA, sourceB);
    return Success(jobId);
  }

  // ---------------------------------------------------------------------
  // The detached body
  // ---------------------------------------------------------------------

  /** A thrown value: its `message` ("" when it has none or it is falsy) and `String(e)`. */
  datatype Thrown = Thrown(message: string, asString: string)

  /** `(e && e.message) ? e.message : String(e)`. */
  function ErrorText(e: Thrown): string {
    if e.message != "" then e.message else e.asString
  }

  /**
   * What the body cannot compute: for each text, the extraction model's
   * outcome per chunk and the random suffix; the RDF model's replies; whether
   * DKG is configured and what each publication returns (`None` when it
   * throws); and an exception that escapes extraction, conversion or
   * comparison, if one does. `dkgConfigured`, `publishA` and `publishB`
   * stand for the `isDkgConfigured`/`publishKnowledgeAsset` pair the agent
   * imports, which the repository's `dkgClient.ts` does not export.
   */
  datatype Oracles = Oracles(
    extractA: (nat, string) -> ChunkOutcome,
    suffixA: string,
    extractB: (nat, string) -> ChunkOutcome,
    suffixB: string,
    rdfReplyA: RdfReply,
    rdfReplyB: RdfReply,
    dkgConfigured: bool,
    publishA: Rdf -> Option<Published>,
    publishB: Rdf -> Option<Published>,
    fault: Option<Thrown>)

  /** `text || ''`. */
  function OrEmpty(text: Option<string>): string {
    if text.Some? then text.value else ""
  }

  /** The assets the body collects: both documents when DKG is configured,
      each only if its publication succeeded. */
  function PublishedAssets(o: Oracles, rdfA: Rdf, rdfB: Rdf): (r: Assets)
    ensures !o.dkgConfigured ==> r == Assets(None, None)
    ensures o.dkgConfigured ==> r.sourceA == o.publishA(rdfA) && r.sourceB == o.publishB(rdfB)
  {
    if o.dkgConfigured then Assets(o.publishA(rdfA), o.publishB(rdfB)) else Assets(None, None)
  }

  /** The result the body stores when nothing throws. */
  function ResultOf(jobId: string, topic: string, sourceA: string, sourceB: string,
                    textA: Option<string>, textB: Option<string>, o: Oracles): JobResult
  {
    var claimsA := Extracted(OrEmpty(textA), jobId, o.suffixA, o.extractA);
    var claimsB := Extracted(OrEmpty(textB), jobId, o.suffixB, o.extractB);
    var rdfA := GenerateRdfFromClaims(true, topic, claimsA, sourceA, o.rdfReplyA);
    var rdfB := GenerateRdfFromClaims(true, topic, claimsB, sourceB, o.rdfReplyB);
    JobResult(topic, sourceA, sourceB, claimsA, claimsB,
              Compare(true, topic, claimsA, claimsB).discrepancies,
              PublishedAssets(o, rdfA, rdfB))
  }

  /** The one patch the body writes. */
  function JobPatch(jobId: string, topic: string, sourceA: string, sourceB: string,
                    textA: Option<string>, textB: Option<string>, o: Oracles): Patch
  {
    if o.fault.Some? then ErrorPatch(ErrorText(o.fault.value))
    else CompletedPatch(ResultOf(jobId, topic, sourceA, sourceB, textA, textB, o))
  }

  /** The `try` block up to the final update: extract, convert, compare, publish. */
  method RunSteps(jobId: string, topic: string, sourceA: string, sourceB: string,
                  textA: Option<string>, textB: Option<string>, o: Oracles) returns (result: JobResult)
    ensures result == ResultOf(jobId, topic, sourceA, sourceB, textA, textB, o)
  {
    var wikiText := OrEmpty(textA);
    var grokText := OrEmpty(textB);
    var claimsA := ExtractClaimsFromText(wikiText, jobId, o.suffixA, o.extractA);
    var claimsB := ExtractClaimsFromText(grokText, jobId, o.suffixB, o.extractB);
    var rdfA := GenerateRdfFromClaims(true, topic, claimsA, sourceA, o.rdfReplyA);
    var rdfB := GenerateRdfFromClaims(true, topic, claimsB, sourceB, o.rdfReplyB);
    var comparison := CompareClaims(true, topic, claimsA, claimsB);
    var assets := PublishAssets(o, rdfA, rdfB);
    result := JobResult(topic, sourceA, sourceB, claimsA, claimsB, comparison.discrepancies, assets);
  }

  /** The `if (dkgConfigured)` block: each publication that throws leaves its key unset. */
  method PublishAssets(o: Oracles, rdfA: Rdf, rdfB: Rdf) returns (assets: Assets)
    ensures assets == PublishedAssets(o, rdfA, rdfB)
  {
    assets := Assets(None, None);
    if o.dkgConfigured {
      var published := o.publishA(rdfA);
      if published.Some? {
        assets := assets.(sourceA := published);
      }
      // `rdfB` is an object, so the `if (rdfB)` guard always passes
      published := o.publishB(rdfB);
      if published.Some? {
        assets := assets.(sourceB := published);
      }
    }
  }

  /** The detached body of `runComparisonJob`, run to the end. */
  method RunJobBody(store: AgentStore, jobId: string, topic: string, sourceA: string, sourceB: string,
                    textA: Option<string>, textB: Option<string>, o: Oracles)
    modifies store
    ensures store.jobs == Patched(old(store.jobs), jobId, JobPatch(jobId, topic, sourceA, sourceB, textA, textB, o))
  {
    if o.fault.Some? {
      // the exception escapes one of the steps; nothing is published
      store.UpdateJob(jobId, ErrorPatch(ErrorText(o.fault.value)));
      return;
    }
    var result := RunSteps(jobId, topic, sourceA, sourceB, textA, textB, o);
    store.UpdateJob(jobId, CompletedPatch(result));
  }

  // ---------------------------------------------------------------------
  // What the agent promises
  // ---------------------------------------------------------------------

  /** A submitted job ends `completed` or `error`, never still `processing`,
      and keeps its topic and sources; `completed` exactly when nothing threw. */
  lemma JobEnds(jobs: map<string, AgentJob>, jobId: string, topic: string, sourceA: string, sourceB: string,
                textA: Option<string>, textB: Option<string>, o: Oracles)
    ensures var created := jobs[jobId := AgentJob(Processing, topic, sourceA, sourceB, None, None)];
      var final := Patched(created, jobId, JobPatch(jobId, topic, sourceA, sourceB, textA, textB, o))[jobId];
      && final.topic == topic && final.sourceA == sourceA && final.sourceB == sourceB
      && (final.status == Completed <==> o.fault.None?)
      && (final.status == Error <==> o.fault.Some?)
      && (o.fault.Some? ==> final.error == Some(ErrorText(o.fault.value)) && final.result == None)
      && (o.fault.None? ==>
            final.error == None && final.result == Some(ResultOf(jobId, topic, sourceA, sourceB, textA, textB, o)))
  {
  }

  /** On success the result holds the topic, the sources, both claim lists
      (each valid, with distinct ids and normalised texts), and the comparison's
      discrepancies. */
  lemma CompletedResult(jobId: string, topic: string, sourceA: string, sourceB: string,
                        textA: Option<string>, textB: Option<string>, o: Oracles)
    ensures var r := ResultOf(jobId, topic, sourceA, sourceB, textA, textB, o);
      && r.topic == topic && r.sourceA == sourceA && r.sourceB == sourceB
      && r.claimsA == Extracted(OrEmpty(textA), jobId, o.suffixA, o.extractA)
      && r.claimsB == Extracted(OrEmpty(textB), jobId, o.suffixB, o.extractB)
      && r.discrepancies == Compare(true, topic, r.claimsA, r.claimsB).discrepancies
      && (forall i :: 0 <= i < |r.claimsA| ==> IsValid(r.claimsA[i]))
      && (forall i, j :: 0 <= i < j < |r.claimsB| ==> r.claimsB[i].id != r.claimsB[j].id)
  {
    var r := ResultOf(jobId, topic, sourceA, sourceB, textA, textB, o);
    var claimsA := Extracted(OrEmpty(textA), jobId, o.suffixA, o.extractA);
    var claimsB := Extracted(OrEmpty(textB), jobId, o.suffixB, o.extractB);
    assert r.claimsA == claimsA && r.claimsB == claimsB;
    assert forall i :: 0 <= i < |claimsA| ==> IsValid(claimsA[i]) by {
      ExtractedWellFormed(OrEmpty(textA), jobId, o.suffixA, o.extractA);
    }
    assert forall i, j :: 0 <= i < j < |claimsB| ==> claimsB[i].id != claimsB[j].id by {
      ExtractedWellFormed(OrEmpty(textB), jobId, o.suffixB, o.extractB);
    }
  }

  /** A null text is processed as the empty string. */
  lemma NullTextIsEmpty(jobId: string, topic: string, sourceA: string, sourceB: string, o: Oracles)
    ensures JobPatch(jobId, topic, sourceA, sourceB, None, None, o)
         == JobPatch(jobId, topic, sourceA, sourceB, Some(""), Some(""), o)
  {
  }

  /** Nothing is published unless DKG is configured; then both documents are
      offered, and a failed publication leaves its key absent without failing the job. */
  lemma PublishingIsolated(jobId: string, topic: string, sourceA: string, sourceB: string,
                           textA: Option<string>, textB: Option<string>, o: Oracles)
    requires o.fault.None?
    ensures var p := JobPatch(jobId, topic, sourceA, sourceB, textA, textB, o);
      var claimsA := Extracted(OrEmpty(textA), jobId, o.suffixA, o.extractA);
      var claimsB := Extracted(OrEmpty(textB), jobId, o.suffixB, o.extractB);
      && p.CompletedPatch?
      && (!o.dkgConfigured ==> p.result.assets == Assets(None, None))
      && (o.dkgConfigured ==>
            && p.result.assets.sourceA == o.publishA(GenerateRdfFromClaims(true, topic, claimsA, sourceA, o.rdfReplyA))
            && p.result.assets.sourceB == o.publishB(GenerateRdfFromClaims(true, topic, claimsB, sourceB, o.rdfReplyB)))
  {
  }
}
