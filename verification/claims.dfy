/**
 * The records that flow through the pipeline: what the extraction model
 * returns for one chunk, the claims built from it, and the discrepancies the
 * comparison reports.
 */
module Claims {
  import opened Wrappers

  /** One element of the array the extraction model returns. A string field
      the model left out is represented as "". */
  // `pred` and `obj` are the source's `predicate` and `object` fields (both are Dafny keywords).
  datatype RawClaim = RawClaim(
    subject: string,
    pred: string,
    obj: string,
    rawText: string,
    text: string,
    confidence: Option<real>)

  /** A claim as the extractor hands it on: an id, the triple, its text and a confidence. */
  datatype Claim = Claim(
    id: string,
    subject: string,
    pred: string,
    obj: string,
    rawText: string,
    confidence: real)

  datatype DiscrepancyType = Missing | Contradiction | Bias | Unsupported | CitationAbsent

  /** One finding of the comparison; `claimA`/`claimB` are the optional fields of the JSON. */
  datatype Discrepancy = Discrepancy(
    kind: DiscrepancyType,
    summary: string,
    confidence: real,
    claimA: Option<Claim>,
    claimB: Option<Claim>)
}
