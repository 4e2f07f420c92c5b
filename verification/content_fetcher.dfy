/**
 * `src/lib/server/contentFetcher.ts`: the parts of fetching Wikipedia text
 * that decide rather than talk to the network. These are the TTL cache,
 * topic keywords and the relevance score, the choice of title in
 * `fetchWikipediaByQuery`, and in `fetchWikipediaContent` the citation and
 * white-space cleanup, the ranking and choice of a candidate page, and the
 * final length checks. Every network answer (search results, summaries,
 * article extracts) and every embedding similarity is an input.
 */
module ContentFetcher {
  import opened Wrappers
  import opened Strings
  import opened Seqs
  import opened TextCleanup

  // ---------------------------------------------------------------------
  // The TTL cache
  // ---------------------------------------------------------------------

  /** A cache slot: the value and the time (ms) up to which it is served. */
  datatype Entry<V> = Entry(value: V, expires: int)

  const DefaultTtlMs: int := 300000

  /** What `cacheGet(key)` at time `now` answers. */
  function Lookup<V>(entries: map<string, Entry<V>>, key: string, now: int): (r: Option<V>)
    ensures r.Some? <==> key in entries && now <= entries[key].expires
    ensures r.Some? ==> r.value == entries[key].value
  {
    if key in entries && now <= entries[key].expires then Some(entries[key].value) else None
  }

  /** The slots left after `cacheGet(key)` at time `now`: an expired slot is deleted. */
  function Pruned<V>(entries: map<string, Entry<V>>, key: string, now: int): (r: map<string, Entry<V>>)
    ensures forall k :: k in r <==> k in entries && (k != key || now <= entries[k].expires)
    ensures forall k :: k in r ==> r[k] == entries[k]
  {
    if key in entries && now > entries[key].expires then entries - {key} else entries
  }

  /** The module-level `cache` map. */
  class TtlCache<V> {
    var entries: map<string, Entry<V>>

    constructor ()
      ensures entries == map[]
    {
      entries := map[];
    }

    /** `cacheGet(key)`; `now` is `Date.now()`. */
    method Get(key: string, now: int) returns (r: Option<V>)
      modifies this
      ensures r == Lookup(old(entries), key, now)
      ensures entries == Pruned(old(entries), key, now)
    {
      if key !in entries {
        return None;
      }
      var entry := entries[key];
      if now > entry.expires {
        entries := entries - {key};
        return None;
      }
      return Some(entry.value);
    }

    /** `cacheSet(key, value, ttlMs)`; `now` is `Date.now()`. */
    method Set(key: string, value: V, now: int, ttlMs: int := DefaultTtlMs)
      modifies this
      ensures entries == old(entries)[key := Entry(value, now + ttlMs)]
    {
      entries := entries[key := Entry(value, now + ttlMs)];
    }
  }

  /** A value set at `now` is served, whatever was there before, until the TTL has passed, and not after. */
  lemma SetThenGet<V>(entries: map<string, Entry<V>>, key: string, value: V, now: int, ttlMs: int, later: int)
    ensures Lookup(entries[key := Entry(value, now + ttlMs)], key, later)
         == (if later <= now + ttlMs then Some(value) else None)
  {
  }

  /** Deleting an expired slot changes no answer, now or later. */
  lemma PruningUnobservable<V>(entries: map<string, Entry<V>>, key: string, now: int, k: string, later: int)
    requires now <= later
    ensures Lookup(Pruned(entries, key, now), k, later) == Lookup(entries, k, later)
  {
  }

  // ---------------------------------------------------------------------
  // Topic keywords and the relevance score
  // ---------------------------------------------------------------------

  const Stopwords: seq<string> := [
    "this", "that", "with", "from", "about", "which", "shall", "where", "there", "their",
    "these", "those", "would", "could", "should", "into", "being", "have", "been", "without",
    "under", "over", "using", "instead", "pros", "cons"]

  /** `STOPWORDS.has(w)`. */
  predicate IsStopword(w: string) {
    Listed(w, Stopwords)
  }

  predicate Listed(w: string, ws: seq<string>) {
    ws != [] && (ws[0] == w || Listed(w, ws[1..]))
  }

  predicate IsLowerLetter(c: char) {
    'a' <= c <= 'z'
  }

  predicate NotLowerLetter(c: char) {
    !IsLowerLetter(c)
  }

  /** A match of `/[a-z]{4,}/` that is not a stop word. */
  predicate IsKeyword(w: string) {
    |w| >= 4 && !IsStopword(w)
  }

  /** The maximal runs of a-z in the lowercased topic: a global match of
      `/[a-z]{4,}/` yields exactly the runs of length 4 or more. */
  function LetterRuns(topic: string): seq<string> {
    SplitRuns(Lower(topic), NotLowerLetter)
  }

  /** `extractTopicKeywords(topic)`: the matches that are not stop words, each once, first occurrence first. */
  function ExtractTopicKeywords(topic: string): seq<string> {
    FirstBy(Filter(LetterRuns(topic), IsKeyword), (w: string) => w)
  }

  /** Every keyword is one of the runs and passes the keyword test; every run
      that passes is a keyword. */
  lemma KeywordsAreTheRuns(topic: string)
    ensures var r := ExtractTopicKeywords(topic);
      && (forall i :: 0 <= i < |r| ==> r[i] in LetterRuns(topic) && IsKeyword(r[i]))
      && (forall w :: w in LetterRuns(topic) && IsKeyword(w) ==> w in r)
  {
    var runs := LetterRuns(topic);
    var kept := Filter(runs, IsKeyword);
    var id := (w: string) => w;
    var r := FirstBy(kept, id);
    assert forall i :: 0 <= i < |r| ==> r[i] in kept by {
      FirstBySubsequence(kept, id);
      SubsequenceMembers(r, kept);
    }
    assert forall x :: x in kept ==> x in runs && IsKeyword(x) by {
      FilterKeeps(runs, IsKeyword);
      SubsequenceMembers(kept, runs);
    }
    forall w | w in runs && IsKeyword(w) ensures w in r {
      FilterKeeps(runs, IsKeyword);
      FirstByKeys(kept, id);
      var j :| 0 <= j < |kept| && kept[j] == w;
      assert id(w) in KeysOf(kept, id);
      var m :| 0 <= m < |r| && id(r[m]) == id(w);
    }
  }

  /** Every keyword has four or more letters a-z and is no stop word; no
      keyword repeats; every such run of the topic is a keyword; and the
      keywords keep the order of the topic. */
  lemma KeywordsWellFormed(topic: string)
    ensures var r := ExtractTopicKeywords(topic);
      && (forall i :: 0 <= i < |r| ==> |r[i]| >= 4 && !IsStopword(r[i]))
      && (forall i, k :: 0 <= i < |r| && 0 <= k < |r[i]| ==> 'a' <= r[i][k] <= 'z')
      && (forall i, j :: 0 <= i < j < |r| ==> r[i] != r[j])
      && (forall w :: w in LetterRuns(topic) && IsKeyword(w) ==> w in r)
      && Subsequence(r, LetterRuns(topic))
  {
    KeywordsAreTheRuns(topic);
    KeywordLetters(topic);
    KeywordsDistinct(topic);
    KeywordsInOrder(topic);
  }

  lemma KeywordLetters(topic: string)
    ensures var r := ExtractTopicKeywords(topic);
      forall i, k :: 0 <= i < |r| && 0 <= k < |r[i]| ==> 'a' <= r[i][k] <= 'z'
  {
    var runs := LetterRuns(topic);
    var r := ExtractTopicKeywords(topic);
    KeywordsAreTheRuns(topic);
    forall i, k | 0 <= i < |r| && 0 <= k < |r[i]| ensures 'a' <= r[i][k] <= 'z' {
      var j :| 0 <= j < |runs| && runs[j] == r[i];
      assert !NotLowerLetter(runs[j][k]);
    }
  }

  lemma KeywordsDistinct(topic: string)
    ensures var r := ExtractTopicKeywords(topic);
      forall i, j :: 0 <= i < j < |r| ==> r[i] != r[j]
  {
    var kept := Filter(LetterRuns(topic), IsKeyword);
    var id := (w: string) => w;
    var r := FirstBy(kept, id);
    FirstByKeys(kept, id);
    assert forall i, j :: 0 <= i < j < |r| ==> id(r[i]) != id(r[j]);
  }

  lemma KeywordsInOrder(topic: string)
    ensures Subsequence(ExtractTopicKeywords(topic), LetterRuns(topic))
  {
    var runs := LetterRuns(topic);
    var kept := Filter(runs, IsKeyword);
    var id := (w: string) => w;
    FirstBySubsequence(kept, id);
    FilterKeeps(runs, IsKeyword);
    SubsequenceTrans(FirstBy(kept, id), kept, runs);
  }

  /** `k && lc.includes(k)`. */
  predicate Hits(lc: string, k: string) {
    k != "" && Contains(lc, k)
  }

  /** `relevanceScore(text, keywords)` counted over a prefix of the keywords. */
  function Score(text: string, keywords: seq<string>): (r: nat)
    ensures r <= |keywords|
  {
    if keywords == [] then 0
    else Score(text, keywords[..|keywords| - 1]) + (if Hits(Lower(text), keywords[|keywords| - 1]) then 1 else 0)
  }

  /** The score is the number of keywords the lowercased text contains; it is 0
      exactly when none is contained and `|keywords|` exactly when all are. */
  lemma {:induction false} ScoreCounts(text: string, keywords: seq<string>)
    ensures Score(text, keywords) == |Filter(keywords, (k: string) => Hits(Lower(text), k))|
    ensures Score(text, keywords) == 0 <==> forall i :: 0 <= i < |keywords| ==> !Hits(Lower(text), keywords[i])
    ensures Score(text, keywords) == |keywords| <==> forall i :: 0 <= i < |keywords| ==> Hits(Lower(text), keywords[i])
  {
    if keywords != [] {
      var init := keywords[..|keywords| - 1];
      ScoreCounts(text, init);
      assert forall i :: 0 <= i < |init| ==> init[i] == keywords[i];
    }
  }

  /** `relevanceScore(text, keywords)`. */
  method RelevanceScore(text: string, keywords: seq<string>) returns (score: nat)
    ensures score == Score(text, keywords)
  {
    var lc := Lower(text);
    score := 0;
    for i := 0 to |keywords|
      invariant score == Score(text, keywords[..i])
    {
      assert keywords[..i + 1][..i] == keywords[..i];
      var k := keywords[i];
      if k != "" && Contains(lc, k) {
        score := score + 1;
      }
    }
    assert keywords[..|keywords|] == keywords;
  }

  // ---------------------------------------------------------------------
  // fetchWikipediaByQuery: choosing a title
  // ---------------------------------------------------------------------

  /** The score of a title by its own words. */
  function TitleScore(keywords: seq<string>): string -> real {
    (t: string) => Score(t, keywords) as real
  }

  /** The score of a title with its summary: `relevanceScore((summary || '') + ' ' + t)`.
      `summaryOf(t)` is `None` when fetching the summary throws, `Some("")` when it is null. */
  function SummaryScore(keywords: seq<string>, summaryOf: string -> Option<string>): string -> real {
    (t: string) => Score(summaryOf(t).GetOr("") + " " + t, keywords) as real
  }

  function Fetched(summaryOf: string -> Option<string>): string -> bool {
    (t: string) => summaryOf(t).Some?
  }

  function AnyTitle(): string -> bool {
    (t: string) => true
  }

  /** The first scan: starting from `bestScore = -1`, the first title with the highest score. */
  function InitialPick(titles: seq<string>, keywords: seq<string>): Option<nat> {
    FirstMax(titles, TitleScore(keywords), AnyTitle(), -1.0)
  }

  /** The title the first scan settles on. */
  function InitialBest(titles: seq<string>, keywords: seq<string>): (best: string)
    requires titles != []
    ensures best in titles
  {
    var k := InitialPick(titles, keywords);
    if k.Some? then titles[k.value] else titles[0]
  }

  /** The refinement scan, starting from `best` with `bestScore`: the first
      fetched title with the highest summary score if that beats `bestScore`. */
  function Refined(titles: seq<string>, keywords: seq<string>, summaryOf: string -> Option<string>,
                   best: string, bestScore: int): (r: string)
    ensures r == best || r in titles
  {
    var j := FirstMax(titles, SummaryScore(keywords, summaryOf), Fetched(summaryOf), bestScore as real);
    if j.Some? then titles[j.value] else best
  }

  /** The title `fetchWikipediaByQuery` goes on to fetch; `None` when the search found nothing. */
  function SelectedTitle(titles: seq<string>, query: string, summaryOf: string -> Option<string>): (r: Option<string>)
    ensures r.None? <==> titles == []
    ensures r.Some? ==> r.value in titles
  {
    if titles == [] then None
    else
      var keywords := ExtractTopicKeywords(query);
      var best := InitialBest(titles, keywords);
      var bestScore := Score(best, keywords);
      if bestScore >= 2 then Some(best) else Some(Refined(titles, keywords, summaryOf, best, bestScore))
  }

  /** The first scan always picks a title: the first one with the highest score, and `titles[0]` when none scores. */
  lemma InitialPickFirstHighest(titles: seq<string>, keywords: seq<string>)
    requires titles != []
    ensures var k := InitialPick(titles, keywords);
      && k.Some? && InitialBest(titles, keywords) == titles[k.value]
      && (forall j :: 0 <= j < |titles| ==> Score(titles[j], keywords) <= Score(titles[k.value], keywords))
      && (forall j :: 0 <= j < k.value ==> Score(titles[j], keywords) < Score(titles[k.value], keywords))
      && ((forall j :: 0 <= j < |titles| ==> Score(titles[j], keywords) == 0) ==> k.value == 0)
  {
    var k := InitialPick(titles, keywords);
    var score := TitleScore(keywords);
    assert score(titles[0]) >= 0.0;
    assert k.Some?;
    forall j | 0 <= j < |titles|
      ensures Score(titles[j], keywords) <= Score(titles[k.value], keywords)
    {
      assert score(titles[j]) <= score(titles[k.value]);
    }
    forall j | 0 <= j < k.value
      ensures Score(titles[j], keywords) < Score(titles[k.value], keywords)
    {
      assert score(titles[j]) < score(titles[k.value]);
    }
  }

  /** When the picked title scores 2 or more it is kept; otherwise it is
      replaced only by a title whose summary was fetched and scores strictly
      higher with it, the first such title with the highest summary score. */
  lemma RefinementReplacesOnlyWhenBetter(titles: seq<string>, query: string, summaryOf: string -> Option<string>)
    requires titles != []
    ensures var keywords := ExtractTopicKeywords(query);
      var best := InitialBest(titles, keywords);
      var r := SelectedTitle(titles, query, summaryOf).value;
      var s := SummaryScore(keywords, summaryOf);
      && (Score(best, keywords) >= 2 ==> r == best)
      && (r != best ==>
            && Score(best, keywords) < 2
            && summaryOf(r).Some?
            && s(r) > Score(best, keywords) as real
            && forall t :: t in titles && summaryOf(t).Some? ==> s(t) <= s(r))
  {
    var keywords := ExtractTopicKeywords(query);
    InitialPickFirstHighest(titles, keywords);
    var best := InitialBest(titles, keywords);
    var j := FirstMax(titles, SummaryScore(keywords, summaryOf), Fetched(summaryOf), Score(best, keywords) as real);
    if Score(best, keywords) < 2 && j.Some? {
      forall t | t in titles && summaryOf(t).Some?
        ensures SummaryScore(keywords, summaryOf)(t) <= SummaryScore(keywords, summaryOf)(titles[j.value])
      {
        var m :| 0 <= m < |titles| && titles[m] == t;
        assert Fetched(summaryOf)(titles[m]);
      }
    }
  }

  /** The title loops of `fetchWikipediaByQuery`: pick by title score, then,
      when the best title scores below 2, refine by summary score. The
      article fetch that follows is network I/O. */
  method SelectTitle(titles: seq<string>, query: string, summaryOf: string -> Option<string>)
    returns (r: Option<string>)
    ensures r == SelectedTitle(titles, query, summaryOf)
  {
    if |titles| == 0 {
      return None;
    }
    var keywords := ExtractTopicKeywords(query);
    var best, bestScore := PickByTitle(titles, keywords);
    if bestScore < 2 {
      best := RefineBySummary(titles, keywords, summaryOf, best, bestScore);
    }
    return Some(best);
  }

  /** The first loop: `if (s > bestScore) { bestScore = s; best = t; }` from `best = titles[0]`, `bestScore = -1`. */
  method PickByTitle(titles: seq<string>, keywords: seq<string>) returns (best: string, bestScore: int)
    requires titles != []
    ensures best == InitialBest(titles, keywords) && bestScore == Score(best, keywords)
  {
    best, bestScore := titles[0], -1;
    ghost var k: Option<nat> := None;
    for i := 0 to |titles|
      invariant k == InitialPick(titles[..i], keywords)
      invariant k.Some? ==> k.value < i && best == titles[k.value] && bestScore == Score(best, keywords)
      invariant k.None? ==> i == 0 && best == titles[0] && bestScore == -1
    {
      assert titles[..i + 1][..i] == titles[..i];
      var t := titles[i];
      var s := RelevanceScore(t, keywords);
      if s > bestScore {
        bestScore, best := s, t;
        k := Some(i);
      }
    }
    assert titles[..|titles|] == titles;
  }

  /** The refinement loop: a title whose summary fetch throws is skipped. */
  method RefineBySummary(titles: seq<string>, keywords: seq<string>, summaryOf: string -> Option<string>,
                         best: string, bestScore: int) returns (refined: string)
    ensures refined == Refined(titles, keywords, summaryOf, best, bestScore)
  {
    refined := best;
    var refinedScore := bestScore;
    ghost var score := SummaryScore(keywords, summaryOf);
    ghost var eligible := Fetched(summaryOf);
    ghost var floor := bestScore as real;
    ghost var j: Option<nat> := None;
    for i := 0 to |titles|
      invariant j == FirstMax(titles[..i], score, eligible, floor)
      invariant j.Some? ==> j.value < i && refined == titles[j.value] && refinedScore as real == score(titles[j.value])
      invariant j.None? ==> refined == best && refinedScore == bestScore
    {
      FirstMaxStep(titles, i, score, eligible, floor, j, refinedScore as real);
      var t := titles[i];
      var summary := summaryOf(t);
      if summary.None? {
        continue;
      }
      var s := RelevanceScore(summary.value + " " + t, keywords);
      assert score(t) == s as real;
      if s > refinedScore {
        refined, refinedScore := t, s;
        j := Some(i);
      }
    }
    assert titles[..|titles|] == titles;
  }
  // ---------------------------------------------------------------------
  // fetchWikipediaContent: ranking and choosing a candidate page
  // ---------------------------------------------------------------------

  /** Why `fetchWikipediaContent` throws. */
  datatype FetchError = NoTitles | SummariesUnavailable | NoRelevantPage | SummaryTooShort

  /** A ranked candidate: its title, its cleaned summary and the embedding
      similarity of topic and summary (0 when there is none). */
  datatype Candidate = Candidate(title: string, summary: string, sim: real)

  const MaxCandidates: nat := 5
  const MinTopicTitleSim: real := 0.15
  const MinTopicSummarySim: real := 0.20
  const NoOverlapSim: real := 0.22
  const MinSummaryLength: nat := 40
  const MinArticleLength: nat := 500
  const SummaryAcceptLength: nat := 300

  /** `candidateTitles.slice(0, 5)`. */
  function FirstCandidates(titles: seq<string>): (r: seq<string>)
    ensures |r| <= MaxCandidates && r <= titles
  {
    if |titles| <= MaxCandidates then titles else titles[..MaxCandidates]
  }

  /** The ranking loop: every title whose summary fetch did not throw, with
      its cleaned summary (`|| ''` for null) and the summary similarity. */
  function Ranked(titles: seq<string>, summaryOf: string -> Option<string>, simOf: string -> real): (r: seq<Candidate>)
    ensures |r| <= |titles|
    ensures forall i :: 0 <= i < |r| ==>
      summaryOf(r[i].title).Some? && r[i].summary == Clean(summaryOf(r[i].title).value) && r[i].sim == simOf(r[i].title)
  {
    if titles == [] then []
    else
      var init := Ranked(titles[..|titles| - 1], summaryOf, simOf);
      var t := titles[|titles| - 1];
      if summaryOf(t).Some? then init + [Candidate(t, Clean(summaryOf(t).value), simOf(t))] else init
  }

  /** The candidates are the titles whose summary was fetched, in order. */
  lemma {:induction false} RankedTitles(titles: seq<string>, summaryOf: string -> Option<string>, simOf: string -> real)
    ensures var r := Ranked(titles, summaryOf, simOf);
      var fetched := Filter(titles, Fetched(summaryOf));
      |r| == |fetched| && forall i :: 0 <= i < |r| ==> r[i].title == fetched[i]
  {
    if titles != [] {
      RankedTitles(titles[..|titles| - 1], summaryOf, simOf);
    }
  }

  /** The ranking loop of `fetchWikipediaContent`. */
  method RankCandidates(titles: seq<string>, summaryOf: string -> Option<string>, simOf: string -> real)
    returns (ranked: seq<Candidate>)
    ensures ranked == Ranked(FirstCandidates(titles), summaryOf, simOf)
  {
    var first := FirstCandidates(titles);
    ranked := [];
    for i := 0 to |first|
      invariant ranked == Ranked(first[..i], summaryOf, simOf)
    {
      assert first[..i + 1][..i] == first[..i];
      var title := first[i];
      var summary := summaryOf(title);
      if summary.None? {
        continue;
      }
      var cleanSummary := Clean(summary.value);
      ranked := ranked + [Candidate(title, cleanSummary, simOf(title))];
    }
    assert first[..|first|] == first;
  }

  /** `/may refer to:|disambiguation/i` on the summary or `/\(disambiguation\)/i` on the title. */
  predicate IsDisambiguation(title: string, summary: string) {
    || Contains(Lower(summary), "may refer to:")
    || Contains(Lower(summary), "disambiguation")
    || Contains(Lower(title), "(disambiguation)")
  }

  /** How many topic keywords are also keywords of the title (the topic
      keywords are distinct, so their `Set` is the sequence itself). */
  function Intersection(keywords: seq<string>, title: string): nat {
    var titleWords := ExtractTopicKeywords(title);
    |Filter(keywords, (w: string) => w in titleWords)|
  }

  function Max(a: nat, b: nat): nat {
    if a >= b then a else b
  }

  /** The mismatch decision for one candidate; `titleSim` is the embedding
      similarity of topic and title (0 when there is none). */
  predicate IsMismatch(c: Candidate, keywords: seq<string>, titleSim: real) {
    var summary := Trim(c.summary);
    var hardKeywordMiss: int := if |keywords| > 0 then 0 else -1;
    || (titleSim < MinTopicTitleSim && c.sim < MinTopicSummarySim
        && Max(Score(c.title, keywords), Score(summary, keywords)) <= hardKeywordMiss)
    || (Intersection(keywords, c.title) == 0 && c.sim < NoOverlapSim)
    || IsDisambiguation(c.title, summary)
    || (0 < |summary| < MinSummaryLength)
  }

  /** The test a candidate must pass to be chosen. */
  function Passes(keywords: seq<string>, titleSim: string -> real): (p: Candidate -> bool)
  {
    (c: Candidate) => !IsMismatch(c, keywords, titleSim(c.title))
  }

  /** The candidate `fetchWikipediaContent` goes on with, or why it throws. */
  function Chosen(topic: string, ranked: seq<Candidate>, titleSim: string -> real): Result<Candidate, FetchError> {
    if ranked == [] then Failure(SummariesUnavailable)
    else
      var k := FirstWhere(ranked, Passes(ExtractTopicKeywords(topic), titleSim));
      if k.Some? then Success(ranked[k.value]) else Failure(NoRelevantPage)
  }

  /** The mismatch decision for one candidate, computed as the loop body does. */
  method CheckCandidate(cand: Candidate, keywords: seq<string>, titleSim: string -> real) returns (isMismatch: bool)
    ensures isMismatch == IsMismatch(cand, keywords, titleSim(cand.title))
    ensures isMismatch == !Passes(keywords, titleSim)(cand)
  {
    var tSim := titleSim(cand.title);
    var hardKeywordMiss: int := if |keywords| > 0 then 0 else -1;
    var title := cand.title;
    var summary := Trim(cand.summary);
    var kwInTitle := RelevanceScore(title, keywords);
    var kwInSummary := RelevanceScore(summary, keywords);
    var keywordHit := Max(kwInTitle, kwInSummary);
    var summarySim := cand.sim;
    var isDisamb := IsDisambiguation(title, summary);
    var summaryLen := |summary|;
    var intersection := Intersection(keywords, title);
    isMismatch := tSim < MinTopicTitleSim && summarySim < MinTopicSummarySim && keywordHit <= hardKeywordMiss;
    if intersection == 0 && summarySim < NoOverlapSim {
      isMismatch := true;
    }
    if isDisamb {
      isMismatch := true;
    }
    if summaryLen > 0 && summaryLen < MinSummaryLength {
      isMismatch := true;
    }
  }

  /** The choice loop: the index of the first candidate that is not a mismatch. */
  method FirstRelevant(ranked: seq<Candidate>, keywords: seq<string>, titleSim: string -> real)
    returns (chosen: Option<nat>)
    ensures chosen == FirstWhere(ranked, Passes(keywords, titleSim))
  {
    ghost var passes := Passes(keywords, titleSim);
    chosen := None;
    for i := 0 to |ranked|
      invariant chosen.None?
      invariant forall j :: 0 <= j < i ==> !passes(ranked[j])
    {
      var isMismatch := CheckCandidate(ranked[i], keywords, titleSim);
      if !isMismatch {
        chosen := Some(i);
        break;
      }
    }
    FirstWhereUnique(ranked, passes, chosen);
  }

  /** The candidate chosen, with the errors for no candidates and for none
      passing. */
  method ChooseCandidate(topic: string, ranked: seq<Candidate>, titleSim: string -> real)
    returns (r: Result<Candidate, FetchError>)
    ensures r == Chosen(topic, ranked, titleSim)
  {
    if |ranked| == 0 {
      return Failure(SummariesUnavailable);
    }
    var chosen := FirstRelevant(ranked, ExtractTopicKeywords(topic), titleSim);
    if chosen.None? {
      return Failure(NoRelevantPage);
    }
    return Success(ranked[chosen.value]);
  }

  /** The chosen candidate is one of the ranked ones, is no disambiguation
      page and has no summary of 1 to 39 characters; when the topic has no
      keywords, only the summary similarity can let a candidate through. */
  lemma ChosenPasses(topic: string, ranked: seq<Candidate>, titleSim: string -> real)
    ensures var r := Chosen(topic, ranked, titleSim);
      r.Success? ==>
        && r.value in ranked
        && !IsDisambiguation(r.value.title, Trim(r.value.summary))
        && !(0 < |Trim(r.value.summary)| < MinSummaryLength)
        && (ExtractTopicKeywords(topic) == [] ==> r.value.sim >= NoOverlapSim)
  {
    var keywords := ExtractTopicKeywords(topic);
    var k := FirstWhere(ranked, Passes(keywords, titleSim));
    if Chosen(topic, ranked, titleSim).Success? {
      assert k.Some?;
      var c := ranked[k.value];
      assert !IsMismatch(c, keywords, titleSim(c.title));
    }
  }

  /** `fetchWikipediaContent` throws exactly when no candidate was ranked or
      every ranked candidate is a mismatch. */
  lemma ChosenFailsOnlyWhenAllMismatch(topic: string, ranked: seq<Candidate>, titleSim: string -> real)
    ensures Chosen(topic, ranked, titleSim).Failure? <==>
      forall j :: 0 <= j < |ranked| ==> IsMismatch(ranked[j], ExtractTopicKeywords(topic), titleSim(ranked[j].title))
  {
  }

  // ---------------------------------------------------------------------
  // fetchWikipediaContent: the final text
  // ---------------------------------------------------------------------

  /**
   * The last step: `article` is what fetching the full article gave (`None`
   * when it throws, `Some("")` for null), `summary` the chosen candidate's.
   * The cleaned article is kept unless it is under 500 characters while the
   * summary is under 300; then, as when the fetch throws, the summary is
   * the fallback: null when empty, an error when under 300 characters.
   */
  function FinalText(article: Option<string>, summary: string): (r: Result<Option<string>, FetchError>)
    ensures r.Success? && r.value.Some? ==>
      |r.value.value| >= MinArticleLength || |summary| >= SummaryAcceptLength
    ensures r == Success(None) <==>
      summary == "" && (article.None? || |Clean(if article.value != "" then article.value else summary)| < MinArticleLength)
    ensures r.Failure? <==>
      0 < |summary| < SummaryAcceptLength
      && (article.None? || |Clean(if article.value != "" then article.value else summary)| < MinArticleLength)
  {
    var tooShort := article.Some? &&
      var full := if article.value != "" then article.value else summary;
      |Clean(full)| < MinArticleLength && |summary| < SummaryAcceptLength;
    if article.Some? && !tooShort then
      Success(Some(Clean(if article.value != "" then article.value else summary)))
    else if summary == "" then Success(None)
    else if |summary| < SummaryAcceptLength then Failure(SummaryTooShort)
    else Success(Some(summary))
  }

  /** Every network answer and embedding `fetchWikipediaContent` depends on. */
  datatype Sources = Sources(
    search: string -> Option<seq<string>>,
    summaryOf: string -> Option<string>,
    simOf: string -> real,
    titleSim: string -> real,
    article: string -> Option<string>)

  /** `keywords.slice(0, 3).join(' ') || topic`. */
  function PrimaryQuery(keywords: seq<string>, topic: string): string {
    var joined := Join(if |keywords| <= 3 then keywords else keywords[..3], " ");
    if joined != "" then joined else topic
  }

  /** The titles searched for: the primary query's, else the whole topic's; a search that throws finds nothing. */
  function CandidateTitles(topic: string, src: Sources): seq<string> {
    var first := src.search(PrimaryQuery(ExtractTopicKeywords(topic), topic)).GetOr([]);
    if |first| > 0 then first else src.search(topic).GetOr([])
  }

  /** What `fetchWikipediaContent(topic)` returns or throws. */
  function Content(topic: string, src: Sources): Result<Option<string>, FetchError> {
    var titles := CandidateTitles(topic, src);
    if titles == [] then Failure(NoTitles)
    else
      var chosen := Chosen(topic, Ranked(FirstCandidates(titles), src.summaryOf, src.simOf), src.titleSim);
      if chosen.Failure? then Failure(chosen.error)
      else FinalText(src.article(chosen.value.title), chosen.value.summary)
  }

  /** `fetchWikipediaContent(topic)`. */
  method FetchWikipediaContent(topic: string, src: Sources) returns (r: Result<Option<string>, FetchError>)
    ensures r == Content(topic, src)
  {
    var keywords := ExtractTopicKeywords(topic);
    var primaryVariant := PrimaryQuery(keywords, topic);
    var candidateTitles := src.search(primaryVariant).GetOr([]);
    if |candidateTitles| == 0 {
      candidateTitles := src.search(topic).GetOr([]);
    }
    if |candidateTitles| == 0 {
      return Failure(NoTitles);
    }
    var ranked := RankCandidates(candidateTitles, src.summaryOf, src.simOf);
    var chosen := ChooseCandidate(topic, ranked, src.titleSim);
    if chosen.Failure? {
      return Failure(chosen.error);
    }
    return FinalText(src.article(chosen.value.title), chosen.value.summary);
  }

  /** The final step returns clean text when the summary is a cleaned one. */
  lemma FinalTextIsClean(article: Option<string>, rawSummary: string)
    ensures var r := FinalText(article, Clean(rawSummary));
      r.Success? && r.value.Some? ==> IsCleanText(r.value.value)
  {
    var summary := Clean(rawSummary);
    var r := FinalText(article, summary);
    if r.Success? && r.value.Some? {
      if article.Some? {
        var full := if article.value != "" then article.value else summary;
        if !(|Clean(full)| < MinArticleLength && |summary| < SummaryAcceptLength) {
          assert r.value.value == Clean(full);
          CleanShape(full);
          return;
        }
      }
      assert r.value.value == summary;
      CleanShape(rawSummary);
    }
  }

  /** Whatever text `fetchWikipediaContent` returns is cleaned: no white space
      at the ends, only single spaces, no citation marker. */
  lemma ContentIsClean(topic: string, src: Sources)
    ensures var r := Content(topic, src);
      r.Success? && r.value.Some? ==> IsCleanText(r.value.value)
  {
    var titles := CandidateTitles(topic, src);
    if titles != [] {
      var ranked := Ranked(FirstCandidates(titles), src.summaryOf, src.simOf);
      var chosen := Chosen(topic, ranked, src.titleSim);
      if chosen.Success? {
        ChosenPasses(topic, ranked, src.titleSim);
        var c := chosen.value;
        var i :| 0 <= i < |ranked| && ranked[i] == c;
        FinalTextIsClean(src.article(c.title), src.summaryOf(c.title).value);
      }
    }
  }
}
