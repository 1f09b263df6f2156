/** The relevance-ranked search of `search_codes` (main.py), as reference
    functions over the tables and the properties the endpoint promises. */
module Search {
  import opened Records
  import opened Lookup
  import opened Sorting

  /** The similarity measure `fuzz.partial_ratio(query, text)`; the
      library's algorithm is not modelled, so it is a parameter. */
  type Ratio = (string, string) -> int

  /** What the library promises of its score: a percentage. */
  ghost predicate RatioInRange(ratio: Ratio) {
    forall a, b :: 0 <= ratio(a, b) <= 100
  }

  /** The better of the two lower-cased comparisons: query against the
      display name and query against the code. */
  function Relevance(q: string, e: CodeEntry, ratio: Ratio): (r: int)
    ensures r >= ratio(Lower(q), Lower(e.display)) && r >= ratio(Lower(q), Lower(e.code))
    ensures r == ratio(Lower(q), Lower(e.display)) || r == ratio(Lower(q), Lower(e.code))
  {
    var displayScore := ratio(Lower(q), Lower(e.display));
    var codeScore := ratio(Lower(q), Lower(e.code));
    if displayScore >= codeScore then displayScore else codeScore
  }

  /** An entry is kept only when its relevance is strictly above 50. */
  predicate Relevant(q: string, e: CodeEntry, ratio: Ratio) {
    Relevance(q, e, ratio) > 50
  }

  /** The result row reported for a catalog entry. */
  function Hit(q: string, e: CodeEntry, ratio: Ratio): SearchResult {
    SearchResult(e.code, e.display, e.system, e.category, Relevance(q, e, ratio))
  }

  function Score(r: SearchResult): int {
    r.relevanceScore
  }

  predicate SelectsNamaste(system: string) {
    system == "namaste" || system == "both"
  }

  predicate SelectsIcd11(system: string) {
    system == "icd11" || system == "both"
  }

  /** The hits of one catalog, in catalog order: the rows the scan appends. */
  function Matches(catalog: seq<CodeEntry>, q: string, ratio: Ratio): seq<SearchResult> {
    if catalog == [] then []
    else
      var e := catalog[|catalog| - 1];
      Matches(catalog[..|catalog| - 1], q, ratio) + (if Relevant(q, e, ratio) then [Hit(q, e, ratio)] else [])
  }

  function NamasteHits(t: Tables, q: string, system: string, ratio: Ratio): seq<SearchResult> {
    if SelectsNamaste(system) then Matches(t.namasteCodes, q, ratio) else []
  }

  function Icd11Hits(t: Tables, q: string, system: string, ratio: Ratio): seq<SearchResult> {
    if SelectsIcd11(system) then Matches(t.icd11Codes, q, ratio) else []
  }

  /** The unsorted result list: NAMASTE hits first, then ICD-11 hits. */
  function Candidates(t: Tables, q: string, system: string, ratio: Ratio): seq<SearchResult> {
    NamasteHits(t, q, system, ratio) + Icd11Hits(t, q, system, ratio)
  }

  /** The stop index of the Python slice `s[:limit]` on a list of length
      `n`; a negative limit counts from the end. */
  function SliceStop(n: nat, limit: int): (k: nat)
    ensures k <= n
  {
    if limit >= 0 then (if limit <= n then limit else n)
    else if n + limit > 0 then n + limit
    else 0
  }

  /** The response of `search_codes(q, system, limit)`. */
  function SearchCodes(t: Tables, q: string, system: string, limit: int, ratio: Ratio): seq<SearchResult> {
    var ranked := SortDesc(Candidates(t, q, system, ratio), Score);
    SortDescPermutes(Candidates(t, q, system, ratio), Score);
    ranked[..SliceStop(|ranked|, limit)]
  }

  lemma {:induction false} MatchesComplete(catalog: seq<CodeEntry>, q: string, ratio: Ratio, e: CodeEntry)
    requires e in catalog && Relevant(q, e, ratio)
    ensures Hit(q, e, ratio) in Matches(catalog, q, ratio)
  {
    var init := catalog[..|catalog| - 1];
    if e != catalog[|catalog| - 1] {
      assert catalog == init + [catalog[|catalog| - 1]];
      MatchesComplete(init, q, ratio, e);
    }
  }

  lemma {:induction false} MatchesSound(catalog: seq<CodeEntry>, q: string, ratio: Ratio, x: SearchResult)
    requires x in Matches(catalog, q, ratio)
    ensures exists e :: e in catalog && Relevant(q, e, ratio) && x == Hit(q, e, ratio)
  {
    var init, last := catalog[..|catalog| - 1], catalog[|catalog| - 1];
    if x in Matches(init, q, ratio) {
      MatchesSound(init, q, ratio, x);
      var e :| e in init && Relevant(q, e, ratio) && x == Hit(q, e, ratio);
      assert e in catalog;
    } else {
      assert Relevant(q, last, ratio) && x == Hit(q, last, ratio);
    }
  }

  /** A row is a candidate exactly when it is the hit of an entry of a
      selected catalog whose relevance is above 50; its score is that
      relevance. An unrecognised `system` selects no catalog. */
  lemma CandidatesExactly(t: Tables, q: string, system: string, ratio: Ratio, x: SearchResult)
    ensures x in Candidates(t, q, system, ratio) <==>
      exists e :: ((SelectsNamaste(system) && e in t.namasteCodes) || (SelectsIcd11(system) && e in t.icd11Codes))
                  && Relevant(q, e, ratio) && x == Hit(q, e, ratio)
  {
    if x in NamasteHits(t, q, system, ratio) {
      MatchesSound(t.namasteCodes, q, ratio, x);
    } else if x in Icd11Hits(t, q, system, ratio) {
      MatchesSound(t.icd11Codes, q, ratio, x);
    }
    if exists e :: ((SelectsNamaste(system) && e in t.namasteCodes) || (SelectsIcd11(system) && e in t.icd11Codes))
                   && Relevant(q, e, ratio) && x == Hit(q, e, ratio) {
      var e :| ((SelectsNamaste(system) && e in t.namasteCodes) || (SelectsIcd11(system) && e in t.icd11Codes))
               && Relevant(q, e, ratio) && x == Hit(q, e, ratio);
      if SelectsNamaste(system) && e in t.namasteCodes {
        MatchesComplete(t.namasteCodes, q, ratio, e);
      } else {
        MatchesComplete(t.icd11Codes, q, ratio, e);
      }
    }
  }

  /** Every returned row is a candidate; with a percentage-valued ratio its
      score lies in 51..100. */
  lemma SearchSound(t: Tables, q: string, system: string, limit: int, ratio: Ratio, x: SearchResult)
    requires x in SearchCodes(t, q, system, limit, ratio)
    ensures x in Candidates(t, q, system, ratio)
    ensures RatioInRange(ratio) ==> 50 < x.relevanceScore <= 100
  {
    var c := Candidates(t, q, system, ratio);
    SortDescPermutes(c, Score);
    assert x in SortDesc(c, Score);
    assert x in multiset(SortDesc(c, Score));
    CandidatesExactly(t, q, system, ratio, x);
  }

  /** The number of rows returned: `limit` of them (or all when fewer), and
      for a negative limit all but the last `-limit`. */
  lemma SearchSize(t: Tables, q: string, system: string, limit: int, ratio: Ratio)
    ensures var n := |Candidates(t, q, system, ratio)|;
            |SearchCodes(t, q, system, limit, ratio)|
              == if limit >= 0 then (if limit < n then limit else n)
                 else (if n + limit > 0 then n + limit else 0)
    ensures limit >= 0 ==> |SearchCodes(t, q, system, limit, ratio)| <= limit
  {
    SortDescPermutes(Candidates(t, q, system, ratio), Score);
  }

  /** Rows come highest score first. */
  lemma SearchOrdered(t: Tables, q: string, system: string, limit: int, ratio: Ratio)
    ensures NonIncreasing(SearchCodes(t, q, system, limit, ratio), Score)
  {
    var ranked := SortDesc(Candidates(t, q, system, ratio), Score);
    SortDescSorted(Candidates(t, q, system, ratio), Score);
    SortDescPermutes(Candidates(t, q, system, ratio), Score);
    var r := SearchCodes(t, q, system, limit, ratio);
    assert forall i :: 0 <= i < |r| ==> r[i] == ranked[i];
  }

  /** Rows with equal scores keep catalog order, NAMASTE rows before ICD-11
      rows: for each score, the returned rows carrying it are the first ones
      carrying it in the NAMASTE-then-ICD-11 scan. */
  lemma SearchTiesInCatalogOrder(t: Tables, q: string, system: string, limit: int, ratio: Ratio, v: int)
    ensures WithKey(SearchCodes(t, q, system, limit, ratio), Score, v)
         <= WithKey(NamasteHits(t, q, system, ratio), Score, v) + WithKey(Icd11Hits(t, q, system, ratio), Score, v)
  {
    var c := Candidates(t, q, system, ratio);
    var ranked := SortDesc(c, Score);
    SortDescPermutes(c, Score);
    WithKeyPrefix(ranked, SliceStop(|ranked|, limit), Score, v);
    SortDescStable(c, Score, v);
    WithKeyAppend(NamasteHits(t, q, system, ratio), Icd11Hits(t, q, system, ratio), Score, v);
  }

  /** A relevant entry of a selected catalog is returned unless the limit
      cut it off, and then every returned row scores at least as high. */
  lemma SearchKeepsBest(t: Tables, q: string, system: string, limit: int, ratio: Ratio, e: CodeEntry)
    requires (SelectsNamaste(system) && e in t.namasteCodes) || (SelectsIcd11(system) && e in t.icd11Codes)
    requires Relevant(q, e, ratio)
    ensures limit >= |Candidates(t, q, system, ratio)| ==> Hit(q, e, ratio) in SearchCodes(t, q, system, limit, ratio)
    ensures Hit(q, e, ratio) !in SearchCodes(t, q, system, limit, ratio) ==>
      forall x :: x in SearchCodes(t, q, system, limit, ratio) ==> x.relevanceScore >= Relevance(q, e, ratio)
  {
    var c := Candidates(t, q, system, ratio);
    var ranked := SortDesc(c, Score);
    var r := SearchCodes(t, q, system, limit, ratio);
    var h := Hit(q, e, ratio);
    CandidatesExactly(t, q, system, ratio, h);
    SortDescPermutes(c, Score);
    SortDescSorted(c, Score);
    assert h in multiset(ranked);
    var j :| 0 <= j < |ranked| && ranked[j] == h;
    var stop := SliceStop(|ranked|, limit);
    assert r == ranked[..stop];
    if j < stop {
      assert r[j] == h;
    } else {
      forall x | x in r
        ensures x.relevanceScore >= Relevance(q, e, ratio)
      {
        var i :| 0 <= i < |r| && r[i] == x;
        assert Score(ranked[i]) >= Score(ranked[j]);
      }
    }
  }

  lemma {:induction false} MatchesIgnoreQueryCase(catalog: seq<CodeEntry>, q: string, ratio: Ratio)
    ensures Matches(catalog, Lower(q), ratio) == Matches(catalog, q, ratio)
  {
    LowerIdempotent(q);
    if catalog != [] {
      MatchesIgnoreQueryCase(catalog[..|catalog| - 1], q, ratio);
    }
  }

  /** The query is lower-cased before it is scored, so searching for a
      query or for its lower-case form gives the same response. */
  lemma SearchIgnoresQueryCase(t: Tables, q: string, system: string, limit: int, ratio: Ratio)
    ensures SearchCodes(t, Lower(q), system, limit, ratio) == SearchCodes(t, q, system, limit, ratio)
  {
    MatchesIgnoreQueryCase(t.namasteCodes, q, ratio);
    MatchesIgnoreQueryCase(t.icd11Codes, q, ratio);
  }
}
