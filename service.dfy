/** The database as an in-memory store and the request handlers of main.py
    that walk or change it. Each handler is proved to compute exactly the
    reference function of its module over a snapshot of the store. */
module Service {
  import opened Records
  import opened Lookup
  import opened Sorting
  import Search
  import Translation
  import Encounters
  import Seeding

  class Store {
    var namasteCodes: seq<CodeEntry>
    var icd11Codes: seq<CodeEntry>
    var codeMappings: seq<CodeMapping>
    var users: seq<User>
    var encounters: seq<UserEncounter>

    /** The five tables as one value. */
    function Snapshot(): Tables
      reads this
    {
      Tables(namasteCodes, icd11Codes, codeMappings, users, encounters)
    }

    /** A freshly created database: five empty tables. */
    constructor ()
      ensures Snapshot() == Tables([], [], [], [], [])
    {
      namasteCodes, icd11Codes, codeMappings, users, encounters := [], [], [], [], [];
    }

    /** `setup_database`: skip when a NAMASTE row exists, otherwise add every
        sample row table by table and report the table sizes. */
    method SetupDatabase(data: Seeding.SeedData) returns (report: Seeding.SeedReport)
      modifies this
      ensures Snapshot() == Seeding.Seeded(old(Snapshot()), data)
      ensures report == Seeding.SeedOutcome(old(Snapshot()), data)
    {
      if namasteCodes != [] {
        return Seeding.Skipped;
      }
      for i := 0 to |data.namasteCodes|
        invariant namasteCodes == old(namasteCodes) + data.namasteCodes[..i]
        invariant icd11Codes == old(icd11Codes) && codeMappings == old(codeMappings)
        invariant users == old(users) && encounters == old(encounters)
      {
        namasteCodes := namasteCodes + [data.namasteCodes[i]];
      }
      for i := 0 to |data.icd11Codes|
        invariant namasteCodes == old(namasteCodes) + data.namasteCodes
        invariant icd11Codes == old(icd11Codes) + data.icd11Codes[..i]
        invariant codeMappings == old(codeMappings)
        invariant users == old(users) && encounters == old(encounters)
      {
        icd11Codes := icd11Codes + [data.icd11Codes[i]];
      }
      for i := 0 to |data.codeMappings|
        invariant namasteCodes == old(namasteCodes) + data.namasteCodes
        invariant icd11Codes == old(icd11Codes) + data.icd11Codes
        invariant codeMappings == old(codeMappings) + data.codeMappings[..i]
        invariant users == old(users) && encounters == old(encounters)
      {
        codeMappings := codeMappings + [data.codeMappings[i]];
      }
      for i := 0 to |data.users|
        invariant namasteCodes == old(namasteCodes) + data.namasteCodes
        invariant icd11Codes == old(icd11Codes) + data.icd11Codes
        invariant codeMappings == old(codeMappings) + data.codeMappings
        invariant users == old(users) + data.users[..i]
        invariant encounters == old(encounters)
      {
        users := users + [data.users[i]];
      }
      assert data.namasteCodes[..|data.namasteCodes|] == data.namasteCodes;
      assert data.icd11Codes[..|data.icd11Codes|] == data.icd11Codes;
      assert data.codeMappings[..|data.codeMappings|] == data.codeMappings;
      assert data.users[..|data.users|] == data.users;
      report := Seeding.Loaded(|namasteCodes|, |icd11Codes|, |codeMappings|, |users|);
    }

    /** `search_codes`: scan the selected catalogs keeping entries scored
        above 50, sort the hits by score, highest first and stably, and cut
        the list at `limit`. */
    method SearchCodes(q: string, system: string, limit: int, ratio: Search.Ratio)
      returns (results: seq<SearchResult>)
      ensures results == Search.SearchCodes(Snapshot(), q, system, limit, ratio)
    {
      var hits: seq<SearchResult> := [];
      if Search.SelectsNamaste(system) {
        hits := ScanCatalog(namasteCodes, q, ratio);
      }
      if Search.SelectsIcd11(system) {
        var more := ScanCatalog(icd11Codes, q, ratio);
        hits := hits + more;
      }
      assert hits == Search.Candidates(Snapshot(), q, system, ratio);
      var ranked := new SearchResult[|hits|](i requires 0 <= i < |hits| => hits[i]);
      assert ranked[..] == hits;
      SortInPlace(ranked, Search.Score);
      SortDescPermutes(hits, Search.Score);
      results := ranked[..Search.SliceStop(ranked.Length, limit)];
    }

    /** `translate_code`: walk the mapping rows matching the code in the
        requested direction, keep those whose other end resolves, and fail
        with 404 when none is kept. */
    method TranslateCode(req: TranslationRequest) returns (r: Result<seq<TranslationResult>>)
      ensures r == Translation.Translate(Snapshot(), req)
    {
      var results: seq<TranslationResult> := [];
      var direction := Translation.DirectionOf(req.fromSystem, req.toSystem);
      if direction.Some? {
        var d := direction.value;
        var catalog := Translation.TargetCatalog(Snapshot(), d);
        for i := 0 to |codeMappings|
          invariant results == Translation.Resolve(codeMappings[..i], catalog, req.code, d)
        {
          var m := codeMappings[i];
          if Translation.Key(m, d) == req.code {
            var found := FindCode(catalog, Translation.Target(m, d));
            if found.Some? {
              results := results + [TranslationResult(req.code, found.value.code, found.value.display, m.mappingType)];
            }
          }
          assert codeMappings[..i + 1][..i] == codeMappings[..i];
        }
        assert codeMappings[..|codeMappings|] == codeMappings;
      }
      if results == [] {
        r := Err(NoTranslation(req.code, req.fromSystem, req.toSystem));
      } else {
        r := Ok(results);
      }
    }

    /** `upload_encounter` at instant `now`: authenticate, check both codes,
        then add one encounter row; a refused upload changes nothing. */
    method UploadEncounter(apiKey: Option<string>, req: EncounterRequest, now: int)
      returns (r: Result<Encounters.Upload>)
      modifies this
      ensures r == Encounters.UploadEncounter(old(Snapshot()), apiKey, req, now)
      ensures Snapshot() == Encounters.AfterUpload(old(Snapshot()), apiKey, req, now)
    {
      var auth := Encounters.Authenticate(users, apiKey);
      if auth.Err? {
        return Err(auth.error);
      }
      var user := auth.value;
      var namaste := FindCode(namasteCodes, req.namasteCode);
      var icd11 := FindCode(icd11Codes, req.icd11Code);
      if namaste.None? {
        return Err(NamasteCodeNotFound(req.namasteCode));
      }
      if icd11.None? {
        return Err(Icd11CodeNotFound(req.icd11Code));
      }
      var record := UserEncounter(user.userId, req.patientId, req.namasteCode, req.icd11Code, "upload", now);
      encounters := encounters + [record];
      r := Ok(Encounters.Upload(record,
             Encounters.UploadReceipt(req.patientId, namaste.value, icd11.value, user.name)));
    }
  }

  /** One catalog loop of `search_codes`: score every entry against the
      query and append a result for each one scored above 50. */
  method ScanCatalog(catalog: seq<CodeEntry>, q: string, ratio: Search.Ratio)
    returns (hits: seq<SearchResult>)
    ensures hits == Search.Matches(catalog, q, ratio)
  {
    hits := [];
    for i := 0 to |catalog|
      invariant hits == Search.Matches(catalog[..i], q, ratio)
    {
      var e := catalog[i];
      var score := Search.Relevance(q, e, ratio);
      if score > 50 {
        hits := hits + [SearchResult(e.code, e.display, e.system, e.category, score)];
      }
      assert catalog[..i + 1][..i] == catalog[..i];
    }
    assert catalog[..|catalog|] == catalog;
  }
}
