/** Code translation through the mapping table, `translate_code` (main.py),
    as reference functions over the tables and the properties it promises. */
module Translation {
  import opened Records
  import opened Lookup

  /** The two supported translation directions. */
  datatype Direction = NamasteToIcd11 | Icd11ToNamaste

  /** Only ("NAMASTE", "ICD-11") and ("ICD-11", "NAMASTE") are recognised. */
  function DirectionOf(fromSystem: string, toSystem: string): Option<Direction> {
    if fromSystem == "NAMASTE" && toSystem == "ICD-11" then Some(NamasteToIcd11)
    else if fromSystem == "ICD-11" && toSystem == "NAMASTE" then Some(Icd11ToNamaste)
    else None
  }

  /** The mapping column compared with the requested code. */
  function Key(m: CodeMapping, d: Direction): string {
    match d
    case NamasteToIcd11 => m.namasteCode
    case Icd11ToNamaste => m.icd11Code
  }

  /** The mapping column looked up in the target catalog. */
  function Target(m: CodeMapping, d: Direction): string {
    match d
    case NamasteToIcd11 => m.icd11Code
    case Icd11ToNamaste => m.namasteCode
  }

  function TargetCatalog(t: Tables, d: Direction): seq<CodeEntry> {
    match d
    case NamasteToIcd11 => t.icd11Codes
    case Icd11ToNamaste => t.namasteCodes
  }

  /** A mapping row contributes when it matches the code and its other end
      names an entry of the target catalog. */
  predicate Contributes(m: CodeMapping, catalog: seq<CodeEntry>, code: string, d: Direction) {
    Key(m, d) == code && FindCode(catalog, Target(m, d)).Some?
  }

  /** The result for a contributing row. */
  function ResultFor(m: CodeMapping, catalog: seq<CodeEntry>, code: string, d: Direction): TranslationResult
    requires Contributes(m, catalog, code, d)
  {
    var e := FindCode(catalog, Target(m, d)).value;
    TranslationResult(code, e.code, e.display, m.mappingType)
  }

  /** The results the loop over the matching mapping rows appends, in row
      order; rows whose target does not resolve are skipped. */
  function Resolve(rows: seq<CodeMapping>, catalog: seq<CodeEntry>, code: string, d: Direction): seq<TranslationResult> {
    if rows == [] then []
    else
      var m := rows[|rows| - 1];
      Resolve(rows[..|rows| - 1], catalog, code, d)
        + (if Contributes(m, catalog, code, d) then [ResultFor(m, catalog, code, d)] else [])
  }

  /** The contributing rows, in table order (reference definition). */
  function ContributingRows(rows: seq<CodeMapping>, catalog: seq<CodeEntry>, code: string, d: Direction): seq<CodeMapping> {
    if rows == [] then []
    else
      (if Contributes(rows[0], catalog, code, d) then [rows[0]] else [])
        + ContributingRows(rows[1..], catalog, code, d)
  }

  /** The list built by `translate_code`, before the emptiness check. */
  function Translations(t: Tables, req: TranslationRequest): seq<TranslationResult> {
    match DirectionOf(req.fromSystem, req.toSystem)
    case None => []
    case Some(d) => Resolve(t.codeMappings, TargetCatalog(t, d), req.code, d)
  }

  /** The response of `translate_code`: the list, or 404 when it is empty. */
  function Translate(t: Tables, req: TranslationRequest): Result<seq<TranslationResult>> {
    var results := Translations(t, req);
    if results == [] then Err(NoTranslation(req.code, req.fromSystem, req.toSystem))
    else Ok(results)
  }

  lemma {:induction false} ContributingAppend(a: seq<CodeMapping>, b: seq<CodeMapping>, catalog: seq<CodeEntry>, code: string, d: Direction)
    ensures ContributingRows(a + b, catalog, code, d) == ContributingRows(a, catalog, code, d) + ContributingRows(b, catalog, code, d)
  {
    if a == [] {
      assert a + b == b;
    } else {
      assert (a + b)[1..] == a[1..] + b;
      ContributingAppend(a[1..], b, catalog, code, d);
    }
  }

  lemma {:induction false} ContributingMembers(rows: seq<CodeMapping>, catalog: seq<CodeEntry>, code: string, d: Direction, m: CodeMapping)
    ensures m in ContributingRows(rows, catalog, code, d) <==> m in rows && Contributes(m, catalog, code, d)
  {
    if rows != [] {
      ContributingMembers(rows[1..], catalog, code, d, m);
      assert rows == [rows[0]] + rows[1..];
    }
  }

  /** One result per contributing row, in mapping-table order and without
      deduplication; each names the requested code as its source, the
      resolved entry as its target and the row's mapping type. */
  lemma {:induction false} ResolvePointwise(rows: seq<CodeMapping>, catalog: seq<CodeEntry>, code: string, d: Direction)
    ensures var used := ContributingRows(rows, catalog, code, d);
            var out := Resolve(rows, catalog, code, d);
            |out| == |used| &&
            forall i :: 0 <= i < |used| ==>
              Contributes(used[i], catalog, code, d) &&
              out[i] == TranslationResult(code, Target(used[i], d),
                                          FindCode(catalog, Target(used[i], d)).value.display,
                                          used[i].mappingType)
  {
    if rows != [] {
      var init, last := rows[..|rows| - 1], rows[|rows| - 1];
      ResolvePointwise(init, catalog, code, d);
      assert rows == init + [last];
      ContributingAppend(init, [last], catalog, code, d);
      assert ContributingRows([last], catalog, code, d)
          == if Contributes(last, catalog, code, d) then [last] else [];
    }
  }

  /** Any contributing row produces a result. */
  lemma ResolveComplete(rows: seq<CodeMapping>, catalog: seq<CodeEntry>, code: string, d: Direction, m: CodeMapping)
    requires m in rows && Contributes(m, catalog, code, d)
    ensures ResultFor(m, catalog, code, d) in Resolve(rows, catalog, code, d)
  {
    var used := ContributingRows(rows, catalog, code, d);
    ContributingMembers(rows, catalog, code, d, m);
    ResolvePointwise(rows, catalog, code, d);
    var i :| 0 <= i < |used| && used[i] == m;
    assert Resolve(rows, catalog, code, d)[i] == ResultFor(m, catalog, code, d);
  }

  /** A supported translation succeeds exactly when some mapping row matches
      the code and resolves in the target catalog; any other pair of systems
      always fails with 404. */
  lemma TranslateSucceedsIff(t: Tables, req: TranslationRequest)
    ensures DirectionOf(req.fromSystem, req.toSystem).None? ==>
              Translate(t, req) == Err(NoTranslation(req.code, req.fromSystem, req.toSystem))
    ensures DirectionOf(req.fromSystem, req.toSystem).Some? ==>
              var d := DirectionOf(req.fromSystem, req.toSystem).value;
              (Translate(t, req).Ok? <==>
                 exists m :: m in t.codeMappings && Contributes(m, TargetCatalog(t, d), req.code, d))
    ensures Translate(t, req).Err? ==> Translate(t, req).error == NoTranslation(req.code, req.fromSystem, req.toSystem)
  {
    if DirectionOf(req.fromSystem, req.toSystem).Some? {
      var d := DirectionOf(req.fromSystem, req.toSystem).value;
      var catalog := TargetCatalog(t, d);
      var used := ContributingRows(t.codeMappings, catalog, req.code, d);
      ResolvePointwise(t.codeMappings, catalog, req.code, d);
      if exists m :: m in t.codeMappings && Contributes(m, catalog, req.code, d) {
        var m :| m in t.codeMappings && Contributes(m, catalog, req.code, d);
        ContributingMembers(t.codeMappings, catalog, req.code, d, m);
      }
      if used != [] {
        ContributingMembers(t.codeMappings, catalog, req.code, d, used[0]);
      }
    }
  }

  /** The mapping table read from both ends: a row whose two codes both
      resolve is found translating forwards from its NAMASTE code and
      backwards from its ICD-11 code. */
  lemma TranslateRoundTrip(t: Tables, m: CodeMapping)
    requires m in t.codeMappings
    requires FindCode(t.namasteCodes, m.namasteCode).Some? && FindCode(t.icd11Codes, m.icd11Code).Some?
    ensures var fwd := Translate(t, TranslationRequest(m.namasteCode, "NAMASTE", "ICD-11"));
            fwd.Ok? && exists r :: r in fwd.value && r.sourceCode == m.namasteCode
                                  && r.targetCode == m.icd11Code && r.mappingType == m.mappingType
    ensures var back := Translate(t, TranslationRequest(m.icd11Code, "ICD-11", "NAMASTE"));
            back.Ok? && exists r :: r in back.value && r.sourceCode == m.icd11Code
                                   && r.targetCode == m.namasteCode && r.mappingType == m.mappingType
  {
    ResolveComplete(t.codeMappings, t.icd11Codes, m.namasteCode, NamasteToIcd11, m);
    ResolveComplete(t.codeMappings, t.namasteCodes, m.icd11Code, Icd11ToNamaste, m);
  }
}
