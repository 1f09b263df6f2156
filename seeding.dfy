/** The guarded bulk load of `setup_database` (main.py), as reference
    functions over the tables and the properties it promises. */
module Seeding {
  import opened Records

  /** The four sample lists to load; their contents are not modelled. */
  datatype SeedData = SeedData(
    namasteCodes: seq<CodeEntry>,
    icd11Codes: seq<CodeEntry>,
    codeMappings: seq<CodeMapping>,
    users: seq<User>)

  /** "skipped", or the row counts of the four tables after loading. */
  datatype SeedReport =
    | Skipped
    | Loaded(namasteCount: nat, icd11Count: nat, mappingCount: nat, userCount: nat)

  /** A NAMASTE table with at least one row means "already loaded". */
  predicate AlreadySeeded(t: Tables) {
    t.namasteCodes != []
  }

  /** The tables after `setup_database`. */
  function Seeded(t: Tables, data: SeedData): Tables {
    if AlreadySeeded(t) then t
    else t.(namasteCodes := t.namasteCodes + data.namasteCodes,
            icd11Codes := t.icd11Codes + data.icd11Codes,
            codeMappings := t.codeMappings + data.codeMappings,
            users := t.users + data.users)
  }

  /** The response of `setup_database`: the counts are re-queried after the
      commit, so they are whole-table counts. */
  function SeedOutcome(t: Tables, data: SeedData): SeedReport {
    if AlreadySeeded(t) then Skipped
    else
      var after := Seeded(t, data);
      Loaded(|after.namasteCodes|, |after.icd11Codes|, |after.codeMappings|, |after.users|)
  }

  /** Loading into a store without NAMASTE rows appends each list to its
      table, leaves the encounters alone and reports the resulting sizes. */
  lemma SeedLoads(t: Tables, data: SeedData)
    requires !AlreadySeeded(t)
    ensures var after := Seeded(t, data);
            && after.namasteCodes == t.namasteCodes + data.namasteCodes
            && after.icd11Codes == t.icd11Codes + data.icd11Codes
            && after.codeMappings == t.codeMappings + data.codeMappings
            && after.users == t.users + data.users
            && after.encounters == t.encounters
            && SeedOutcome(t, data) == Loaded(|data.namasteCodes|, |t.icd11Codes| + |data.icd11Codes|,
                                              |t.codeMappings| + |data.codeMappings|, |t.users| + |data.users|)
  {
  }

  /** With a NAMASTE row present, seeding is a no-op reporting "skipped". */
  lemma SeedSkips(t: Tables, data: SeedData)
    requires AlreadySeeded(t)
    ensures Seeded(t, data) == t && SeedOutcome(t, data) == Skipped
  {
  }

  /** Seeding twice equals seeding once, provided the NAMASTE sample list is
      not empty (otherwise the guard never trips and every call appends). */
  lemma SeedIdempotent(t: Tables, data: SeedData)
    requires data.namasteCodes != []
    ensures Seeded(Seeded(t, data), data) == Seeded(t, data)
    ensures SeedOutcome(Seeded(t, data), data) == Skipped
  {
  }

  /** Without that proviso idempotence fails: with nothing to add to the
      NAMASTE table the guard never trips, and a second call appends the
      mapping rows again (code_mappings has no unique column, so nothing
      stops the duplicate rows). */
  lemma SeedNotIdempotentWithoutNamasteRows(t: Tables, data: SeedData)
    requires t.namasteCodes == [] && data.namasteCodes == [] && data.icd11Codes == []
    requires data.users == [] && data.codeMappings != []
    ensures |Seeded(Seeded(t, data), data).codeMappings| == |t.codeMappings| + 2 * |data.codeMappings|
    ensures Seeded(Seeded(t, data), data) != Seeded(t, data)
  {
  }
}
