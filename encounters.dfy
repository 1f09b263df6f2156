/** API-key authentication and dual-coded encounters: `verify_api_key`,
    `upload_encounter` and `get_encounters` (main.py), as reference
    functions over the tables and the properties they promise. */
module Encounters {
  import opened Records
  import opened Lookup
  import opened Sorting

  /** `verify_api_key` followed by the user query: a missing or empty
      `api_key` header is refused first, then a key no user holds. */
  function Authenticate(users: seq<User>, apiKey: Option<string>): (r: Result<User>)
    ensures r.Ok? <==> apiKey.Some? && apiKey.value != "" && exists u :: u in users && u.apiKey == apiKey.value
    ensures r.Ok? ==> r.value in users && r.value.apiKey == apiKey.value
    ensures (apiKey.None? || apiKey.value == "") <==> r == Err(ApiKeyRequired)
    ensures apiKey.Some? && apiKey.value != "" && (forall u :: u in users ==> u.apiKey != apiKey.value) ==>
              r == Err(InvalidApiKey)
    ensures r.Err? ==> StatusCode(r.error) == 401
  {
    if apiKey.None? || apiKey.value == "" then Err(ApiKeyRequired)
    else match FindUser(users, apiKey.value)
      case None => Err(InvalidApiKey)
      case Some(u) => Ok(u)
  }

  /** The response body of a successful upload. */
  datatype UploadReceipt = UploadReceipt(
    patientId: string,
    namaste: CodeEntry,
    icd11: CodeEntry,
    uploadedBy: string)

  /** The row an upload writes and the response it returns. */
  datatype Upload = Upload(record: UserEncounter, receipt: UploadReceipt)

  /** `upload_encounter` at instant `now`: authentication, then the NAMASTE
      code, then the ICD-11 code, then one new `upload` row. */
  function UploadEncounter(t: Tables, apiKey: Option<string>, req: EncounterRequest, now: int): Result<Upload> {
    match Authenticate(t.users, apiKey)
    case Err(e) => Err(e)
    case Ok(user) =>
      match FindCode(t.namasteCodes, req.namasteCode)
      case None => Err(NamasteCodeNotFound(req.namasteCode))
      case Some(n) =>
        match FindCode(t.icd11Codes, req.icd11Code)
        case None => Err(Icd11CodeNotFound(req.icd11Code))
        case Some(i) =>
          Ok(Upload(
            UserEncounter(user.userId, req.patientId, req.namasteCode, req.icd11Code, "upload", now),
            UploadReceipt(req.patientId, n, i, user.name)))
  }

  /** The tables after `upload_encounter`: one more encounter on success,
      nothing changed on failure. */
  function AfterUpload(t: Tables, apiKey: Option<string>, req: EncounterRequest, now: int): Tables {
    match UploadEncounter(t, apiKey, req, now)
    case Ok(u) => t.(encounters := t.encounters + [u.record])
    case Err(_) => t
  }

  /** The response of `get_encounters`. */
  datatype EncounterListing = EncounterListing(user: string, total: nat, encounters: seq<UserEncounter>)

  function Timestamp(e: UserEncounter): int {
    e.timestamp
  }

  /** The encounters owned by `userId`, in insertion order. */
  function OwnedBy(encounters: seq<UserEncounter>, userId: string): seq<UserEncounter> {
    if encounters == [] then []
    else (if encounters[0].userId == userId then [encounters[0]] else []) + OwnedBy(encounters[1..], userId)
  }

  /** `get_encounters`: the caller's own encounters, latest first. */
  function ListEncounters(t: Tables, apiKey: Option<string>): Result<EncounterListing> {
    match Authenticate(t.users, apiKey)
    case Err(e) => Err(e)
    case Ok(user) =>
      var mine := SortDesc(OwnedBy(t.encounters, user.userId), Timestamp);
      Ok(EncounterListing(user.name, |mine|, mine))
  }

  lemma {:induction false} OwnedByMembers(encounters: seq<UserEncounter>, userId: string, e: UserEncounter)
    ensures e in OwnedBy(encounters, userId) <==> e in encounters && e.userId == userId
  {
    if encounters != [] {
      OwnedByMembers(encounters[1..], userId, e);
      assert encounters == [encounters[0]] + encounters[1..];
    }
  }

  lemma {:induction false} OwnedByAppend(a: seq<UserEncounter>, b: seq<UserEncounter>, userId: string)
    ensures OwnedBy(a + b, userId) == OwnedBy(a, userId) + OwnedBy(b, userId)
  {
    if a == [] {
      assert a + b == b;
    } else {
      assert (a + b)[1..] == a[1..] + b;
      OwnedByAppend(a[1..], b, userId);
    }
  }

  /** Failures come in a fixed order: missing key, unknown key (before any
      code is looked at), unknown NAMASTE code (before the ICD-11 code),
      unknown ICD-11 code. A failed upload changes nothing. */
  lemma UploadErrorOrder(t: Tables, apiKey: Option<string>, req: EncounterRequest, now: int)
    ensures (apiKey.None? || apiKey.value == "") ==>
              UploadEncounter(t, apiKey, req, now) == Err(ApiKeyRequired)
    ensures apiKey.Some? && apiKey.value != "" && (forall u :: u in t.users ==> u.apiKey != apiKey.value) ==>
              UploadEncounter(t, apiKey, req, now) == Err(InvalidApiKey)
    ensures Authenticate(t.users, apiKey).Ok? && (forall e :: e in t.namasteCodes ==> e.code != req.namasteCode) ==>
              UploadEncounter(t, apiKey, req, now) == Err(NamasteCodeNotFound(req.namasteCode))
    ensures Authenticate(t.users, apiKey).Ok? && (exists e :: e in t.namasteCodes && e.code == req.namasteCode)
            && (forall e :: e in t.icd11Codes ==> e.code != req.icd11Code) ==>
              UploadEncounter(t, apiKey, req, now) == Err(Icd11CodeNotFound(req.icd11Code))
    ensures UploadEncounter(t, apiKey, req, now).Err? ==> AfterUpload(t, apiKey, req, now) == t
  {
  }

  /** An upload succeeds exactly when the key resolves and both codes exist;
      it then appends exactly one `upload` row owned by the key's user and
      changes nothing else. The reply echoes the patient and carries the two
      catalog rows (code and display) and the uploader's name. */
  lemma UploadAppendsOne(t: Tables, apiKey: Option<string>, req: EncounterRequest, now: int)
    ensures UploadEncounter(t, apiKey, req, now).Ok? <==>
              Authenticate(t.users, apiKey).Ok?
              && (exists e :: e in t.namasteCodes && e.code == req.namasteCode)
              && (exists e :: e in t.icd11Codes && e.code == req.icd11Code)
    ensures UploadEncounter(t, apiKey, req, now).Ok? ==>
              var user := Authenticate(t.users, apiKey).value;
              var rec := UserEncounter(user.userId, req.patientId, req.namasteCode, req.icd11Code, "upload", now);
              var after := AfterUpload(t, apiKey, req, now);
              && after.encounters == t.encounters + [rec]
              && after.(encounters := t.encounters) == t
              && UploadEncounter(t, apiKey, req, now).value.receipt.patientId == req.patientId
              && UploadEncounter(t, apiKey, req, now).value.receipt.namaste in t.namasteCodes
              && UploadEncounter(t, apiKey, req, now).value.receipt.namaste.code == req.namasteCode
              && UploadEncounter(t, apiKey, req, now).value.receipt.icd11 in t.icd11Codes
              && UploadEncounter(t, apiKey, req, now).value.receipt.icd11.code == req.icd11Code
              && UploadEncounter(t, apiKey, req, now).value.receipt.uploadedBy == user.name
  {
  }

  /** The listing holds exactly the caller's encounters, each as often as it
      was stored, latest first; an unusable key is refused. */
  lemma ListEncountersExactly(t: Tables, apiKey: Option<string>)
    ensures ListEncounters(t, apiKey).Err? <==> Authenticate(t.users, apiKey).Err?
    ensures ListEncounters(t, apiKey).Err? ==> ListEncounters(t, apiKey) == Err(Authenticate(t.users, apiKey).error)
    ensures ListEncounters(t, apiKey).Ok? ==>
              var user := Authenticate(t.users, apiKey).value;
              var listing := ListEncounters(t, apiKey).value;
              && listing.user == user.name
              && listing.total == |listing.encounters|
              && NonIncreasing(listing.encounters, Timestamp)
              && multiset(listing.encounters) == multiset(OwnedBy(t.encounters, user.userId))
              && forall e :: e in listing.encounters <==> e in t.encounters && e.userId == user.userId
  {
    if Authenticate(t.users, apiKey).Ok? {
      var user := Authenticate(t.users, apiKey).value;
      var owned := OwnedBy(t.encounters, user.userId);
      SortDescSorted(owned, Timestamp);
      SortDescPermutes(owned, Timestamp);
      forall e
        ensures e in SortDesc(owned, Timestamp) <==> e in t.encounters && e.userId == user.userId
      {
        OwnedByMembers(t.encounters, user.userId, e);
        assert e in SortDesc(owned, Timestamp) <==> e in multiset(SortDesc(owned, Timestamp));
        assert e in owned <==> e in multiset(owned);
      }
    }
  }

  lemma ListedMultiset(t: Tables, apiKey: Option<string>)
    requires Authenticate(t.users, apiKey).Ok?
    ensures ListEncounters(t, apiKey).Ok?
    ensures multiset(ListEncounters(t, apiKey).value.encounters)
         == multiset(OwnedBy(t.encounters, Authenticate(t.users, apiKey).value.userId))
  {
    SortDescPermutes(OwnedBy(t.encounters, Authenticate(t.users, apiKey).value.userId), Timestamp);
  }

  /** Upload then list: after a successful upload, the uploader's listing
      holds exactly one more encounter, the new one. */
  lemma UploadThenList(t: Tables, apiKey: Option<string>, req: EncounterRequest, now: int)
    requires UploadEncounter(t, apiKey, req, now).Ok?
    ensures ListEncounters(AfterUpload(t, apiKey, req, now), apiKey).Ok?
    ensures multiset(ListEncounters(AfterUpload(t, apiKey, req, now), apiKey).value.encounters)
         == multiset(ListEncounters(t, apiKey).value.encounters) + multiset{UploadEncounter(t, apiKey, req, now).value.record}
  {
    var after := AfterUpload(t, apiKey, req, now);
    var rec := UploadEncounter(t, apiKey, req, now).value.record;
    var user := Authenticate(t.users, apiKey).value;
    assert after.users == t.users && after.encounters == t.encounters + [rec];
    assert rec.userId == user.userId;
    OwnedByAppend(t.encounters, [rec], user.userId);
    ListedMultiset(t, apiKey);
    ListedMultiset(after, apiKey);
  }

  /** An upload leaves every other user's listing exactly as it was. */
  lemma UploadLeavesOthers(t: Tables, apiKey: Option<string>, req: EncounterRequest, now: int, other: Option<string>)
    ensures UploadEncounter(t, apiKey, req, now).Ok? && Authenticate(t.users, other).Ok?
            && Authenticate(t.users, other).value.userId != Authenticate(t.users, apiKey).value.userId
            ==> ListEncounters(AfterUpload(t, apiKey, req, now), other) == ListEncounters(t, other)
  {
    if UploadEncounter(t, apiKey, req, now).Ok? && Authenticate(t.users, other).Ok?
       && Authenticate(t.users, other).value.userId != Authenticate(t.users, apiKey).value.userId
    {
      var after := AfterUpload(t, apiKey, req, now);
      var rec := UploadEncounter(t, apiKey, req, now).value.record;
      var u2 := Authenticate(t.users, other).value;
      assert after.users == t.users && after.encounters == t.encounters + [rec];
      assert rec.userId == Authenticate(t.users, apiKey).value.userId;
      assert OwnedBy([rec], u2.userId) == [];
      OwnedByAppend(t.encounters, [rec], u2.userId);
      assert OwnedBy(after.encounters, u2.userId) == OwnedBy(t.encounters, u2.userId);
    }
  }
}
