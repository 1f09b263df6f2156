/** The rows of the five tables (database.py) and the request and response
    shapes of the API handlers (main.py), as plain values. */
module Records {

  datatype Option<+T> = None | Some(value: T)

  /** The typed errors the handlers raise as HTTP exceptions. */
  datatype Error =
    | ApiKeyRequired                      // 401 "API key required"
    | InvalidApiKey                       // 401 "Invalid API key"
    | NamasteCodeNotFound(code: string)   // 400
    | Icd11CodeNotFound(code: string)     // 400
    | NoTranslation(code: string, fromSystem: string, toSystem: string)  // 404

  datatype Result<+T> = Ok(value: T) | Err(error: Error)

  /** The HTTP status each error is reported with. */
  function StatusCode(e: Error): int {
    match e
    case ApiKeyRequired => 401
    case InvalidApiKey => 401
    case NamasteCodeNotFound(_) => 400
    case Icd11CodeNotFound(_) => 400
    case NoTranslation(_, _, _) => 404
  }

  /** A row of namaste_codes or of icd11_codes: both tables have these columns. */
  datatype CodeEntry = CodeEntry(code: string, display: string, system: string, category: string)

  /** A row of code_mappings; either end may name a code no catalog holds. */
  datatype CodeMapping = CodeMapping(namasteCode: string, icd11Code: string, mappingType: string)

  /** A row of users. `isActive` is stored but never consulted by the handlers. */
  datatype User = User(userId: string, name: string, apiKey: string, role: string, isActive: bool)

  /** A row of user_encounters; the timestamp is an abstract instant, larger is later. */
  datatype UserEncounter = UserEncounter(
    userId: string, patientId: string, namasteCode: string, icd11Code: string,
    actionType: string, timestamp: int)

  /** The whole database. */
  datatype Tables = Tables(
    namasteCodes: seq<CodeEntry>,
    icd11Codes: seq<CodeEntry>,
    codeMappings: seq<CodeMapping>,
    users: seq<User>,
    encounters: seq<UserEncounter>)

  datatype SearchResult = SearchResult(
    code: string, display: string, system: string, category: string, relevanceScore: int)

  datatype TranslationRequest = TranslationRequest(code: string, fromSystem: string, toSystem: string)

  datatype TranslationResult = TranslationResult(
    sourceCode: string, targetCode: string, targetDisplay: string, mappingType: string)

  datatype EncounterRequest = EncounterRequest(patientId: string, namasteCode: string, icd11Code: string)
}
