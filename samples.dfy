/** The sample rows of sampledata.py, used only for concrete checks of the
    model against the behaviour the service documents. */
module Samples {
  import opened Records
  import opened Seeding

  function Namaste(code: string, display: string, category: string): CodeEntry {
    CodeEntry(code, display, "NAMASTE", category)
  }

  const SampleNamaste: seq<CodeEntry> := [
    Namaste("N001", "Jwara (Fever)", "Ayurveda"),
    Namaste("N002", "Kasa (Cough)", "Ayurveda"),
    Namaste("N003", "Atisara (Diarrhea)", "Ayurveda"),
    Namaste("N004", "Shiroroga (Headache)", "Ayurveda"),
    Namaste("N005", "Vatarakta (Arthritis)", "Ayurveda"),
    Namaste("N006", "Prameha (Diabetes)", "Ayurveda"),
    Namaste("N007", "Hridroga (Heart Disease)", "Ayurveda"),
    Namaste("N008", "Netr\U{0430}\U{0440}oga (Eye Disease)", "Ayurveda"),
    Namaste("N009", "Karnaroga (Ear Disease)", "Ayurveda"),
    Namaste("N010", "Nasaroga (Nasal Disease)", "Ayurveda"),
    Namaste("S001", "Suram (Fever)", "Siddha"),
    Namaste("S002", "Irumal (Cough)", "Siddha"),
    Namaste("S003", "Vayiru Kedu (Stomach Pain)", "Siddha"),
    Namaste("U001", "Humma (Fever)", "Unani"),
    Namaste("U002", "Sual (Cough)", "Unani"),
    Namaste("U003", "Ishal (Diarrhea)", "Unani")
  ]

  const SampleIcd11: seq<CodeEntry> := [
    CodeEntry("XM001", "Traditional Medicine Fever", "ICD-11-TM2", "Traditional Medicine"),
    CodeEntry("XM002", "Traditional Medicine Cough", "ICD-11-TM2", "Traditional Medicine"),
    CodeEntry("XM003", "Traditional Medicine Diarrhea", "ICD-11-TM2", "Traditional Medicine"),
    CodeEntry("XM004", "Traditional Medicine Headache", "ICD-11-TM2", "Traditional Medicine"),
    CodeEntry("XM005", "Traditional Medicine Arthritis", "ICD-11-TM2", "Traditional Medicine"),
    CodeEntry("CA80", "Cough", "ICD-11", "Respiratory"),
    CodeEntry("DA14", "Diarrhea", "ICD-11", "Digestive"),
    CodeEntry("8A80", "Headache", "ICD-11", "Neurological"),
    CodeEntry("BA00", "Heart failure", "ICD-11", "Cardiovascular"),
    CodeEntry("5A11", "Type 2 diabetes", "ICD-11", "Endocrine")
  ]

  const SampleMappings: seq<CodeMapping> := [
    CodeMapping("N001", "XM001", "verified"),
    CodeMapping("N002", "XM002", "verified"),
    CodeMapping("N003", "XM003", "verified"),
    CodeMapping("N004", "XM004", "verified"),
    CodeMapping("N005", "XM005", "verified"),
    CodeMapping("S001", "XM001", "verified"),
    CodeMapping("U001", "XM001", "verified"),
    CodeMapping("N002", "CA80", "manual"),
    CodeMapping("N003", "DA14", "manual")
  ]

  const SampleUsers: seq<User> := [
    User("doc001", "Dr. Priya Sharma", "sk_test_doc001_abc123", "doctor", true),
    User("admin001", "Admin User", "sk_test_admin001_xyz789", "admin", true)
  ]

  const SampleData: SeedData := SeedData(SampleNamaste, SampleIcd11, SampleMappings, SampleUsers)

  const Empty: Tables := Tables([], [], [], [], [])

  /** Seeding an empty database loads 16, 10, 9 and 2 rows; a second call
      is skipped. */
  lemma SampleSeeding()
    ensures SeedOutcome(Empty, SampleData) == Loaded(16, 10, 9, 2)
    ensures SeedOutcome(Seeded(Empty, SampleData), SampleData) == Skipped
  {
  }
}
