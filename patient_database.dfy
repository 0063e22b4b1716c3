/**
 * The storage side of PatientDatabase.kt: the Room type converters that write Sexe and
 * LocalDate as TEXT, and MIGRATION_1_2 as a transform of the stored rows.
 */
module Database {
  import opened Wrappers
  import opened Dates
  import opened Patients

  /** The exceptions the converters can throw, as values. */
  datatype ConversionError =
    | DateTimeParseError(text: string)   // LocalDate.parse rejects the text
    | NoEnumConstant(name: string)        // enumValueOf<Sexe> finds no constant of that name

  /** `sexeToString`: the enum constant's name. */
  function SexeToString(s: Sexe): string
  {
    match s
    case HOMME => "HOMME"
    case FEMME => "FEMME"
  }

  /** `fromSexe`: enumValueOf, which matches constant names exactly (case included). */
  function FromSexe(value: string): Result<Sexe, ConversionError>
  {
    if value == "HOMME" then Success(HOMME)
    else if value == "FEMME" then Success(FEMME)
    else Failure(NoEnumConstant(value))
  }

  /** `dateToTimestamp`: null stays null, a date becomes its ISO text. */
  function DateToTimestamp(date: Option<LocalDate>): Option<string>
  {
    match date
    case None => None
    case Some(d) => Some(ToIsoString(d))
  }

  /** `fromTimestamp`: null stays null, a text is parsed as an ISO date or the call fails. */
  function FromTimestamp(value: Option<string>): Result<Option<LocalDate>, ConversionError>
  {
    match value
    case None => Success(None)
    case Some(text) =>
      match ParseIsoDate(text)
      case None => Failure(DateTimeParseError(text))
      case Some(d) => Success(Some(d))
  }

  lemma SexeRoundTrip(s: Sexe)
    ensures FromSexe(SexeToString(s)) == Success(s)
  {
  }

  /** Exactly the two constant names decode; every other text fails. */
  lemma FromSexeAcceptsOnlyNames(value: string)
    ensures FromSexe(value).Success? <==> value == "HOMME" || value == "FEMME"
    ensures FromSexe(value).Success? ==> SexeToString(FromSexe(value).value) == value
  {
  }

  lemma NullDatesStayNull()
    ensures DateToTimestamp(None) == None
    ensures FromTimestamp(None) == Success(None)
  {
  }

  /** A stored date reads back as the same date, for four-digit years. */
  lemma DateRoundTrip(d: LocalDate)
    requires 0 <= d.year <= 9999
    ensures FromTimestamp(DateToTimestamp(Some(d))) == Success(Some(d))
  {
    ParseToIsoString(d);
  }

  /** A text that reads as a date is exactly the text the converter writes for it. */
  lemma TimestampRoundTrip(text: string)
    requires FromTimestamp(Some(text)).Success?
    ensures DateToTimestamp(FromTimestamp(Some(text)).value) == Some(text)
  {
    ToIsoStringOfParse(text);
  }

  // ---- MIGRATION_1_2 ----

  /** A row of schema version 1, before the phoneNumber column existed. */
  datatype PatientRowV1 = PatientRowV1(
    id: int,
    nom: string,
    prenom: string,
    sexe: Sexe,
    dateNaissance: LocalDate,
    profession: string,
    email: string)

  /** The default of the added column: `TEXT NOT NULL DEFAULT ''`. */
  const PhoneNumberDefault: string := ""

  /** Schema version 1's view of a version 2 row: every column but phoneNumber. */
  function DropPhoneNumber(p: Patient): PatientRowV1
  {
    PatientRowV1(p.id, p.nom, p.prenom, p.sexe, p.dateNaissance, p.profession, p.email)
  }

  function MigrateRow(r: PatientRowV1): Patient
  {
    Patient(r.id, r.nom, r.prenom, r.sexe, r.dateNaissance, r.profession, r.email, PhoneNumberDefault)
  }

  /**
   * `ALTER TABLE patients ADD COLUMN phoneNumber TEXT NOT NULL DEFAULT ''`: every row
   * stays, in place, with its old columns unchanged and an empty phone number.
   */
  function Migrate1To2(rows: seq<PatientRowV1>): (r: seq<Patient>)
    ensures |r| == |rows|
    ensures forall i :: 0 <= i < |r| ==> DropPhoneNumber(r[i]) == rows[i] && r[i].phoneNumber == ""
  {
    seq(|rows|, i requires 0 <= i < |rows| => MigrateRow(rows[i]))
  }

  /** A version 2 row with an empty phone number is what migrating its version 1 view gives. */
  lemma MigrateRowInverse(p: Patient)
    requires p.phoneNumber == PhoneNumberDefault
    ensures MigrateRow(DropPhoneNumber(p)) == p
  {
  }
}
