/** The patient record (Patient.kt): its stored fields, the two derived values and Sexe. */
module Patients {
  import opened Wrappers
  import opened Text
  import opened Dates

  /** The two sexes of the roster; Kotlin's enum class Sexe { HOMME, FEMME }. */
  datatype Sexe = HOMME | FEMME

  /** The id the record carries until the store assigns one (Kotlin's default `id = 0`). */
  const UnassignedId: int := 0

  /**
   * One row of the `patients` table. `phoneNumber` is free text, by convention
   * "<country code> <local digits>".
   */
  datatype Patient = Patient(
    id: int,
    nom: string,
    prenom: string,
    sexe: Sexe,
    dateNaissance: LocalDate,
    profession: string,
    email: string,
    phoneNumber: string)

  /** `nomComplet`: the given name, one space, the family name. */
  function NomComplet(p: Patient): string
  {
    p.prenom + " " + p.nom
  }

  /** `age`: Period.between(dateNaissance, today).years, with today passed in. */
  function Age(p: Patient, today: LocalDate): int
  {
    PeriodYears(p.dateNaissance, today)
  }

  lemma NomCompletShape(p: Patient)
    ensures var r := NomComplet(p);
      |r| == |p.prenom| + 1 + |p.nom| && r[..|p.prenom|] == p.prenom
      && r[|p.prenom|] == ' ' && r[|p.prenom| + 1..] == p.nom
  {
  }

  /** When the given name holds no space, the full name splits back at its first space. */
  lemma NomCompletSplits(p: Patient)
    requires ' ' !in p.prenom
    ensures SubstringAfter(NomComplet(p), ' ', "") == p.nom
    ensures IndexOf(NomComplet(p), ' ') == Some(|p.prenom|)
  {
    SubstringAfterSplit(p.prenom, ' ', p.nom, "");
    var r := NomComplet(p);
    assert r[..|p.prenom|] == p.prenom;
  }

  /** On or after the birth date, the age is the number of birthdays passed. */
  lemma AgeCountsBirthdays(p: Patient, today: LocalDate)
    requires !IsBefore(today, p.dateNaissance)
    ensures Age(p, today) ==
      today.year - p.dateNaissance.year - (if MonthDayBefore(today, p.dateNaissance) then 1 else 0)
  {
    PeriodYearsCountsWholeYears(p.dateNaissance, today);
  }

  /** On the n-th anniversary of the birth date the age is n. */
  lemma AgeOnAnniversary(p: Patient, today: LocalDate, n: nat)
    requires today.year == p.dateNaissance.year + n
    requires today.month == p.dateNaissance.month && today.day == p.dateNaissance.day
    ensures Age(p, today) == n
  {
    AgeCountsBirthdays(p, today);
  }

  /**
   * Earlier in the year of the n-th anniversary, up to the day before it, the age is
   * still n - 1.
   */
  lemma AgeBeforeAnniversary(p: Patient, today: LocalDate, n: nat)
    requires 1 <= n && today.year == p.dateNaissance.year + n
    requires MonthDayBefore(today, p.dateNaissance)
    ensures Age(p, today) == n - 1
  {
    AgeCountsBirthdays(p, today);
  }

  /** Before the birth date the age is zero or negative (Java truncates toward zero). */
  lemma AgeBeforeBirth(p: Patient, today: LocalDate)
    requires IsBefore(today, p.dateNaissance)
    ensures Age(p, today) <= 0
  {
    PeriodYearsBeforeStart(p.dateNaissance, today);
  }

  lemma SexeHasTwoValues(s: Sexe)
    ensures s == HOMME || s == FEMME
    ensures HOMME != FEMME
  {
  }
}
