/** The roster filter (PatientFilters.kt): four optional constraints on a patient. */
module Filters {
  import opened Wrappers
  import opened Dates
  import opened Patients

  /** An empty name or an absent sexe or date leaves that field unconstrained. */
  datatype PatientFilters = PatientFilters(
    nom: string,
    prenom: string,
    sexe: Option<Sexe>,
    dateNaissance: Option<LocalDate>)

  /** `PatientFilters()`: every field at its default. */
  const DefaultFilters: PatientFilters := PatientFilters("", "", None, None)

  /** Some field constrains the listing; names count as soon as they are non-empty. */
  predicate HasActiveFilters(f: PatientFilters)
  {
    f.nom != "" || f.prenom != "" || f.sexe.Some? || f.dateNaissance.Some?
  }

  /** A filter is inactive exactly when it is the default-constructed one. */
  lemma InactiveIsDefault(f: PatientFilters)
    ensures !HasActiveFilters(f) <==> f == DefaultFilters
  {
  }

  /** Any one field set to a non-empty or present value activates the filter. */
  lemma AnySingleFieldActivates(nom: string, prenom: string, sexe: Sexe, date: LocalDate)
    ensures nom != "" ==> HasActiveFilters(DefaultFilters.(nom := nom))
    ensures prenom != "" ==> HasActiveFilters(DefaultFilters.(prenom := prenom))
    ensures HasActiveFilters(DefaultFilters.(sexe := Some(sexe)))
    ensures HasActiveFilters(DefaultFilters.(dateNaissance := Some(date)))
  {
  }

  /** Activity is decided by emptiness, not blankness: a single space is a constraint. */
  lemma BlankNameIsActive()
    ensures HasActiveFilters(DefaultFilters.(nom := " "))
    ensures HasActiveFilters(DefaultFilters.(prenom := " "))
  {
  }
}
