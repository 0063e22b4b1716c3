/**
 * The controller of the roster screen (PatientViewModel.kt): the filtered listing it shows,
 * the dialogs it opens and closes, and the duplicate rules it applies before adding or
 * updating a patient.
 */
module ViewModel {
  import opened Wrappers
  import opened Text
  import opened Dates
  import opened Patients
  import opened Filters
  import opened Collation
  import opened Like
  import opened Database
  import opened Dao

  // ---- The listing ----

  /**
   * The in-memory filter: names by containment after Kotlin's lowercase(), sexe and date
   * by equality.
   */
  predicate Matches(p: Patient, f: PatientFilters)
  {
    && (f.nom == "" || Contains(KotlinLowercase(p.nom), KotlinLowercase(f.nom)))
    && (f.prenom == "" || Contains(KotlinLowercase(p.prenom), KotlinLowercase(f.prenom)))
    && (f.sexe.None? || p.sexe == f.sexe.value)
    && (f.dateNaissance.None? || p.dateNaissance == f.dateNaissance.value)
  }

  /** `patients.filter { ... }`: the matching patients, in their order. */
  function Select(patients: seq<Patient>, f: PatientFilters): (r: seq<Patient>)
    ensures forall x :: x in r ==> Matches(x, f)
    ensures forall x :: Matches(x, f) ==> multiset(r)[x] == multiset(patients)[x]
    ensures IsSubsequence(r, patients)
  {
    if patients == [] then []
    else
      assert patients == [patients[0]] + patients[1..];
      var rest := Select(patients[1..], f);
      if Matches(patients[0], f) then
        var r := [patients[0]] + rest;
        assert r[1..] == rest;
        r
      else
        assert rest != [] ==> rest[0] != patients[0];
        rest
  }

  /**
   * `filteredPatients`: the whole list when no filter is active, otherwise the patients
   * that match, in their order.
   */
  function FilteredPatients(patients: seq<Patient>, f: PatientFilters): (r: seq<Patient>)
    ensures !HasActiveFilters(f) ==> r == patients
    ensures IsSubsequence(r, patients)
    ensures forall x :: x in r ==> Matches(x, f)
    ensures forall x :: Matches(x, f) ==> multiset(r)[x] == multiset(patients)[x]
  {
    if !HasActiveFilters(f) then
      InactiveIsDefault(f);
      SubsequenceReflexive(patients);
      patients
    else Select(patients, f)
  }

  /** The shortcut for an inactive filter lists what filtering would list anyway. */
  lemma {:induction false} InactiveFilterSelectsAll(patients: seq<Patient>)
    ensures Select(patients, DefaultFilters) == patients
  {
    if patients != [] {
      InactiveFilterSelectsAll(patients[1..]);
      assert patients == [patients[0]] + patients[1..];
    }
  }

  /**
   * What the screen lists for a table and a filter: patients in name order, exactly the
   * stored rows that match, each as often as stored.
   */
  function Listing(rows: seq<Patient>, f: PatientFilters): (r: seq<Patient>)
    ensures SortedByName(r)
    ensures forall x :: x in r ==> x in rows && Matches(x, f)
    ensures forall x :: Matches(x, f) ==> multiset(r)[x] == multiset(rows)[x]
  {
    var all := GetAllPatients(rows);
    var r := FilteredPatients(all, f);
    SubsequenceOfSorted(r, all);
    SubsequenceElements(r, all);
    assert forall x :: x in all ==> x in multiset(rows);
    r
  }

  /**
   * For ASCII names and filter names without LIKE wildcards, the in-memory filter and the
   * store's search query keep the same rows, each as often as stored. Outside ASCII they
   * part: Kotlin's lowercase() folds accented capitals, SQLite's LIKE does not.
   */
  lemma FilterAgreesWithSearch(rows: seq<Patient>, f: PatientFilters)
    requires NoWildcards(f.nom) && NoWildcards(f.prenom)
    requires IsAscii(f.nom) && IsAscii(f.prenom)
    requires forall x :: x in rows ==> IsAscii(x.nom) && IsAscii(x.prenom)
    ensures multiset(Listing(rows, f)) == multiset(SearchPatients(rows, f.nom, f.prenom, f.sexe, f.dateNaissance))
  {
    var a := Listing(rows, f);
    var b := SearchPatients(rows, f.nom, f.prenom, f.sexe, f.dateNaissance);
    KotlinLowercaseAscii(f.nom);
    KotlinLowercaseAscii(f.prenom);
    forall x ensures multiset(a)[x] == multiset(b)[x] {
      if x in rows {
        KotlinLowercaseAscii(x.nom);
        KotlinLowercaseAscii(x.prenom);
        SearchMatchesMeaning(x, f.nom, f.prenom, f.sexe, f.dateNaissance);
        if !Matches(x, f) {
          assert x !in a;
          assert x !in b;
        }
      } else {
        assert x !in a;
        assert x !in b;
      }
    }
    assert multiset(a) == multiset(b);
  }

  // ---- The state shown on screen ----

  datatype PatientUiState = PatientUiState(
    patients: seq<Patient>,
    isLoading: bool,
    filters: PatientFilters,
    errorMessage: Option<string>,
    showDeleteConfirmation: bool,
    patientToDelete: Option<Patient>,
    showEditDialog: bool,
    patientToEdit: Option<Patient>)

  /** What the screen shows before the first query result arrives. */
  const InitialUiState := PatientUiState([], true, DefaultFilters, None, false, None, false, None)

  /** The controller's own state cells. */
  datatype ViewCells = ViewCells(
    filters: PatientFilters,
    showAddPatientDialog: bool,
    showFiltersDialog: bool,
    errorMessage: Option<string>,
    showDeleteConfirmation: bool,
    patientToDelete: Option<Patient>,
    showEditDialog: bool,
    patientToEdit: Option<Patient>)

  const InitialCells := ViewCells(DefaultFilters, false, false, None, false, None, false, None)

  /** Once a listing has arrived, the screen shows it with the dialog cells, no longer loading. */
  function UiStateOf(rows: seq<Patient>, c: ViewCells): (s: PatientUiState)
    ensures !s.isLoading && s.filters == c.filters && s.errorMessage == c.errorMessage
    ensures s.showDeleteConfirmation == c.showDeleteConfirmation && s.patientToDelete == c.patientToDelete
    ensures s.showEditDialog == c.showEditDialog && s.patientToEdit == c.patientToEdit
    ensures SortedByName(s.patients)
    ensures forall x :: x in s.patients ==> x in rows && Matches(x, c.filters)
    ensures forall x :: Matches(x, c.filters) ==> multiset(s.patients)[x] == multiset(rows)[x]
  {
    PatientUiState(Listing(rows, c.filters), false, c.filters, c.errorMessage,
                   c.showDeleteConfirmation, c.patientToDelete, c.showEditDialog, c.patientToEdit)
  }

  // ---- Records the controller builds ----

  /** The record `addPatient` inserts: no id yet, and no phone number. */
  function NewPatient(nom: string, prenom: string, sexe: Sexe, date: LocalDate, profession: string, email: string): Patient
  {
    Patient(UnassignedId, nom, prenom, sexe, date, profession, email, PhoneNumberDefault)
  }

  /** The record `onUpdatePatient` writes: the given id, and no phone number. */
  function UpdatedPatient(id: int, nom: string, prenom: string, sexe: Sexe, date: LocalDate, profession: string, email: string): Patient
  {
    Patient(id, nom, prenom, sexe, date, profession, email, PhoneNumberDefault)
  }

  const AddMessageHead := "Ce patient existe déjà dans la base de données.\nUn patient avec le même nom ("
  const AddMessageTail := ") est déjà enregistré."
  const UpdateMessageHead := "Un autre patient avec le même nom ("
  const UpdateMessageTail := ") existe déjà."
  const AfterNom := "), prénom ("
  const AfterPrenom := ") et date de naissance ("

  /** The message of a refused add; the date is written as LocalDate.toString writes it. */
  function DuplicateOnAddMessage(nom: string, prenom: string, date: LocalDate): string
  {
    AddMessageHead + nom + AfterNom + prenom + AfterPrenom + ToIsoString(date) + AddMessageTail
  }

  /** The message of a refused update. */
  function ConflictOnUpdateMessage(nom: string, prenom: string, date: LocalDate): string
  {
    UpdateMessageHead + nom + AfterNom + prenom + AfterPrenom + ToIsoString(date) + UpdateMessageTail
  }

  lemma ContainsEachHole(h: string, x: string, m1: string, y: string, m2: string, z: string, t: string)
    ensures var m := h + x + m1 + y + m2 + z + t;
      Contains(m, x) && Contains(m, y) && Contains(m, z)
  {
    var m := h + x + m1 + y + m2 + z + t;
    assert m == h + x + (m1 + y + m2 + z + t);
    ContainsMiddle(h, x, m1 + y + m2 + z + t);
    assert m == (h + x + m1) + y + (m2 + z + t);
    ContainsMiddle(h + x + m1, y, m2 + z + t);
    assert m == (h + x + m1 + y + m2) + z + t;
    ContainsMiddle(h + x + m1 + y + m2, z, t);
  }

  /** The duplicate message names the rejected nom, prenom and birth date (in ISO form). */
  lemma AddMessageNamesThePatient(nom: string, prenom: string, date: LocalDate)
    ensures var m := DuplicateOnAddMessage(nom, prenom, date);
      Contains(m, nom) && Contains(m, prenom) && Contains(m, ToIsoString(date))
  {
    ContainsEachHole(AddMessageHead, nom, AfterNom, prenom, AfterPrenom, ToIsoString(date), AddMessageTail);
  }

  /** The conflict message names the rejected nom, prenom and birth date (in ISO form). */
  lemma UpdateMessageNamesThePatient(nom: string, prenom: string, date: LocalDate)
    ensures var m := ConflictOnUpdateMessage(nom, prenom, date);
      Contains(m, nom) && Contains(m, prenom) && Contains(m, ToIsoString(date))
  {
    ContainsEachHole(UpdateMessageHead, nom, AfterNom, prenom, AfterPrenom, ToIsoString(date), UpdateMessageTail);
  }

  // ---- The duplicate rules ----

  /**
   * The guard of `onUpdatePatient`: no stored patient has the new identity, or the
   * record being edited currently has the same names, ignoring case, and the same date.
   */
  predicate UpdateAllowed(rows: seq<Patient>, id: int, nom: string, prenom: string, date: LocalDate)
  {
    || !PatientExists(rows, nom, prenom, date)
    || (match GetPatientById(rows, id)
        case None => false
        case Some(c) => EqualsIgnoreCase(c.nom, nom) && EqualsIgnoreCase(c.prenom, prenom) && c.dateNaissance == date)
  }

  /** Adding a patient only when none has its identity keeps the table free of duplicates. */
  lemma AddKeepsNoDuplicates(rows: seq<Patient>, p: Patient, id: int)
    requires NoDuplicates(rows)
    requires !PatientExists(rows, p.nom, p.prenom, p.dateNaissance)
    ensures NoDuplicates(InsertRow(rows, p, id))
  {
    var after := InsertRow(rows, p, id);
    var q := p.(id := id);
    forall i, j | 0 <= i < |after| && 0 <= j < |after| && i != j
      ensures !SameIdentity(after[i], after[j].nom, after[j].prenom, after[j].dateNaissance)
    {
      if i < |rows| && j < |rows| {
        assert after[i] == rows[i] && after[j] == rows[j];
      } else if i < |rows| {
        assert after[i] == rows[i] && after[j] == q;
        assert !SameIdentity(rows[i], p.nom, p.prenom, p.dateNaissance);
      } else {
        assert after[j] == rows[j] && after[i] == q;
        assert !SameIdentity(rows[j], p.nom, p.prenom, p.dateNaissance);
      }
    }
  }

  /** SameIdentity compares normalised values, so it is symmetric. */
  lemma SameIdentitySymmetric(a: Patient, b: Patient)
    ensures SameIdentity(a, b.nom, b.prenom, b.dateNaissance) <==> SameIdentity(b, a.nom, a.prenom, a.dateNaissance)
  {
  }

  /**
   * An update the guard allows keeps the table free of duplicates, when the new names and
   * the edited record's names are ASCII (AccentedCaseEditCreatesDuplicate shows why).
   */
  lemma UpdateKeepsNoDuplicates(rows: seq<Patient>, p: Patient)
    requires UniqueIds(rows) && NoDuplicates(rows)
    requires IsAscii(p.nom) && IsAscii(p.prenom)
    requires forall x :: x in rows && x.id == p.id ==> IsAscii(x.nom) && IsAscii(x.prenom)
    requires UpdateAllowed(rows, p.id, p.nom, p.prenom, p.dateNaissance)
    ensures NoDuplicates(UpdateRow(rows, p))
  {
    var after := UpdateRow(rows, p);
    var exists_ := PatientExists(rows, p.nom, p.prenom, p.dateNaissance);
    forall i, j | 0 <= i < |after| && 0 <= j < |after| && i != j
      ensures !SameIdentity(after[i], after[j].nom, after[j].prenom, after[j].dateNaissance)
    {
      if rows[i].id == p.id {
        UpdateAgainstOther(rows, p, i, j);
        SameIdentitySymmetric(after[i], after[j]);
      } else if rows[j].id == p.id {
        UpdateAgainstOther(rows, p, j, i);
      } else {
        assert after[i] == rows[i] && after[j] == rows[j];
      }
    }
  }

  /** The updated row `k` has no duplicate among the other rows. */
  lemma UpdateAgainstOther(rows: seq<Patient>, p: Patient, k: int, j: int)
    requires UniqueIds(rows) && NoDuplicates(rows)
    requires IsAscii(p.nom) && IsAscii(p.prenom)
    requires forall x :: x in rows && x.id == p.id ==> IsAscii(x.nom) && IsAscii(x.prenom)
    requires UpdateAllowed(rows, p.id, p.nom, p.prenom, p.dateNaissance)
    requires 0 <= k < |rows| && 0 <= j < |rows| && k != j && rows[k].id == p.id
    ensures !SameIdentity(UpdateRow(rows, p)[j], p.nom, p.prenom, p.dateNaissance)
  {
    var after := UpdateRow(rows, p);
    assert after[j] == rows[j];
    if PatientExists(rows, p.nom, p.prenom, p.dateNaissance) {
      GetPatientByIdFinds(rows, k);
      var c := rows[k];
      assert c in rows;
      EqualsIgnoreCaseAscii(c.nom, p.nom);
      EqualsIgnoreCaseAscii(c.prenom, p.prenom);
      assert !SameIdentity(rows[j], c.nom, c.prenom, c.dateNaissance);
    }
  }

  /**
   * Beyond ASCII the guard can let an edit create a duplicate. Records 1 "\U{00C9}cole Anne" and
   * 2 "\U{00E9}cole Anne", born the same day, are distinct for the store, whose LOWER() leaves
   * accented capitals alone; renaming record 1 to "\U{00E9}cole" passes the own-record
   * exception, whose Kotlin comparison pairs the two, and gives it record 2's identity.
   */
  lemma AccentedCaseEditCreatesDuplicate()
    ensures var d: LocalDate := Date(2000, 1, 1);
      var rows := [Patient(1, "\U{00C9}cole", "Anne", FEMME, d, "", "", ""),
                   Patient(2, "\U{00E9}cole", "Anne", FEMME, d, "", "", "")];
      var p := rows[0].(nom := "\U{00E9}cole");
      && UniqueIds(rows) && NoDuplicates(rows)
      && UpdateAllowed(rows, p.id, p.nom, p.prenom, p.dateNaissance)
      && !NoDuplicates(UpdateRow(rows, p))
  {
    var d: LocalDate := Date(2000, 1, 1);
    var rows := [Patient(1, "\U{00C9}cole", "Anne", FEMME, d, "", "", ""),
                 Patient(2, "\U{00E9}cole", "Anne", FEMME, d, "", "", "")];
    var p := rows[0].(nom := "\U{00E9}cole");
    AccentedCaseVariant();
    assert !SameIdentity(rows[0], rows[1].nom, rows[1].prenom, rows[1].dateNaissance);
    assert !SameIdentity(rows[1], rows[0].nom, rows[0].prenom, rows[0].dateNaissance);
    assert NoDuplicates(rows);
    assert GetPatientById(rows, 1) == Some(rows[0]);
    assert UpdateAllowed(rows, p.id, p.nom, p.prenom, p.dateNaissance);
    var after := UpdateRow(rows, p);
    assert after[0] == p && after[1] == rows[1];
    assert SameIdentity(after[0], after[1].nom, after[1].prenom, after[1].dateNaissance);
  }

  /** Re-submitting a record's own names, in any case, with its own date is allowed. */
  lemma CaseOnlyEditAllowed(rows: seq<Patient>, i: int, nom: string, prenom: string)
    requires UniqueIds(rows) && 0 <= i < |rows|
    requires EqualsIgnoreCase(rows[i].nom, nom) && EqualsIgnoreCase(rows[i].prenom, prenom)
    ensures UpdateAllowed(rows, rows[i].id, nom, prenom, rows[i].dateNaissance)
  {
    GetPatientByIdFinds(rows, i);
  }

  /**
   * An edit that gives a record the identity of another record is refused, unless the
   * record being edited already has those names and date.
   */
  lemma UpdateRejectsRealConflict(rows: seq<Patient>, i: int, j: int, nom: string, prenom: string, date: LocalDate)
    requires UniqueIds(rows) && 0 <= i < |rows| && 0 <= j < |rows| && i != j
    requires SameIdentity(rows[j], nom, prenom, date)
    requires !(EqualsIgnoreCase(rows[i].nom, nom) && EqualsIgnoreCase(rows[i].prenom, prenom) && rows[i].dateNaissance == date)
    ensures !UpdateAllowed(rows, rows[i].id, nom, prenom, date)
  {
    GetPatientByIdFinds(rows, i);
  }

  /**
   * Adding a trailing space to a record's nom is refused as a conflict with "another"
   * patient, although, in a table without duplicates, the only stored patient with that
   * identity is the record itself: the store's rule trims, the own-record exception does not.
   */
  lemma TrailingSpaceEditRejected(rows: seq<Patient>, i: int)
    requires UniqueIds(rows) && 0 <= i < |rows|
    ensures !UpdateAllowed(rows, rows[i].id, rows[i].nom + " ", rows[i].prenom, rows[i].dateNaissance)
    ensures NoDuplicates(rows) ==> forall j :: 0 <= j < |rows| && SameIdentity(rows[j], rows[i].nom + " ", rows[i].prenom, rows[i].dateNaissance) ==> j == i
  {
    var p := rows[i];
    LowerAppendSpace(p.nom);
    SqlTrimAppendSpace(Lower(p.nom));
    assert SameIdentity(p, p.nom + " ", p.prenom, p.dateNaissance);
    GetPatientByIdFinds(rows, i);
    assert |Lower(p.nom + " ")| != |Lower(p.nom)|;
  }

  /** After a successful update, the edited record has lost its phone number. */
  lemma UpdateClearsPhoneNumber(rows: seq<Patient>, id: int, nom: string, prenom: string, sexe: Sexe, date: LocalDate, profession: string, email: string)
    requires UniqueIds(rows) && HasId(rows, id)
    ensures var after := UpdateRow(rows, UpdatedPatient(id, nom, prenom, sexe, date, profession, email));
      GetPatientById(after, id).Some? && GetPatientById(after, id).value.phoneNumber == ""
  {
    UpdateRowEffect(rows, UpdatedPatient(id, nom, prenom, sexe, date, profession, email));
  }

  // ---- The controller ----

  class PatientViewModel {
    const dao: PatientDao
    var filters: PatientFilters
    var showAddPatientDialog: bool
    var showFiltersDialog: bool
    var errorMessage: Option<string>
    var showDeleteConfirmation: bool
    var patientToDelete: Option<Patient>
    var showEditDialog: bool
    var patientToEdit: Option<Patient>

    /** The table is consistent, and each confirmation dialog is open exactly when it has its patient. */
    ghost predicate Valid()
      reads this, dao
    {
      && dao.Valid()
      && (showDeleteConfirmation <==> patientToDelete.Some?)
      && (showEditDialog <==> patientToEdit.Some?)
    }

    function Cells(): ViewCells
      reads this
    {
      ViewCells(filters, showAddPatientDialog, showFiltersDialog, errorMessage,
                showDeleteConfirmation, patientToDelete, showEditDialog, patientToEdit)
    }

    /** `uiState` once the first listing has arrived. */
    function UiState(): PatientUiState
      reads this, dao
    {
      UiStateOf(dao.rows, Cells())
    }

    constructor (dao: PatientDao)
      requires dao.Valid()
      ensures Valid()
      ensures this.dao == dao && Cells() == InitialCells
    {
      this.dao := dao;
      filters := DefaultFilters;
      showAddPatientDialog := false;
      showFiltersDialog := false;
      errorMessage := None;
      showDeleteConfirmation := false;
      patientToDelete := None;
      showEditDialog := false;
      patientToEdit := None;
    }

    method UpdateFilters(newFilters: PatientFilters)
      requires Valid()
      modifies this
      ensures Valid()
      ensures Cells() == old(Cells()).(filters := newFilters)
    {
      filters := newFilters;
    }

    method ClearFilters()
      requires Valid()
      modifies this
      ensures Valid()
      ensures Cells() == old(Cells()).(filters := DefaultFilters)
      ensures UiState().patients == GetAllPatients(dao.rows)
    {
      filters := DefaultFilters;
    }

    method OnShowFiltersClick()
      requires Valid()
      modifies this
      ensures Valid()
      ensures Cells() == old(Cells()).(showFiltersDialog := true)
    {
      showFiltersDialog := true;
    }

    method OnFiltersDialogDismiss()
      requires Valid()
      modifies this
      ensures Valid()
      ensures Cells() == old(Cells()).(showFiltersDialog := false)
    {
      showFiltersDialog := false;
    }

    method OnAddPatientClick()
      requires Valid()
      modifies this
      ensures Valid()
      ensures Cells() == old(Cells()).(showAddPatientDialog := true, errorMessage := None)
    {
      showAddPatientDialog := true;
      errorMessage := None;
    }

    /** Also the dismiss action of the error dialog (MainActivity.kt:181). */
    method OnAddPatientDialogDismiss()
      requires Valid()
      modifies this
      ensures Valid()
      ensures Cells() == old(Cells()).(showAddPatientDialog := false, errorMessage := None)
    {
      showAddPatientDialog := false;
      errorMessage := None;
    }

    /**
     * `addPatient`: a patient with the same trimmed, case-folded names and birth date
     * already stored raises the duplicate message; otherwise the patient is stored under
     * a new id and the dialog closes.
     */
    method AddPatient(nom: string, prenom: string, sexe: Sexe, date: LocalDate, profession: string, email: string)
      requires Valid()
      modifies this, dao
      ensures Valid()
      ensures PatientExists(old(dao.rows), nom, prenom, date) ==>
        && dao.rows == old(dao.rows) && dao.lastId == old(dao.lastId)
        && Cells() == old(Cells()).(errorMessage := Some(DuplicateOnAddMessage(nom, prenom, date)))
      ensures !PatientExists(old(dao.rows), nom, prenom, date) ==>
        && dao.rows == InsertRow(old(dao.rows), NewPatient(nom, prenom, sexe, date, profession, email), old(dao.lastId) + 1)
        && dao.lastId == old(dao.lastId) + 1
        && Cells() == old(Cells()).(showAddPatientDialog := false, errorMessage := None)
    {
      var patient := NewPatient(nom, prenom, sexe, date, profession, email);
      var exists_ := PatientExists(dao.rows, nom, prenom, date);
      if !exists_ {
        var _ := dao.InsertPatient(patient);
        showAddPatientDialog := false;
        errorMessage := None;
      } else {
        errorMessage := Some(DuplicateOnAddMessage(nom, prenom, date));
      }
    }

    method OnDeletePatientClick(patient: Patient)
      requires Valid()
      modifies this
      ensures Valid()
      ensures Cells() == old(Cells()).(patientToDelete := Some(patient), showDeleteConfirmation := true)
    {
      patientToDelete := Some(patient);
      showDeleteConfirmation := true;
    }

    /** Deletes the patient awaiting confirmation, if any, and closes the confirmation. */
    method OnDeleteConfirmed()
      requires Valid()
      modifies this, dao
      ensures Valid()
      ensures old(patientToDelete).Some? ==> dao.rows == DeleteRow(old(dao.rows), old(patientToDelete).value.id)
      ensures old(patientToDelete).None? ==> dao.rows == old(dao.rows)
      ensures dao.lastId == old(dao.lastId)
      ensures Cells() == old(Cells()).(showDeleteConfirmation := false, patientToDelete := None)
    {
      if patientToDelete.Some? {
        dao.DeletePatient(patientToDelete.value);
      }
      showDeleteConfirmation := false;
      patientToDelete := None;
    }

    method OnDeleteCancelled()
      requires Valid()
      modifies this
      ensures Valid()
      ensures Cells() == old(Cells()).(showDeleteConfirmation := false, patientToDelete := None)
    {
      showDeleteConfirmation := false;
      patientToDelete := None;
    }

    method OnEditPatientClick(patient: Patient)
      requires Valid()
      modifies this
      ensures Valid()
      ensures Cells() == old(Cells()).(patientToEdit := Some(patient), showEditDialog := true, errorMessage := None)
    {
      patientToEdit := Some(patient);
      showEditDialog := true;
      errorMessage := None;
    }

    method OnEditDialogDismiss()
      requires Valid()
      modifies this
      ensures Valid()
      ensures Cells() == old(Cells()).(showEditDialog := false, patientToEdit := None, errorMessage := None)
    {
      showEditDialog := false;
      patientToEdit := None;
      errorMessage := None;
    }

    /**
     * `onUpdatePatient`: when the guard allows it, the record with that id is overwritten
     * (its phone number cleared) and the edit dialog closes; otherwise the conflict message
     * is raised and the table is left alone.
     */
    method OnUpdatePatient(id: int, nom: string, prenom: string, sexe: Sexe, date: LocalDate, profession: string, email: string)
      requires Valid()
      modifies this, dao
      ensures Valid()
      ensures dao.lastId == old(dao.lastId)
      ensures UpdateAllowed(old(dao.rows), id, nom, prenom, date) ==>
        && dao.rows == UpdateRow(old(dao.rows), UpdatedPatient(id, nom, prenom, sexe, date, profession, email))
        && Cells() == old(Cells()).(showEditDialog := false, patientToEdit := None, errorMessage := None)
      ensures !UpdateAllowed(old(dao.rows), id, nom, prenom, date) ==>
        && dao.rows == old(dao.rows)
        && Cells() == old(Cells()).(errorMessage := Some(ConflictOnUpdateMessage(nom, prenom, date)))
    {
      var updated := UpdatedPatient(id, nom, prenom, sexe, date, profession, email);
      if UpdateAllowed(dao.rows, id, nom, prenom, date) {
        dao.UpdatePatient(updated);
        showEditDialog := false;
        patientToEdit := None;
        errorMessage := None;
      } else {
        errorMessage := Some(ConflictOnUpdateMessage(nom, prenom, date));
      }
    }
  }
}
