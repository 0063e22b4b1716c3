/**
 * The edit dialog of a patient (EditPatientDialog.kt): a form seeded from the patient,
 * per-field validation as the user types, and a confirm button that validates every field
 * again and, when all are valid, hands the edited values to its owner and closes.
 */
module EditDialog {
  import opened Text
  import opened Dates
  import opened Patients
  import opened PhoneInput

  /** The calls the dialog makes on its owner: `onConfirm` with its eight values, then `onDismiss`. */
  datatype Callback =
    | Confirm(id: int, nom: string, prenom: string, sexe: Sexe, dateNaissance: LocalDate,
              profession: string, email: string, phoneNumber: string)
    | Dismiss

  /** The values the form edits. */
  datatype Form = Form(nom: string, prenom: string, sexe: Sexe, dateNaissance: LocalDate,
                       profession: string, email: string, phoneNumber: string)

  datatype ErrorFlags = ErrorFlags(nomError: bool, prenomError: bool, emailError: bool,
                                   professionError: bool, phoneNumberError: bool)

  const NoErrorFlags := ErrorFlags(false, false, false, false, false)

  /** The form as first shown: the patient's own values. */
  function FormOf(p: Patient): Form
  {
    Form(p.nom, p.prenom, p.sexe, p.dateNaissance, p.profession, p.email, p.phoneNumber)
  }

  /**
   * The phone check: fewer than nine characters after the first space, or, with no space
   * at all, fewer than nine characters in the whole number.
   */
  predicate PhoneNumberTooShort(phoneNumber: string)
  {
    |SubstringAfter(phoneNumber, ' ', phoneNumber)| < 9
  }

  /** A number composed by the phone field is too short exactly when its local part is. */
  lemma ComposedNumberTooShort(c: CountryCode, local: string)
    requires c in CountryCodes
    ensures PhoneNumberTooShort(ComposePhoneNumber(c.code, local)) <==> |local| < 9
  {
    CountryCodesAreDialCodes();
    SubstringAfterSplit(c.code, ' ', local, ComposePhoneNumber(c.code, local));
  }

  /** A number without a space is judged on its whole length. */
  lemma SpacelessNumberTooShort(phoneNumber: string)
    requires ' ' !in phoneNumber
    ensures PhoneNumberTooShort(phoneNumber) <==> |phoneNumber| < 9
  {
  }

  /** The validation the confirm button applies; `emailMatches` is the platform's e-mail pattern. */
  function ErrorsOf(f: Form, emailMatches: string -> bool): ErrorFlags
  {
    ErrorFlags(IsBlank(f.nom), IsBlank(f.prenom), !emailMatches(f.email),
               IsBlank(f.profession), PhoneNumberTooShort(f.phoneNumber))
  }

  /** What a click on confirm makes the dialog call: both callbacks when every check passes, none otherwise. */
  function ConfirmCallbacks(id: int, f: Form, emailMatches: string -> bool): (r: seq<Callback>)
    ensures r == [] || r == [Confirm(id, f.nom, f.prenom, f.sexe, f.dateNaissance, f.profession, f.email, f.phoneNumber), Dismiss]
  {
    if ErrorsOf(f, emailMatches) == NoErrorFlags then
      [Confirm(id, f.nom, f.prenom, f.sexe, f.dateNaissance, f.profession, f.email, f.phoneNumber), Dismiss]
    else []
  }

  /** Confirm goes through exactly when every field passes its own check. */
  lemma ConfirmAcceptsIff(id: int, f: Form, emailMatches: string -> bool)
    ensures ConfirmCallbacks(id, f, emailMatches) != [] <==>
      && !IsBlank(f.nom) && !IsBlank(f.prenom) && emailMatches(f.email)
      && !IsBlank(f.profession) && !PhoneNumberTooShort(f.phoneNumber)
  {
  }

  /**
   * A patient whose phone number is empty, as every patient the list screen creates is,
   * cannot be confirmed until a phone number is entered.
   */
  lemma EmptyPhoneBlocksConfirm(p: Patient, emailMatches: string -> bool)
    requires p.phoneNumber == ""
    ensures ConfirmCallbacks(p.id, FormOf(p), emailMatches) == []
  {
    assert PhoneNumberTooShort(p.phoneNumber);
  }

  /** The confirmed values build the edited patient under the dialog patient's id. */
  lemma ConfirmCarriesPatient(p: Patient, f: Form, emailMatches: string -> bool)
    requires ConfirmCallbacks(p.id, f, emailMatches) != []
    ensures var c := ConfirmCallbacks(p.id, f, emailMatches)[0];
      c.Confirm? &&
      Patient(c.id, c.nom, c.prenom, c.sexe, c.dateNaissance, c.profession, c.email, c.phoneNumber)
        == p.(nom := f.nom, prenom := f.prenom, sexe := f.sexe, dateNaissance := f.dateNaissance,
              profession := f.profession, email := f.email, phoneNumber := f.phoneNumber)
  {
  }

  /** The dialog's remembered state: the edited values and the five error flags. */
  class EditPatientDialog {
    const patient: Patient
    const emailMatches: string -> bool
    var nom: string
    var prenom: string
    var sexe: Sexe
    var dateNaissance: LocalDate
    var profession: string
    var email: string
    var phoneNumber: string
    var nomError: bool
    var prenomError: bool
    var emailError: bool
    var professionError: bool
    var phoneNumberError: bool

    function Fields(): Form
      reads this
    {
      Form(nom, prenom, sexe, dateNaissance, profession, email, phoneNumber)
    }

    function Errors(): ErrorFlags
      reads this
    {
      ErrorFlags(nomError, prenomError, emailError, professionError, phoneNumberError)
    }

    /** The dialog as opened on `patient`: its values, and no error shown. */
    constructor (patient: Patient, emailMatches: string -> bool)
      ensures this.patient == patient && this.emailMatches == emailMatches
      ensures Fields() == FormOf(patient)
      ensures Errors() == NoErrorFlags
    {
      this.patient := patient;
      this.emailMatches := emailMatches;
      nom := patient.nom;
      prenom := patient.prenom;
      sexe := patient.sexe;
      dateNaissance := patient.dateNaissance;
      profession := patient.profession;
      email := patient.email;
      phoneNumber := patient.phoneNumber;
      nomError := false;
      prenomError := false;
      emailError := false;
      professionError := false;
      phoneNumberError := false;
    }

    /** Typing in the nom field: the value is kept and its flag follows the confirm rule. */
    method OnNomChange(value: string)
      modifies this
      ensures Fields() == old(Fields()).(nom := value)
      ensures Errors() == old(Errors()).(nomError := ErrorsOf(Fields(), emailMatches).nomError)
    {
      nom := value;
      nomError := IsBlank(value);
    }

    method OnPrenomChange(value: string)
      modifies this
      ensures Fields() == old(Fields()).(prenom := value)
      ensures Errors() == old(Errors()).(prenomError := ErrorsOf(Fields(), emailMatches).prenomError)
    {
      prenom := value;
      prenomError := IsBlank(value);
    }

    /** The two radio buttons; selecting the sexe has no check. */
    method OnSexeSelected(value: Sexe)
      modifies this
      ensures Fields() == old(Fields()).(sexe := value)
      ensures Errors() == old(Errors())
    {
      sexe := value;
    }

    /** The date picker's result; the platform picker only yields real dates. */
    method OnDateSet(value: LocalDate)
      modifies this
      ensures Fields() == old(Fields()).(dateNaissance := value)
      ensures Errors() == old(Errors())
    {
      dateNaissance := value;
    }

    method OnProfessionChange(value: string)
      modifies this
      ensures Fields() == old(Fields()).(profession := value)
      ensures Errors() == old(Errors()).(professionError := ErrorsOf(Fields(), emailMatches).professionError)
    {
      profession := value;
      professionError := IsBlank(value);
    }

    method OnEmailChange(value: string)
      modifies this
      ensures Fields() == old(Fields()).(email := value)
      ensures Errors() == old(Errors()).(emailError := ErrorsOf(Fields(), emailMatches).emailError)
    {
      email := value;
      emailError := !emailMatches(value);
    }

    /** A number reported by the phone field. */
    method OnPhoneNumberChange(value: string)
      modifies this
      ensures Fields() == old(Fields()).(phoneNumber := value)
      ensures Errors() == old(Errors()).(phoneNumberError := ErrorsOf(Fields(), emailMatches).phoneNumberError)
    {
      phoneNumber := value;
      phoneNumberError := PhoneNumberTooShort(value);
    }

    /**
     * The confirm button: every flag is recomputed from the current values, and when none
     * is raised the dialog calls `onConfirm` with the patient's id and the values, then
     * `onDismiss`.
     */
    method OnConfirmClick() returns (calls: seq<Callback>)
      modifies this
      ensures Fields() == old(Fields())
      ensures Errors() == ErrorsOf(Fields(), emailMatches)
      ensures calls == ConfirmCallbacks(patient.id, Fields(), emailMatches)
      ensures calls != [] <==> Errors() == NoErrorFlags
    {
      var e := ErrorsOf(Fields(), emailMatches);
      nomError := e.nomError;
      prenomError := e.prenomError;
      emailError := e.emailError;
      professionError := e.professionError;
      phoneNumberError := e.phoneNumberError;
      if e == NoErrorFlags {
        calls := [Confirm(patient.id, nom, prenom, sexe, dateNaissance, profession, email, phoneNumber), Dismiss];
      } else {
        calls := [];
      }
    }
  }
}
