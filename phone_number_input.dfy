/**
 * The phone number field of the edit dialog (PhoneNumberInput.kt): a country dial code
 * picked from a fixed table, followed by a local number typed by the user. The field
 * reports the composed number "<code> <local>" to its owner.
 */
module PhoneInput {
  import opened Wrappers
  import opened Text

  datatype CountryCode = CountryCode(name: string, code: string, flag: string)

  /** The country table, in display order; the first entry is the initial selection. */
  const CountryCodes: seq<CountryCode> := [
    CountryCode("Cameroun", "+237", "🇨🇲"),
    CountryCode("France", "+33", "🇫🇷"),
    CountryCode("États-Unis", "+1", "🇺🇸"),
    CountryCode("Canada", "+1", "🇨🇦"),
    CountryCode("Royaume-Uni", "+44", "🇬🇧"),
    CountryCode("Allemagne", "+49", "🇩🇪"),
    CountryCode("Belgique", "+32", "🇧🇪"),
    CountryCode("Suisse", "+41", "🇨🇭"),
    CountryCode("Maroc", "+212", "🇲🇦"),
    CountryCode("Sénégal", "+221", "🇸🇳"),
    CountryCode("Côte d'Ivoire", "+225", "🇨🇮"),
    CountryCode("Mali", "+223", "🇲🇱"),
    CountryCode("Congo", "+242", "🇨🇬"),
    CountryCode("Gabon", "+241", "🇬🇦")
  ]

  /** A dial code: '+' followed by one to three ASCII digits. */
  predicate IsDialCode(code: string)
  {
    && 2 <= |code| <= 4
    && code[0] == '+'
    && forall i :: 1 <= i < |code| ==> IsAsciiDigit(code[i])
  }

  predicate WellFormedEntry(c: CountryCode)
  {
    IsDialCode(c.code) && ' ' !in c.code
  }

  lemma CountryCodesAreDialCodes()
    ensures |CountryCodes| == 14 && CountryCodes[0].code == "+237"
    ensures forall c :: c in CountryCodes ==> WellFormedEntry(c)
  {
    forall i | 0 <= i < |CountryCodes| ensures WellFormedEntry(CountryCodes[i]) {
      var code := CountryCodes[i].code;
      assert code in {"+237", "+33", "+1", "+44", "+49", "+32", "+41", "+212", "+221", "+225", "+223", "+242", "+241"};
    }
  }

  /** The text field accepts a new value only if it is made of digits and spaces. */
  predicate AcceptsLocalInput(s: string)
  {
    forall i :: 0 <= i < |s| ==> IsAsciiDigit(s[i]) || s[i] == ' '
  }

  /** The number reported to the owner: the dial code, one space, the local number. */
  function ComposePhoneNumber(code: string, local: string): (r: string)
    ensures |r| == |code| + 1 + |local|
    ensures r[..|code|] == code && r[|code|] == ' ' && r[|code| + 1..] == local
  {
    code + " " + local
  }

  /** The local number the field shows for a stored number: what follows its first space, or "". */
  function LocalPart(phoneNumber: string): string
  {
    SubstringAfter(phoneNumber, ' ', "")
  }

  /** Reopening the field on a number it composed shows the local number that was typed. */
  lemma LocalPartRoundTrip(c: CountryCode, local: string)
    requires c in CountryCodes
    ensures LocalPart(ComposePhoneNumber(c.code, local)) == local
  {
    CountryCodesAreDialCodes();
    SubstringAfterSplit(c.code, ' ', local, "");
  }

  /** A stored number with no space shows an empty local number. */
  lemma LocalPartWithoutSpace(phoneNumber: string)
    requires ' ' !in phoneNumber
    ensures LocalPart(phoneNumber) == ""
  {
  }

  /**
   * The state the field remembers: whether the country picker is open, the selected
   * country and the local number. The focus flag only colours the border and is not kept.
   */
  class PhoneNumberInput {
    var showCountryDialog: bool
    var selectedCountry: CountryCode
    var localPhoneNumber: string

    ghost predicate Valid()
      reads this
    {
      selectedCountry in CountryCodes
    }

    /**
     * The field as first shown for `phoneNumber`: the picker closed, the first country
     * of the table selected whatever the number's own code, and the number's local part.
     */
    constructor (phoneNumber: string)
      ensures Valid()
      ensures !showCountryDialog
      ensures selectedCountry == CountryCodes[0]
      ensures localPhoneNumber == LocalPart(phoneNumber)
    {
      showCountryDialog := false;
      selectedCountry := CountryCodes[0];
      localPhoneNumber := LocalPart(phoneNumber);
    }

    /**
     * The text field's change handler. An accepted value becomes the local number and the
     * composed number is reported; any other value is ignored and nothing is reported.
     */
    method OnLocalValueChange(newValue: string) returns (reported: Option<string>)
      requires Valid()
      modifies this
      ensures Valid()
      ensures showCountryDialog == old(showCountryDialog) && selectedCountry == old(selectedCountry)
      ensures AcceptsLocalInput(newValue) ==>
        localPhoneNumber == newValue && reported == Some(ComposePhoneNumber(selectedCountry.code, newValue))
      ensures !AcceptsLocalInput(newValue) ==>
        localPhoneNumber == old(localPhoneNumber) && reported == None
      ensures reported.Some? ==> LocalPart(reported.value) == localPhoneNumber
    {
      if AcceptsLocalInput(newValue) {
        localPhoneNumber := newValue;
        reported := Some(ComposePhoneNumber(selectedCountry.code, newValue));
        LocalPartRoundTrip(selectedCountry, newValue);
      } else {
        reported := None;
      }
    }

    /** A click on the dial code box opens the country picker. */
    method OpenCountryPicker()
      requires Valid()
      modifies this
      ensures Valid()
      ensures showCountryDialog
      ensures selectedCountry == old(selectedCountry) && localPhoneNumber == old(localPhoneNumber)
    {
      showCountryDialog := true;
    }

    /** Dismissing the picker closes it and changes nothing else. */
    method DismissCountryPicker()
      requires Valid()
      modifies this
      ensures Valid()
      ensures !showCountryDialog
      ensures selectedCountry == old(selectedCountry) && localPhoneNumber == old(localPhoneNumber)
    {
      showCountryDialog := false;
    }

    /**
     * A click on a row of the picker: that country becomes the selection, the number with
     * its code and the current local number is reported, and the picker closes.
     */
    method OnCountryClick(country: CountryCode) returns (reported: string)
      requires Valid() && country in CountryCodes
      modifies this
      ensures Valid()
      ensures selectedCountry == country && !showCountryDialog
      ensures localPhoneNumber == old(localPhoneNumber)
      ensures reported == ComposePhoneNumber(country.code, localPhoneNumber)
      ensures LocalPart(reported) == localPhoneNumber
    {
      selectedCountry := country;
      reported := ComposePhoneNumber(country.code, localPhoneNumber);
      LocalPartRoundTrip(country, localPhoneNumber);
      showCountryDialog := false;
    }
  }
}
