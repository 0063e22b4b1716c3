# Patient roster of a physiotherapy practice — a Dafny model

The application keeps a roster of patients in a Room/SQLite table. Each patient has a
nom, prénom, sexe, birth date, profession, e-mail and phone number. One screen lists the
roster with optional filters and lets the user add, edit and delete patients. This project
models the logic behind that screen, and proves what that logic promises:

- **Patient record** (`Patients`). The record, `nomComplet`, `age` with today passed in,
  and the `Sexe` enum. `Dates` models the parts of `java.time.LocalDate` the record relies
  on. Those are valid dates, `Period.between(..).years`, `toString()` and the strict ISO
  parse. `Decimal` holds the digit arithmetic behind them.
- **Storage converters and migration** (`Database`). Sexe is stored as its name and dates
  as `YYYY-MM-DD` text, the full-date form of section 5.6 of RFC 3339. Migration 1→2 adds
  the `phoneNumber` column with the default `""`.
- **Table and its queries** (`Dao`). The table is the sequence of its rows. The SELECT
  queries are functions of it: `getAllPatients`, `searchPatients`, `getPatientById` and
  `patientExists`. `Collation` models `ORDER BY nom, prenom` (BINARY collation) and
  `Like` models SQLite's `LIKE` (ASCII case folding, `%` and `_`). The class
  `Dao.PatientDao` owns the table and performs insert, update and delete in place,
  including Room's id 0 and SQLite's AUTOINCREMENT counter.
- **Filter** (`Filters`, `ViewModel.FilteredPatients`). `hasActiveFilters`, and the
  in-memory filter that the list screen applies to the ordered listing.
- **Roster controller** (`ViewModel.PatientViewModel`). A class whose fields are the
  controller's state cells and the table. Each intent is one atomic method. Adding is
  guarded by the duplicate rule, and editing by that rule plus the own-record exception.
- **Edit dialog** (`EditDialog.EditPatientDialog`). The form state, the per-field
  validation and the confirm button's gating of the two callbacks.
- **Phone number field** (`PhoneInput.PhoneNumberInput`). The country table, the
  digit-and-space input filter, composition of `"<code> <local>"`, and extraction of the
  local part.

Decisions the source leaves open (prose paths are relative to
`app/src/main/java/com/example/myapplication/`):

- **Phone number of built patients.** The controller builds patients with no phone number
  (`ui/PatientViewModel.kt:139-146`, `200-208`), although the record has no default for
  it. The model gives them `""`, the migration default (`data/PatientDatabase.kt:15`).
  Consequences, both proved:
  - a successful edit clears the stored phone number (`ViewModel.UpdateClearsPhoneNumber`);
  - the edit dialog refuses to confirm a created patient until a phone number is entered
    (`EditDialog.EmptyPhoneBlocksConfirm`).
- **Confirm arguments.** The dialog's `onConfirm` carries eight values
  (`ui/components/EditPatientDialog.kt:38`), so `EditDialog.Callback.Confirm` has eight
  fields. The controller's `onUpdatePatient` takes seven, with no phone, and is modelled
  as written.
- **Dismissing the error dialog** calls `onAddPatientDialogDismiss`
  (`MainActivity.kt:181`).
- **Two case foldings.** SQLite's LOWER() and LIKE fold A-Z only (`Text.Lower`). Kotlin's
  `lowercase()` and `equals(ignoreCase = true)` follow the JVM's case mappings
  (`Text.KotlinLowercase`, `Text.EqualsIgnoreCase`). The two agree on ASCII text and
  differ on accented letters; the duplicate rules are stated with that in mind.
- **Email check.** The platform e-mail pattern is a parameter `emailMatches: string -> bool`
  of the dialog.
- **Today's date** is a parameter of `Age`.

## Model

| member | source | states |
|---|---|---|
| Patients.NomComplet | app/src/main/java/com/example/myapplication/data/Patient.kt:20-21 | definition of `nomComplet`; its meaning is stated by `Patients.NomCompletShape` and `Patients.NomCompletSplits` |
| Patients.NomCompletShape | app/src/main/java/com/example/myapplication/data/Patient.kt:20-21 | the full name is the prénom, one space, then the nom; its partner `Patients.NomCompletSplits` recovers the two names from it |
| Patients.NomCompletSplits | app/src/main/java/com/example/myapplication/data/Patient.kt:20-21 | when the prénom has no space, the first space of the full name sits right after the prénom and what follows it is the nom |
| Patients.Age | app/src/main/java/com/example/myapplication/data/Patient.kt:23-24 | definition of `age` with today as a parameter; its meaning is stated by `Patients.AgeCountsBirthdays`, `AgeOnAnniversary`, `AgeBeforeAnniversary` and `AgeBeforeBirth` |
| Patients.AgeCountsBirthdays | app/src/main/java/com/example/myapplication/data/Patient.kt:23-24 | on or after the birth date, the age is the difference of years, minus one if this year's birthday is still to come |
| Patients.AgeOnAnniversary | app/src/main/java/com/example/myapplication/data/Patient.kt:23-24 | on the N-th anniversary of the birth date the age is N |
| Patients.AgeBeforeAnniversary | app/src/main/java/com/example/myapplication/data/Patient.kt:23-24 | earlier in the year of the N-th anniversary the age is N−1 |
| Patients.AgeBeforeBirth | app/src/main/java/com/example/myapplication/data/Patient.kt:23-24 | before the birth date the age is not positive |
| Patients.SexeHasTwoValues | app/src/main/java/com/example/myapplication/data/Patient.kt:27-30 | Sexe has exactly the two distinct values HOMME and FEMME |
| Dates.PeriodYears | app/src/main/java/com/example/myapplication/data/Patient.kt:24 | definition of `Period.between(start, end).years`; its meaning is stated by `Dates.PeriodYearsCountsWholeYears` and `Dates.PeriodYearsBeforeStart` |
| Dates.PeriodYearsCountsWholeYears | app/src/main/java/com/example/myapplication/data/Patient.kt:24 | from a start date, `Period.between(start, end).years` counts the whole years elapsed |
| Dates.PeriodYearsBeforeStart | app/src/main/java/com/example/myapplication/data/Patient.kt:24 | for an end before the start, the years are not positive |
| Dates.ToIsoString | app/src/main/java/com/example/myapplication/data/PatientDatabase.kt:50-51 | definition of `LocalDate.toString()`; `Dates.ToIsoStringInjective` and `Dates.ParseToIsoString` state what it promises |
| Dates.ParseIsoDate | app/src/main/java/com/example/myapplication/data/PatientDatabase.kt:45-47 | definition of the strict `LocalDate.parse`; `Dates.ToIsoStringOfParse` and `Dates.ParseToIsoString` state that it inverts `Dates.ToIsoString` |
| Dates.ParseToIsoString | app/src/main/java/com/example/myapplication/data/PatientDatabase.kt:44-52 | a date with a four-digit year parses back from its ISO text |
| Dates.ToIsoStringOfParse | app/src/main/java/com/example/myapplication/data/PatientDatabase.kt:44-52 | a text the strict parser accepts is exactly the ISO text of the date it yields |
| Dates.ToIsoStringInjective | app/src/main/java/com/example/myapplication/data/PatientDao.kt:48 | two dates with the same stored text are the same date, for every year |
| Filters.HasActiveFilters | app/src/main/java/com/example/myapplication/ui/model/PatientFilters.kt:12-17 | definition of `hasActiveFilters`; its meaning is stated by `Filters.InactiveIsDefault`, `Filters.AnySingleFieldActivates` and `Filters.BlankNameIsActive` |
| Filters.InactiveIsDefault | app/src/main/java/com/example/myapplication/ui/model/PatientFilters.kt:6-17 | a filter is inactive exactly when it equals the default-constructed one |
| Filters.AnySingleFieldActivates | app/src/main/java/com/example/myapplication/ui/model/PatientFilters.kt:12-17 | setting any one field to a non-empty name or a present value activates the filter |
| Filters.BlankNameIsActive | app/src/main/java/com/example/myapplication/ui/model/PatientFilters.kt:13 | a name of one space is active: activity depends on emptiness, not blankness |
| Collation.NameLeTotal | app/src/main/java/com/example/myapplication/data/PatientDao.kt:13 | any two patients are comparable by (nom, prénom) in code-point order |
| Collation.NameLeTransitive | app/src/main/java/com/example/myapplication/data/PatientDao.kt:13 | the (nom, prénom) order is transitive |
| Collation.InsertByName | app/src/main/java/com/example/myapplication/data/PatientDao.kt:13 | inserting into a name-ordered listing keeps it ordered and adds exactly that patient |
| Collation.SortByName | app/src/main/java/com/example/myapplication/data/PatientDao.kt:13 | the result is in (nom, prénom) order and is a permutation of the input |
| Collation.SubsequenceOfSorted | app/src/main/java/com/example/myapplication/ui/PatientViewModel.kt:51-65 | keeping some entries of an ordered listing, in order, leaves it ordered |
| Like.LikeContains | app/src/main/java/com/example/myapplication/data/PatientDao.kt:18-19 | for a parameter without wildcards, `LIKE '%' \|\| p \|\| '%'` holds exactly when the value contains the parameter, ignoring ASCII case |
| Text.KotlinLowercase | app/src/main/java/com/example/myapplication/ui/PatientViewModel.kt:53-56 | `lowercase()` keeps the length and maps each character by the JVM's lower-case mapping |
| Text.KotlinLowercaseAscii | app/src/main/java/com/example/myapplication/ui/PatientViewModel.kt:53-56 | on ASCII text `lowercase()` agrees with SQLite's LOWER() |
| Text.EqualsIgnoreCaseAscii | app/src/main/java/com/example/myapplication/ui/PatientViewModel.kt:215-216 | on ASCII text, `equals(other, true)` holds exactly when SQLite's LOWER() makes the two equal |
| Text.AccentedCaseVariant | app/src/main/java/com/example/myapplication/ui/PatientViewModel.kt:215-216 | beyond ASCII the two rules part: `equals(other, true)` pairs "École" with "école", while TRIM(LOWER()) keeps them apart |
| Text.SqlTrimShape | app/src/main/java/com/example/myapplication/data/PatientDao.kt:46-47 | TRIM removes only leading and trailing spaces: the result is a slice of the input, with no space at either end |
| Database.SexeToString | app/src/main/java/com/example/myapplication/data/PatientDatabase.kt:59-62 | definition of `sexeToString`; its inverse is `Database.FromSexe`, by `Database.SexeRoundTrip` |
| Database.FromSexe | app/src/main/java/com/example/myapplication/data/PatientDatabase.kt:54-57 | definition of `fromSexe`, failing on an unknown name; its meaning is stated by `Database.FromSexeAcceptsOnlyNames` |
| Database.SexeRoundTrip | app/src/main/java/com/example/myapplication/data/PatientDatabase.kt:54-62 | reading back the stored name of a Sexe gives that Sexe |
| Database.FromSexeAcceptsOnlyNames | app/src/main/java/com/example/myapplication/data/PatientDatabase.kt:54-62 | `fromSexe` succeeds exactly on "HOMME" and "FEMME", and then returns the value with that name |
| Database.DateToTimestamp | app/src/main/java/com/example/myapplication/data/PatientDatabase.kt:49-52 | definition of `dateToTimestamp`; its inverse is `Database.FromTimestamp`, by `Database.DateRoundTrip` and `Database.TimestampRoundTrip` |
| Database.FromTimestamp | app/src/main/java/com/example/myapplication/data/PatientDatabase.kt:44-47 | definition of `fromTimestamp`, failing on text the parser refuses; its meaning is stated by `Database.TimestampRoundTrip` and `Database.NullDatesStayNull` |
| Database.NullDatesStayNull | app/src/main/java/com/example/myapplication/data/PatientDatabase.kt:44-52 | a null date maps to null in both directions |
| Database.DateRoundTrip | app/src/main/java/com/example/myapplication/data/PatientDatabase.kt:44-52 | a date with a four-digit year is stored as text and read back unchanged |
| Database.TimestampRoundTrip | app/src/main/java/com/example/myapplication/data/PatientDatabase.kt:44-52 | a stored text that reads back as a date is exactly what storing that date writes |
| Database.Migrate1To2 | app/src/main/java/com/example/myapplication/data/PatientDatabase.kt:13-17 | the migration keeps every row, in order, with its old columns unchanged, and gives each row an empty phone number |
| Database.MigrateRowInverse | app/src/main/java/com/example/myapplication/data/PatientDatabase.kt:13-17 | a row with an empty phone number is the migration of its version-1 row |
| Dao.GetAllPatients | app/src/main/java/com/example/myapplication/data/PatientDao.kt:13-14 | every row exactly as often as stored, in (nom, prénom) order |
| Dao.StoredSexeEqualsIff | app/src/main/java/com/example/myapplication/data/PatientDao.kt:20 | comparing stored sexe names is comparing the values |
| Dao.StoredDateEquals | app/src/main/java/com/example/myapplication/data/PatientDao.kt:21 | comparing stored date texts is comparing the dates |
| Dao.SearchMatches | app/src/main/java/com/example/myapplication/data/PatientDao.kt:18-21 | definition of the WHERE clause of `searchPatients`; its meaning is stated by `Dao.SearchMatchesMeaning` |
| Dao.SearchPatients | app/src/main/java/com/example/myapplication/data/PatientDao.kt:16-29 | the result is ordered, holds only stored rows that satisfy the WHERE clause, and holds every such row as often as stored |
| Dao.SearchMatchesMeaning | app/src/main/java/com/example/myapplication/data/PatientDao.kt:18-21 | an empty name or an absent sexe or date is no constraint; otherwise the name must be contained, ignoring ASCII case, and the sexe or date must be equal |
| Dao.SearchWithoutCriteriaListsAll | app/src/main/java/com/example/myapplication/data/PatientDao.kt:24-28 | with every parameter at its default, the search lists exactly what `getAllPatients` lists |
| Dao.GetPatientById | app/src/main/java/com/example/myapplication/data/PatientDao.kt:40-41 | the lookup finds a row exactly when some row has the id, and that row is stored with the id |
| Dao.GetPatientByIdFinds | app/src/main/java/com/example/myapplication/data/PatientDao.kt:40-41 | with unique ids, the lookup returns the one row carrying the id |
| Dao.SameIdentity | app/src/main/java/com/example/myapplication/data/PatientDao.kt:46-48 | definition of the WHERE clause of `patientExists`; `Dao.PatientExists` and `ViewModel.SameIdentitySymmetric` state what it means |
| Dao.PatientExists | app/src/main/java/com/example/myapplication/data/PatientDao.kt:43-51 | true exactly when some row has the same trimmed, lower-cased nom and prénom and the same date |
| Dao.DeleteRow | app/src/main/java/com/example/myapplication/data/PatientDao.kt:37-38 | the rows left are exactly the stored rows with another id |
| Dao.InsertRowEffect | app/src/main/java/com/example/myapplication/data/PatientDao.kt:31-32 | inserting under a fresh id keeps ids unique, the new row is found under its id and listed once, and every other id finds what it found before |
| Dao.UpdateRowEffect | app/src/main/java/com/example/myapplication/data/PatientDao.kt:34-35 | updating replaces the row with that id, if any, keeps ids unique, and changes no other id's row |
| Dao.DeleteRowEffect | app/src/main/java/com/example/myapplication/data/PatientDao.kt:37-38 | deleting removes the row with that id, if any, one row fewer exactly when it existed, and changes no other id's row |
| Dao.InsertKeepsValidTable | app/src/main/java/com/example/myapplication/data/Patient.kt:10-11 | storing under an unused non-zero id keeps the primary key, no id 0, and the counter at the largest id |
| Dao.PatientDao.constructor | app/src/main/java/com/example/myapplication/data/PatientDatabase.kt:19-22 | a new table is empty, with the counter at 0 |
| Dao.PatientDao.InsertPatient | app/src/main/java/com/example/myapplication/data/PatientDao.kt:31-32 | id 0 gets the next id after the largest ever issued; an explicit id is stored as given unless already used, which fails and changes nothing |
| Dao.PatientDao.UpdatePatient | app/src/main/java/com/example/myapplication/data/PatientDao.kt:34-35 | the table becomes the update of the old table by id, and the table stays valid |
| Dao.PatientDao.DeletePatient | app/src/main/java/com/example/myapplication/data/PatientDao.kt:37-38 | the table becomes the old table without the row of that id, and the table stays valid |
| PhoneInput.CountryCodesAreDialCodes | app/src/main/java/com/example/myapplication/ui/components/PhoneNumberInput.kt:31-46 | the table has 14 entries, the first with code +237, and every code is '+' then one to three digits, with no space |
| PhoneInput.AcceptsLocalInput | app/src/main/java/com/example/myapplication/ui/components/PhoneNumberInput.kt:115 | definition of the input filter (digits and spaces); `PhoneInput.PhoneNumberInput.OnLocalValueChange` states what it admits and rejects |
| PhoneInput.ComposePhoneNumber | app/src/main/java/com/example/myapplication/ui/components/PhoneNumberInput.kt:117 | the reported number is the code, one space, then the local number; its inverse is `PhoneInput.LocalPart`, and `PhoneInput.LocalPartRoundTrip` proves the round trip |
| PhoneInput.LocalPart | app/src/main/java/com/example/myapplication/ui/components/PhoneNumberInput.kt:58 | definition of `substringAfter(" ", "")`; `PhoneInput.LocalPartRoundTrip` and `PhoneInput.LocalPartWithoutSpace` state what it extracts |
| PhoneInput.LocalPartRoundTrip | app/src/main/java/com/example/myapplication/ui/components/PhoneNumberInput.kt:58 | extracting the local part of code + " " + local gives back local, for every code of the table |
| PhoneInput.LocalPartWithoutSpace | app/src/main/java/com/example/myapplication/ui/components/PhoneNumberInput.kt:58 | a number with no space shows an empty local part |
| PhoneInput.PhoneNumberInput.constructor | app/src/main/java/com/example/myapplication/ui/components/PhoneNumberInput.kt:56-58 | the field opens with the picker closed, the first country selected whatever the number's prefix, and the number's local part |
| PhoneInput.PhoneNumberInput.OnLocalValueChange | app/src/main/java/com/example/myapplication/ui/components/PhoneNumberInput.kt:114-118 | a value of digits and spaces becomes the local number and is reported with the selected code; any other value changes nothing and reports nothing |
| PhoneInput.PhoneNumberInput.OpenCountryPicker | app/src/main/java/com/example/myapplication/ui/components/PhoneNumberInput.kt:88 | opens the picker and changes nothing else |
| PhoneInput.PhoneNumberInput.DismissCountryPicker | app/src/main/java/com/example/myapplication/ui/components/PhoneNumberInput.kt:157 | closes the picker and changes nothing else |
| PhoneInput.PhoneNumberInput.OnCountryClick | app/src/main/java/com/example/myapplication/ui/components/PhoneNumberInput.kt:172-176 | selects the country, reports its code with the unchanged local number, and closes the picker |
| EditDialog.PhoneNumberTooShort | app/src/main/java/com/example/myapplication/ui/components/EditPatientDialog.kt:190 | definition of `substringAfter(" ").length < 9`; `EditDialog.ComposedNumberTooShort` and `EditDialog.SpacelessNumberTooShort` state what it measures |
| EditDialog.ComposedNumberTooShort | app/src/main/java/com/example/myapplication/ui/components/EditPatientDialog.kt:190 | a number composed by the phone field is too short exactly when its local part has fewer than 9 characters |
| EditDialog.SpacelessNumberTooShort | app/src/main/java/com/example/myapplication/ui/components/EditPatientDialog.kt:204 | a number with no space is measured whole |
| EditDialog.ErrorsOf | app/src/main/java/com/example/myapplication/ui/components/EditPatientDialog.kt:199-204 | definition of the five error flags confirm computes; `EditDialog.ConfirmAcceptsIff` states when none is raised, and each field handler is proved to use the same rule |
| EditDialog.ConfirmCallbacks | app/src/main/java/com/example/myapplication/ui/components/EditPatientDialog.kt:206-209 | confirm calls either nothing, or `onConfirm` with the id and the current values followed by `onDismiss` |
| EditDialog.ConfirmAcceptsIff | app/src/main/java/com/example/myapplication/ui/components/EditPatientDialog.kt:199-210 | the callbacks are called exactly when nom, prénom and profession are not blank, the e-mail matches, and the phone is not too short |
| EditDialog.EmptyPhoneBlocksConfirm | app/src/main/java/com/example/myapplication/ui/components/EditPatientDialog.kt:204 | a patient with an empty phone number cannot be confirmed unedited |
| EditDialog.ConfirmCarriesPatient | app/src/main/java/com/example/myapplication/ui/components/EditPatientDialog.kt:207 | the confirmed values are the edited patient under its original id |
| EditDialog.EditPatientDialog.constructor | app/src/main/java/com/example/myapplication/ui/components/EditPatientDialog.kt:40-52 | the form starts with the patient's values and no error flag raised |
| EditDialog.EditPatientDialog.OnNomChange | app/src/main/java/com/example/myapplication/ui/components/EditPatientDialog.kt:68-71 | keeps the value and sets its flag by the rule confirm uses; nothing else changes |
| EditDialog.EditPatientDialog.OnPrenomChange | app/src/main/java/com/example/myapplication/ui/components/EditPatientDialog.kt:88-91 | keeps the value and sets its flag by the rule confirm uses; nothing else changes |
| EditDialog.EditPatientDialog.OnSexeSelected | app/src/main/java/com/example/myapplication/ui/components/EditPatientDialog.kt:111-119 | sets the sexe; no flag changes |
| EditDialog.EditPatientDialog.OnDateSet | app/src/main/java/com/example/myapplication/ui/components/EditPatientDialog.kt:126-137 | sets the birth date; no flag changes |
| EditDialog.EditPatientDialog.OnProfessionChange | app/src/main/java/com/example/myapplication/ui/components/EditPatientDialog.kt:147-150 | keeps the value and sets its flag by the rule confirm uses; nothing else changes |
| EditDialog.EditPatientDialog.OnEmailChange | app/src/main/java/com/example/myapplication/ui/components/EditPatientDialog.kt:167-170 | keeps the value and sets its flag by the rule confirm uses; nothing else changes |
| EditDialog.EditPatientDialog.OnPhoneNumberChange | app/src/main/java/com/example/myapplication/ui/components/EditPatientDialog.kt:188-191 | keeps the reported number and sets its flag by the rule confirm uses; nothing else changes |
| EditDialog.EditPatientDialog.OnConfirmClick | app/src/main/java/com/example/myapplication/ui/components/EditPatientDialog.kt:199-210 | every flag becomes the confirm rule on the current values, and both callbacks are made exactly when no flag is raised |
| ViewModel.Matches | app/src/main/java/com/example/myapplication/ui/PatientViewModel.kt:52-64 | definition of the in-memory filter test, with Kotlin's `lowercase()`; `ViewModel.Select` and `ViewModel.FilterAgreesWithSearch` state what it keeps |
| ViewModel.Select | app/src/main/java/com/example/myapplication/ui/PatientViewModel.kt:51-65 | an order-preserving subsequence holding exactly the patients passing all four tests, each as often as listed |
| ViewModel.FilteredPatients | app/src/main/java/com/example/myapplication/ui/PatientViewModel.kt:44-67 | an inactive filter returns the listing unchanged; otherwise the result is an order-preserving subsequence of exactly the matching patients |
| ViewModel.InactiveFilterSelectsAll | app/src/main/java/com/example/myapplication/ui/PatientViewModel.kt:48-65 | filtering with the default filter would keep every patient, so the shortcut changes nothing |
| ViewModel.Listing | app/src/main/java/com/example/myapplication/ui/PatientViewModel.kt:44-67 | the screen's listing is in name order and holds exactly the stored rows that match, each as often as stored |
| ViewModel.FilterAgreesWithSearch | app/src/main/java/com/example/myapplication/ui/PatientViewModel.kt:51-65 | for ASCII names and filter names without wildcards, the in-memory filter and `searchPatients` keep the same rows |
| ViewModel.UiStateOf | app/src/main/java/com/example/myapplication/ui/PatientViewModel.kt:87-97 | the screen state shows the cells, is not loading, and lists in name order exactly the stored rows that match, each as often as stored |
| ViewModel.AddMessageNamesThePatient | app/src/main/java/com/example/myapplication/ui/PatientViewModel.kt:153 | the duplicate message contains the nom, the prénom and the ISO birth date |
| ViewModel.UpdateMessageNamesThePatient | app/src/main/java/com/example/myapplication/ui/PatientViewModel.kt:223 | the conflict message contains the nom, the prénom and the ISO birth date |
| ViewModel.AddKeepsNoDuplicates | app/src/main/java/com/example/myapplication/ui/PatientViewModel.kt:148-151 | adding only when no patient has the same identity keeps the table free of duplicates |
| ViewModel.SameIdentitySymmetric | app/src/main/java/com/example/myapplication/data/PatientDao.kt:46-48 | the duplicate rule is symmetric |
| ViewModel.UpdateAllowed | app/src/main/java/com/example/myapplication/ui/PatientViewModel.kt:211-217 | definition of the update guard; `ViewModel.UpdateKeepsNoDuplicates`, `CaseOnlyEditAllowed`, `UpdateRejectsRealConflict`, `TrailingSpaceEditRejected` and `AccentedCaseEditCreatesDuplicate` state what it allows |
| ViewModel.UpdateKeepsNoDuplicates | app/src/main/java/com/example/myapplication/ui/PatientViewModel.kt:211-218 | for ASCII new names and ASCII names of the edited record, an update the guard allows keeps a table without duplicates free of duplicates |
| ViewModel.AccentedCaseEditCreatesDuplicate | app/src/main/java/com/example/myapplication/ui/PatientViewModel.kt:211-217 | records "École Anne" and "école Anne" born the same day are not duplicates, yet the guard lets the first be renamed "école", which makes them duplicates |
| ViewModel.CaseOnlyEditAllowed | app/src/main/java/com/example/myapplication/ui/PatientViewModel.kt:215-217 | re-submitting a record's own names in any case, by Kotlin's ignore-case rule, with its date, is allowed |
| ViewModel.UpdateRejectsRealConflict | app/src/main/java/com/example/myapplication/ui/PatientViewModel.kt:211-224 | giving a record the identity of another record is refused unless the record already has those names, equal by Kotlin's ignore-case rule, and that date |
| ViewModel.TrailingSpaceEditRejected | app/src/main/java/com/example/myapplication/ui/PatientViewModel.kt:215-217 | adding a trailing space to a nom is refused even though, with no duplicates, the only matching record is the one edited |
| ViewModel.UpdateClearsPhoneNumber | app/src/main/java/com/example/myapplication/ui/PatientViewModel.kt:200-208 | after an update of a stored id, that record's phone number is empty |
| ViewModel.PatientViewModel.constructor | app/src/main/java/com/example/myapplication/ui/PatientViewModel.kt:31-38 | every cell starts at its initial value: default filter, closed dialogs, no error, no candidate |
| ViewModel.PatientViewModel.UpdateFilters | app/src/main/java/com/example/myapplication/ui/PatientViewModel.kt:104-106 | replaces the filter and nothing else |
| ViewModel.PatientViewModel.ClearFilters | app/src/main/java/com/example/myapplication/ui/PatientViewModel.kt:108-110 | resets the filter, after which the screen lists every stored row in name order |
| ViewModel.PatientViewModel.OnShowFiltersClick | app/src/main/java/com/example/myapplication/ui/PatientViewModel.kt:112-114 | opens the filters dialog and changes nothing else |
| ViewModel.PatientViewModel.OnFiltersDialogDismiss | app/src/main/java/com/example/myapplication/ui/PatientViewModel.kt:116-118 | closes the filters dialog and changes nothing else |
| ViewModel.PatientViewModel.OnAddPatientClick | app/src/main/java/com/example/myapplication/ui/PatientViewModel.kt:120-123 | opens the add dialog, clears the error, and changes nothing else, not the table |
| ViewModel.PatientViewModel.OnAddPatientDialogDismiss | app/src/main/java/com/example/myapplication/ui/PatientViewModel.kt:125-128 | closes the add dialog, clears the error, and changes nothing else, not the table |
| ViewModel.PatientViewModel.AddPatient | app/src/main/java/com/example/myapplication/ui/PatientViewModel.kt:130-156 | with no duplicate, inserts the new patient under the next id, closes the add dialog and clears the error; with one, leaves the table and dialog alone and sets the duplicate message |
| ViewModel.PatientViewModel.OnDeletePatientClick | app/src/main/java/com/example/myapplication/ui/PatientViewModel.kt:158-161 | holds the candidate and opens the confirmation; the table is untouched |
| ViewModel.PatientViewModel.OnDeleteConfirmed | app/src/main/java/com/example/myapplication/ui/PatientViewModel.kt:163-171 | deletes the held candidate's row, if there is a candidate, then clears both delete cells |
| ViewModel.PatientViewModel.OnDeleteCancelled | app/src/main/java/com/example/myapplication/ui/PatientViewModel.kt:173-176 | clears both delete cells; the table is untouched |
| ViewModel.PatientViewModel.OnEditPatientClick | app/src/main/java/com/example/myapplication/ui/PatientViewModel.kt:178-182 | holds the candidate, opens the edit dialog and clears the error; the table is untouched |
| ViewModel.PatientViewModel.OnEditDialogDismiss | app/src/main/java/com/example/myapplication/ui/PatientViewModel.kt:184-188 | closes the edit dialog, drops the candidate and clears the error; the table is untouched |
| ViewModel.PatientViewModel.OnUpdatePatient | app/src/main/java/com/example/myapplication/ui/PatientViewModel.kt:190-226 | when the guard allows it, overwrites the row with that id (phone cleared) and closes the edit cells; otherwise the table is unchanged and the conflict message is set |

## Left out

- Compose rendering and layout (MainActivity.kt, FiltersDialog.kt, SearchBar.kt, ErrorDialog.kt, PatientCard.kt, the theme): UI framework declarations with no logic of their own.
- The text field's focus flag and floating label in PhoneNumberInput.kt: they only affect rendering.
- PatientRepository.kt: a one-to-one delegation to the DAO, so the controller calls the table directly.
- Coroutines and flows (`viewModelScope.launch`, `combine`, `stateIn`): each intent is one atomic step. The race between the duplicate check and the insert is not modelled.
- The loading phase: `ViewModel.InitialUiState` is what the screen shows before the first listing arrives; the switch to the projected state is a flow emission and is not a step of the model.
- The `getDatabase` singleton with its locking: concurrency plumbing.
- Storage failures other than an insert under an id already in use: the controller has no error handling for them.
- Text.KotlinLowercase: the JVM's case mappings cover all of Unicode, and `lowercase()` can change a string's length (İ); the model maps Basic Latin and Latin-1 letters, and the capitals of ÿ and µ, and leaves other characters unchanged. `Text.EqualsIgnoreCase` uses the same mappings.
- ViewModel.UpdateKeepsNoDuplicates: holds only when the new names and the edited record's names are ASCII. With accented names the guard can create a duplicate: with records (1, "École", "Anne", d) and (2, "école", "Anne", d), renaming record 1 to "école" is allowed, as `ViewModel.AccentedCaseEditCreatesDuplicate` proves. Kotlin's ignore-case comparison pairs É with é, but SQLite's LOWER() does not.
- PhoneInput.AcceptsLocalInput: Kotlin's `isDigit()` accepts every Unicode decimal digit; the model accepts ASCII digits only.
- The platform e-mail pattern: a parameter of the dialog, not a definition.
- `LocalDate.now()`: today is a parameter of `Age`.
- The platform date picker: the dialog receives the picked date as a valid `LocalDate`.
- The dialog's dismiss button and `onDismissRequest`: they only forward to the owner, whose `OnEditDialogDismiss` is modelled.
- Dates.ParseIsoDate: only unsigned four-digit years are parsed. Signed and extended years, which `LocalDate.toString` writes outside 0000-9999, are left out.
- Dates.IsValid bounds years to ±999,999,999, as `java.time.LocalDate` does, but the day arithmetic near those bounds (overflow in `plusDays` and the like) is not used by the application and not modelled.
- Ids are unbounded integers: the 64-bit range of `Long` and AUTOINCREMENT's failure at the largest id are not modelled.
- The order of rows with equal (nom, prénom) in `ORDER BY`: SQLite leaves it unspecified, and the model fixes one order.
- The seven-argument lambda that MainActivity.kt:153 passes as `onConfirm`: the wiring between dialog and controller is part of MainActivity, not modelled.
