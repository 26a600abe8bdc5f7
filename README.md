# NutriTrack core in Dafny

A model of the logic under the screens of NutriTrack, an Android app for patients' nutrition scores. It covers four parts:

- **CSV import.** The patients file is read line by line. Each line is split on `,` and becomes a `User` with the HEIFA scores for its gender. The database is seeded from those users when the patients table is empty.
- **Local store.** There are three Room tables: patients, food intake responses and coach tips. They share foreign keys: each child row names a patient or null, with ON DELETE CASCADE.
- **Session rules.** These are the in-memory current user (`AuthManager`) and the persisted preferences (`StateManager`). They also cover the start-up routing on the welcome screen and the login, claim-account and clinician-key checks. The questionnaire's validation and its update-or-insert save are included too.
- **Request state machines.** These are the fruit lookup and the generative-AI text and pattern requests. They include the cleanup and fallback parsing of the AI's pattern response, and the rule for which generated text may be saved as a tip.

Each Kotlin file becomes one module:

- The records (`Patient`, `FoodIntake`, `NutriCoachTips`) are datatypes with the source's defaults.
- The DAOs are pure functions over a table's rows.
- `Store.Database` is a class holding the three tables and the id sequences. Each DAO method is a method on it, and its `Valid()` invariant is key uniqueness plus referential integrity.
- The screens' mutable state (`remember` variables) becomes a class per screen. Its click and input handlers become methods.
- The network, Gson decoding, the regex matcher and `toDoubleOrNull` are passed in as parameters. So are exceptions from outside calls, as the outcome of a call.

`KText` models the Kotlin string operations the sources use: `trim`, `isBlank`, `split`, `replace`, `toIntOrNull` and `Int.toString`.

Where the code and its comments disagree, the model follows the code. Where it matters, this is noted below:

- `validateEmptyInput` gates the Register button on id, phone and password. Its third parameter is named `username`, but the caller passes the password.
- `getPatientByID` is declared non-null, but returns null for an unknown id. `validateIDAndPhoneNumFromDB` then dereferences it without a check. The model makes that an error outcome.
- A gender field other than exactly "Male" or "Female" after trimming ends the whole import, rather than skipping the line. The `!!` on the missing scores throws, so "male", "M" or "f" end it too, although the score lookup accepts those spellings. The users read before that line are still returned, unless showing the error message throws.

## Model

| member | source | states |
|---|---|---|
| CsvParser.NormaliseGenderCases | NutriTrack/app/src/main/java/com/fit2081/nutritrack/data/utilities/CSVParser.kt:130-134 | "male"/"m" give Male and "female"/"f" give Female, ignoring ASCII case; every other value throws |
| CsvParser.ResolveColumns | NutriTrack/app/src/main/java/com/fit2081/nutritrack/data/utilities/CSVParser.kt:168-177 | each resolved column is a category's first matching header cell; every category whose `{Category}HEIFAscore{Gender}` column exists is resolved |
| CsvParser.FindScoreColumns | NutriTrack/app/src/main/java/com/fit2081/nutritrack/data/utilities/CSVParser.kt:168-177 | the header loop finds exactly the resolved columns of the twelve categories |
| CsvParser.ReadScores | NutriTrack/app/src/main/java/com/fit2081/nutritrack/data/utilities/CSVParser.kt:201-207 | the map holds the parsed cells of the resolved columns; it reports whether every column index was inside the row |
| CsvParser.RetrieveScores | NutriTrack/app/src/main/java/com/fit2081/nutritrack/data/utilities/CSVParser.kt:122-227 | the score lookup returns the scores the specification function gives, or the exception that escapes the catch |
| CsvParser.SpellingIrrelevant | NutriTrack/app/src/main/java/com/fit2081/nutritrack/data/utilities/CSVParser.kt:130-160 | every spelling the normalisation accepts reads exactly the scores of the canonical "Male"/"Female", from the same columns; the canonical spelling normalises to itself |
| CsvParser.ScoresAreParsedColumns | NutriTrack/app/src/main/java/com/fit2081/nutritrack/data/utilities/CSVParser.kt:195-207 | map keys are only the twelve categories, and each stored value is the parse of its column's cell (an unparsable cell is omitted, not stored as 0) |
| CsvParser.CompleteRowGivesAllCategories | NutriTrack/app/src/main/java/com/fit2081/nutritrack/data/utilities/CSVParser.kt:168-207 | a row with every column present and parsable gives a map with exactly the twelve categories |
| CsvParser.MissingTotalColumnGivesZero | NutriTrack/app/src/main/java/com/fit2081/nutritrack/data/utilities/CSVParser.kt:180-223 | a missing total column gives total 0.0 with an empty map, or escapes when the error toast throws |
| CsvParser.TotalIsParsedOrZero | NutriTrack/app/src/main/java/com/fit2081/nutritrack/data/utilities/CSVParser.kt:153-198 | the total is the parsed total cell, or 0.0 when it does not parse |
| CsvParser.UserOfLineFields | NutriTrack/app/src/main/java/com/fit2081/nutritrack/data/utilities/CSVParser.kt:63-92 | a line gives a user iff it has three fields with trimmed gender Male or Female and its scores do not throw; phone, id and gender are fields 0, 1 and 2 trimmed |
| CsvParser.ReadUser | NutriTrack/app/src/main/java/com/fit2081/nutritrack/data/utilities/CSVParser.kt:64-95 | reading one line gives the user the line specification gives |
| CsvParser.GetAllUserData | NutriTrack/app/src/main/java/com/fit2081/nutritrack/data/utilities/CSVParser.kt:42-107 | the import loop returns what the whole-file specification returns |
| CsvParser.CollectBounds | NutriTrack/app/src/main/java/com/fit2081/nutritrack/data/utilities/CSVParser.kt:61-104 | the users read are a prefix-extension of those before; a shorter result means an unreadable line ended the import |
| CsvParser.UsersFollowFileOrder | NutriTrack/app/src/main/java/com/fit2081/nutritrack/data/utilities/CSVParser.kt:61-104 | user k comes from data line k; if fewer users than lines, the first unreadable line stopped the import |
| ArchiveCsv.ValidatePhoneNumberInput | NutriTrack/app/src/main/java/com/fit2081/nutritrack/data/utilities/ArchiveCSV.kt:91-128 | true iff some data row (header skipped) has trimmed field 0 equal to the trimmed input |
| ArchiveCsv.GetUserIDs | NutriTrack/app/src/main/java/com/fit2081/nutritrack/data/utilities/ArchiveCSV.kt:142-178 | the trimmed field 1 of every data row, in file order, up to the first row too short (where the index error is caught) |
| ArchiveCsv.ValidateIDAndPhoneNum | NutriTrack/app/src/main/java/com/fit2081/nutritrack/data/utilities/ArchiveCSV.kt:195-232 | true iff one single row, before any row too short, matches both trimmed id and trimmed phone |
| ArchiveCsv.RetrieveUserGender | NutriTrack/app/src/main/java/com/fit2081/nutritrack/data/utilities/ArchiveCSV.kt:25-76 | the trimmed Sex cell of the last exactly-matching row before the first row that throws, or "" if none matches |
| Seeding.PatientOfSpec | NutriTrack/app/src/main/java/com/fit2081/nutritrack/data/NutriTrackDatabase.kt:136-153 | a user converts iff its id parses and all twelve keys exist; the patient copies id, phone, gender, total and each score, with the unclaimed-account defaults |
| Seeding.UpsertAllLastWins | NutriTrack/app/src/main/java/com/fit2081/nutritrack/data/NutriTrackDatabase.kt:157-162 | inserting in list order leaves unique keys, only listed patients, and every patient not overridden by a later one with its id |
| Seeding.SeedingAllOrNothing | NutriTrack/app/src/main/java/com/fit2081/nutritrack/data/NutriTrackDatabase.kt:129-167 | one unconvertible user or an escaped import inserts nothing; every seeded patient comes from a user and keeps the defaults |
| Seeding.LoadInitialData | NutriTrack/app/src/main/java/com/fit2081/nutritrack/data/NutriTrackDatabase.kt:117-169 | a non-empty table is left unchanged; an empty one receives exactly the seeded patients, other tables untouched |
| Seeding.InsertPatients | NutriTrack/app/src/main/java/com/fit2081/nutritrack/data/NutriTrackDatabase.kt:157-162 | the insert loop leaves the table equal to upserting the list in order |
| PatientTable.UpsertSpec | NutriTrack/app/src/main/java/com/fit2081/nutritrack/data/patient/PatientDao.kt:35-36 | after a REPLACE insert, keys stay unique, exactly one row has the id and it is the argument, and every other row is kept |
| PatientTable.Replace | NutriTrack/app/src/main/java/com/fit2081/nutritrack/data/patient/PatientDao.kt:44-45 | an update rewrites exactly the rows whose key matches, in place |
| PatientTable.UpdateIsUpsertOfExisting | NutriTrack/app/src/main/java/com/fit2081/nutritrack/data/patient/PatientDao.kt:44-45 | an update of an existing key equals the REPLACE insert; of a missing key, it changes nothing |
| PatientTable.WithAccount | NutriTrack/app/src/main/java/com/fit2081/nutritrack/data/patient/PatientDao.kt:55-57 | only username, password and isRegister change |
| PatientTable.UpdateDetails | NutriTrack/app/src/main/java/com/fit2081/nutritrack/data/patient/PatientDao.kt:55-57 | only the row with the given id gets the new account fields |
| PatientTable.UpdateDetailsSpec | NutriTrack/app/src/main/java/com/fit2081/nutritrack/data/patient/PatientDao.kt:55-57 | keys are unchanged; a null or unknown id is a no-op; the looked-up row afterwards is the old row with the new account fields |
| PatientTable.WithRegister | NutriTrack/app/src/main/java/com/fit2081/nutritrack/data/patient/PatientDao.kt:75-84 | exactly the rows with the given isRegister flag |
| PatientTable.RegisterPartition | NutriTrack/app/src/main/java/com/fit2081/nutritrack/data/patient/PatientDao.kt:75-84 | the unregistered and registered queries together are a permutation of the table |
| PatientTable.FirstTimeUsers | NutriTrack/app/src/main/java/com/fit2081/nutritrack/data/patient/PatientDao.kt:91-92 | exactly the rows with isFirstTimeUser |
| PatientTable.Lookup | NutriTrack/app/src/main/java/com/fit2081/nutritrack/data/patient/PatientDao.kt:100-101 | a row is found iff the id is non-null and present, and it has that id |
| PatientTable.LookupFindsRow | NutriTrack/app/src/main/java/com/fit2081/nutritrack/data/patient/PatientDao.kt:100-101 | with unique keys, looking up a row's id returns that row |
| PatientTable.PhoneNumbers | NutriTrack/app/src/main/java/com/fit2081/nutritrack/data/patient/PatientDao.kt:109-110 | one phone per row, in table order |
| PatientTable.PhoneListed | NutriTrack/app/src/main/java/com/fit2081/nutritrack/data/patient/PatientDao.kt:109-110 | a phone is listed iff some patient has it |
| FoodIntakeTable.Answered | NutriTrack/app/src/main/java/com/fit2081/nutritrack/data/foodIntake/FoodIntakeDao.kt:61-84 | the answer fields are replaced, id and owner kept |
| FoodIntakeTable.AnsweredOwn | NutriTrack/app/src/main/java/com/fit2081/nutritrack/data/foodIntake/FoodIntakeDao.kt:61-84 | writing a row's own answers back gives the same row |
| FoodIntakeTable.UpdateByUser | NutriTrack/app/src/main/java/com/fit2081/nutritrack/data/foodIntake/FoodIntakeDao.kt:61-84 | every row of the given user gets the answers; other rows are unchanged |
| FoodIntakeTable.UpdateByUserSpec | NutriTrack/app/src/main/java/com/fit2081/nutritrack/data/foodIntake/FoodIntakeDao.kt:61-84 | ids and owners are kept, the user's rows carry the answers, others are untouched, and with no matching row nothing changes (never an insert) |
| FoodIntakeTable.FirstOfUser | NutriTrack/app/src/main/java/com/fit2081/nutritrack/data/foodIntake/FoodIntakeDao.kt:98-99 | null iff no row has the user id (or it is null); otherwise a row of that user |
| FoodIntakeTable.ReplaceById | NutriTrack/app/src/main/java/com/fit2081/nutritrack/data/foodIntake/FoodIntakeDao.kt:41-42 | the row with the same foodIntakeID is replaced in place |
| FoodIntakeTable.ReplaceByIdSpec | NutriTrack/app/src/main/java/com/fit2081/nutritrack/data/foodIntake/FoodIntakeDao.kt:41-42 | ids stay unique and unchanged; the argument is present iff its id was; an unknown id changes nothing |
| FoodIntakeTable.DeleteById | NutriTrack/app/src/main/java/com/fit2081/nutritrack/data/foodIntake/FoodIntakeDao.kt:102-103 | exactly the rows with a different id remain |
| FoodIntakeTable.DeleteByIdCount | NutriTrack/app/src/main/java/com/fit2081/nutritrack/data/foodIntake/FoodIntakeDao.kt:102-103 | one row fewer iff the id was present |
| FoodIntakeTable.InsertKeepsIdsUnique | NutriTrack/app/src/main/java/com/fit2081/nutritrack/data/foodIntake/FoodIntakeDao.kt:32-33 | an insert with a fresh generated id keeps ids unique |
| FoodIntakeTable.Disown | NutriTrack/app/src/main/java/com/fit2081/nutritrack/data/foodIntake/FoodIntake.kt:23-35 | the cascade on a patient's deletion removes exactly that patient's responses |
| FoodIntakeTable.Unowned | NutriTrack/app/src/main/java/com/fit2081/nutritrack/data/foodIntake/FoodIntake.kt:23-35 | after deleting all patients, exactly the responses with a null owner remain |
| TipsTable.ByUser | NutriTrack/app/src/main/java/com/fit2081/nutritrack/data/NutriCoachTips/NutriCoachTipsDao.kt:31-32 | exactly the tips whose userID equals the non-null argument |
| TipsTable.ByUserAfterInsert | NutriTrack/app/src/main/java/com/fit2081/nutritrack/data/NutriCoachTips/NutriCoachTipsDao.kt:22-32 | an insert appends to its own user's tips and leaves every other user's tips unchanged |
| TipsTable.InsertKeepsIdsUnique | NutriTrack/app/src/main/java/com/fit2081/nutritrack/data/NutriCoachTips/NutriCoachTipsDao.kt:22-23 | an insert with a fresh generated id keeps ids unique |
| TipsTable.Disown | NutriTrack/app/src/main/java/com/fit2081/nutritrack/data/NutriCoachTips/NutriCoachTips.kt:12-27 | the cascade on a patient's deletion removes exactly that patient's tips |
| TipsTable.Unowned | NutriTrack/app/src/main/java/com/fit2081/nutritrack/data/NutriCoachTips/NutriCoachTips.kt:12-27 | after deleting all patients, exactly the tips with a null owner remain |
| Sql.WherePartition | NutriTrack/app/src/main/java/com/fit2081/nutritrack/data/patient/PatientDao.kt:75-84 | complementary filters split a table into a permutation of it |
| Sql.RowId | NutriTrack/app/src/main/java/com/fit2081/nutritrack/data/foodIntake/FoodIntake.kt:46-47 | id 0 is replaced by a generated id above the sequence; any other id is kept |
| Store.Database.constructor | NutriTrack/app/src/main/java/com/fit2081/nutritrack/data/NutriTrackDatabase.kt:28 | a new database has empty tables and sequences |
| Store.Database.InsertPatient | NutriTrack/app/src/main/java/com/fit2081/nutritrack/data/patient/PatientDao.kt:35-36 | REPLACE insert of the patient, cascading to the replaced row's responses and tips; integrity kept |
| Store.Database.UpdatePatient | NutriTrack/app/src/main/java/com/fit2081/nutritrack/data/patient/PatientDao.kt:44-45 | the row with the key is rewritten; other tables unchanged |
| Store.Database.UpdatePatientDetails | NutriTrack/app/src/main/java/com/fit2081/nutritrack/data/patient/PatientDao.kt:55-57 | only that patient's account fields change |
| Store.Database.DeleteAllPatients | NutriTrack/app/src/main/java/com/fit2081/nutritrack/data/patient/PatientDao.kt:133-134 | the patients table is empty (count 0) and every owned response and tip is cascaded away |
| Store.Database.InsertFoodIntake | NutriTrack/app/src/main/java/com/fit2081/nutritrack/data/foodIntake/FoodIntakeDao.kt:32-33 | succeeds iff the owner exists or is null and the id is free; then appends the row with a fresh id, so two inserts for one user give two rows |
| Store.Database.UpdateFoodIntake | NutriTrack/app/src/main/java/com/fit2081/nutritrack/data/foodIntake/FoodIntakeDao.kt:41-42 | the row with that id is replaced unless the new owner would break the foreign key |
| Store.Database.UpdateFoodById | NutriTrack/app/src/main/java/com/fit2081/nutritrack/data/foodIntake/FoodIntakeDao.kt:61-84 | the user's responses take the answers; nothing else changes |
| Store.Database.DeleteFoodIntake | NutriTrack/app/src/main/java/com/fit2081/nutritrack/data/foodIntake/FoodIntakeDao.kt:102-103 | removes the row with that id only |
| Store.Database.InsertTip | NutriTrack/app/src/main/java/com/fit2081/nutritrack/data/NutriCoachTips/NutriCoachTipsDao.kt:22-23 | succeeds iff the owner exists or is null and the id is 0 or unused; with id 0 (the default the coach screen passes) it appends the tip with a fresh id, so inserting one tip twice gives two rows |
| Store.Database.DeleteAllTips | NutriTrack/app/src/main/java/com/fit2081/nutritrack/data/NutriCoachTips/NutriCoachTipsDao.kt:35-36 | the tips table is empty; other tables unchanged |
| SessionState.EmptyDefaults | NutriTrack/app/src/main/java/com/fit2081/nutritrack/data/utilities/StateManager.kt:39-41 | on an empty store: not logged in, no user id, questionnaire not done |
| SessionState.AfterLogin | NutriTrack/app/src/main/java/com/fit2081/nutritrack/data/utilities/StateManager.kt:56-61 | the three keys keep their types after login |
| SessionState.LoginSessionSpec | NutriTrack/app/src/main/java/com/fit2081/nutritrack/data/utilities/StateManager.kt:56-61 | after login: logged in, user id set, questionnaire flag unchanged |
| SessionState.AfterLogout | NutriTrack/app/src/main/java/com/fit2081/nutritrack/data/utilities/StateManager.kt:67-79 | the store is well-typed after logout |
| SessionState.LogoutSpec | NutriTrack/app/src/main/java/com/fit2081/nutritrack/data/utilities/StateManager.kt:67-79 | after logout every getter gives its default, and logout is idempotent |
| SessionState.AfterCompleted | NutriTrack/app/src/main/java/com/fit2081/nutritrack/data/utilities/StateManager.kt:95-99 | the three keys keep their types |
| SessionState.CompletedSpec | NutriTrack/app/src/main/java/com/fit2081/nutritrack/data/utilities/StateManager.kt:95-99 | only the questionnaire flag changes, to true |
| SessionState.StateManager.constructor | NutriTrack/app/src/main/java/com/fit2081/nutritrack/data/utilities/StateManager.kt:25-31 | authState is captured once from the stored login flag (a constant thereafter) |
| SessionState.StateManager.LoginUserSession | NutriTrack/app/src/main/java/com/fit2081/nutritrack/data/utilities/StateManager.kt:56-61 | the store becomes the login state |
| SessionState.StateManager.Logout | NutriTrack/app/src/main/java/com/fit2081/nutritrack/data/utilities/StateManager.kt:67-79 | the store becomes the logout state |
| SessionState.StateManager.CompletedQuestionnaire | NutriTrack/app/src/main/java/com/fit2081/nutritrack/data/utilities/StateManager.kt:95-99 | the store becomes the completed state |
| Authentication.AuthManager.constructor | NutriTrack/app/src/main/java/com/fit2081/nutritrack/data/utilities/AuthManager.kt:22 | the current user starts as null |
| Authentication.AuthManager.Login | NutriTrack/app/src/main/java/com/fit2081/nutritrack/data/utilities/AuthManager.kt:32-35 | the slot holds the given id, overwriting any previous one |
| Authentication.AuthManager.Logout | NutriTrack/app/src/main/java/com/fit2081/nutritrack/data/utilities/AuthManager.kt:42-44 | the slot is null |
| WelcomeScreen.LoginClick | NutriTrack/app/src/main/java/com/fit2081/nutritrack/WelcomeScreen.kt:164-183 | logged in: the in-memory id becomes the stored id, then Home or Questionnaire by the questionnaire flag; not logged in: Login, slot untouched |
| ClinicianLoginScreen.KeyEmptyFlag | NutriTrack/app/src/main/java/com/fit2081/nutritrack/ClinicianLoginScreen.kt:169 | the error flag is true iff the key is blank |
| ClinicianLoginScreen.KeyNotFlagged | NutriTrack/app/src/main/java/com/fit2081/nutritrack/ClinicianLoginScreen.kt:59 | a single witness: the valid key itself is not flagged empty |
| ClinicianLoginScreen.ClinicianLoginForm.constructor | NutriTrack/app/src/main/java/com/fit2081/nutritrack/ClinicianLoginScreen.kt:144-149 | empty key, no flags, no message |
| ClinicianLoginScreen.ClinicianLoginForm.EnterKey | NutriTrack/app/src/main/java/com/fit2081/nutritrack/ClinicianLoginScreen.kt:166-170 | the key is stored and its blankness flagged |
| ClinicianLoginScreen.ClinicianLoginForm.LoginClick | NutriTrack/app/src/main/java/com/fit2081/nutritrack/ClinicianLoginScreen.kt:195-206 | access iff the key equals the constant exactly; otherwise the invalid-key message and no navigation |
| LoginScreen.IsAuthorized | NutriTrack/app/src/main/java/com/fit2081/nutritrack/LoginScreen.kt:268-298 | authorised only if the id parses and a patient with it has exactly the password |
| LoginScreen.IsAuthorizedSpec | NutriTrack/app/src/main/java/com/fit2081/nutritrack/LoginScreen.kt:268-298 | with unique keys, authorised iff the patient with the parsed id has the entered password |
| LoginScreen.IsFirstTimeUser | NutriTrack/app/src/main/java/com/fit2081/nutritrack/LoginScreen.kt:311-339 | false for an unparsable or unknown id |
| LoginScreen.IsFirstTimeUserSpec | NutriTrack/app/src/main/java/com/fit2081/nutritrack/LoginScreen.kt:311-339 | for a known patient, the stored flag |
| LoginScreen.ChosenIdParses | NutriTrack/app/src/main/java/com/fit2081/nutritrack/LoginScreen.kt:432 | a chosen id text parses back to the patient's id |
| LoginScreen.ChoiceAuthorizes | NutriTrack/app/src/main/java/com/fit2081/nutritrack/LoginScreen.kt:365-366 | only registered patients are offered, and choosing one authorises iff its password is entered |
| LoginScreen.LoginForm.constructor | NutriTrack/app/src/main/java/com/fit2081/nutritrack/LoginScreen.kt:96-108 | an empty form |
| LoginScreen.LoginForm.SelectUser | NutriTrack/app/src/main/java/com/fit2081/nutritrack/LoginScreen.kt:430-435 | the selected id text is the patient's id |
| LoginScreen.LoginForm.EnterPassword | NutriTrack/app/src/main/java/com/fit2081/nutritrack/LoginScreen.kt:136-141 | the password is stored with its emptiness flag |
| LoginScreen.LoginForm.ContinueClick | NutriTrack/app/src/main/java/com/fit2081/nutritrack/LoginScreen.kt:179-205 | on success both session stores get the same id, then Questionnaire; on failure neither changes and the mismatch message is shown |
| LoginScreen.LoginForm.RegisterClick | NutriTrack/app/src/main/java/com/fit2081/nutritrack/LoginScreen.kt:218-230 | Register iff the account is not first-time; otherwise the already-claimed message |
| RegisterScreen.ValidateIDAndPhoneNumFromDB | NutriTrack/app/src/main/java/com/fit2081/nutritrack/RegisterScreen.kt:476-497 | defined iff the id names a patient (else the dereference throws); true only on an exact, untrimmed phone match |
| RegisterScreen.ValidateIDAndPhoneSpec | NutriTrack/app/src/main/java/com/fit2081/nutritrack/RegisterScreen.kt:476-497 | for a known patient, true iff its stored phone equals the input |
| RegisterScreen.ValidatePhoneNumInputFromDB | NutriTrack/app/src/main/java/com/fit2081/nutritrack/RegisterScreen.kt:509-521 | true iff some patient has the phone |
| RegisterScreen.ValidatePasswordMatched | NutriTrack/app/src/main/java/com/fit2081/nutritrack/RegisterScreen.kt:533-548 | true iff both non-empty and equal |
| RegisterScreen.AnyHasUsername | NutriTrack/app/src/main/java/com/fit2081/nutritrack/RegisterScreen.kt:587-589 | true iff some listed patient has the username |
| RegisterScreen.ValidateUsernameExist | NutriTrack/app/src/main/java/com/fit2081/nutritrack/RegisterScreen.kt:577-590 | true iff an unregistered patient has the username |
| RegisterScreen.ChoiceNeverThrows | NutriTrack/app/src/main/java/com/fit2081/nutritrack/RegisterScreen.kt:370-371 | only unregistered patients are offered, and checking a chosen one never throws |
| RegisterScreen.RegisterForm.constructor | NutriTrack/app/src/main/java/com/fit2081/nutritrack/RegisterScreen.kt:105-116 | an empty form with no errors |
| RegisterScreen.RegisterForm.SelectUser | NutriTrack/app/src/main/java/com/fit2081/nutritrack/RegisterScreen.kt:435-440 | the selected id text is the patient's id; inputs, error flags, result and message are unchanged |
| RegisterScreen.RegisterForm.EnterPhone | NutriTrack/app/src/main/java/com/fit2081/nutritrack/RegisterScreen.kt:141-145 | the phone is stored and flagged iff no patient has it; every other input and flag is unchanged |
| RegisterScreen.RegisterForm.EnterUsername | NutriTrack/app/src/main/java/com/fit2081/nutritrack/RegisterScreen.kt:168-171 | the username is stored and flagged iff empty or taken by an unregistered patient; every other input and flag is unchanged |
| RegisterScreen.RegisterForm.EnterPassword | NutriTrack/app/src/main/java/com/fit2081/nutritrack/RegisterScreen.kt:196-199 | the password is stored with its emptiness flag; the mismatch flag is not recomputed and stays as the last confirmation left it |
| RegisterScreen.RegisterForm.EnterConfirmPassword | NutriTrack/app/src/main/java/com/fit2081/nutritrack/RegisterScreen.kt:224-228 | the confirmation is stored with its emptiness and mismatch flags; the other flags are unchanged |
| RegisterScreen.RegisterForm.ClearInputs | NutriTrack/app/src/main/java/com/fit2081/nutritrack/RegisterScreen.kt:295-299 | the four text inputs are cleared; no error flag is reset |
| RegisterScreen.RegisterForm.RegisterClick | NutriTrack/app/src/main/java/com/fit2081/nutritrack/RegisterScreen.kt:277-307 | a match claims the account (username, password, isRegister) and clears the inputs; a mismatch shows the failure message and writes nothing; an unknown id throws; no path changes the error flags |
| RegisterScreen.RegistrationClaims | NutriTrack/app/src/main/java/com/fit2081/nutritrack/RegisterScreen.kt:280-292 | after a successful check, the patient's row holds the new account and every other row is unchanged |
| QuestionnaireScreen.LoadThenSaveAnswers | NutriTrack/app/src/main/java/com/fit2081/nutritrack/FoodIntakeQuestionnaireScreen.kt:243-253 | loading a response into the form and saving it gives back the same answers |
| QuestionnaireScreen.CheckboxRoundTrip | NutriTrack/app/src/main/java/com/fit2081/nutritrack/FoodIntakeQuestionnaireScreen.kt:580-595 | checkbox i is saved to the i-th food flag and read back to checkbox i |
| QuestionnaireScreen.NewIntake | NutriTrack/app/src/main/java/com/fit2081/nutritrack/FoodIntakeQuestionnaireScreen.kt:580-595 | a new response carries the form's answers, id 0 and the current user |
| QuestionnaireScreen.ValidateInput | NutriTrack/app/src/main/java/com/fit2081/nutritrack/FoodIntakeQuestionnaireScreen.kt:699-721 | true iff persona and all three times are non-empty and some food is ticked |
| QuestionnaireScreen.SaveIgnoresCollisions | NutriTrack/app/src/main/java/com/fit2081/nutritrack/FoodIntakeQuestionnaireScreen.kt:574 | a single witness: a valid form whose three times are equal (all flagged as colliding) still enables Save |
| QuestionnaireScreen.FormatTimeRoundTrip | NutriTrack/app/src/main/java/com/fit2081/nutritrack/FoodIntakeQuestionnaireScreen.kt:1071-1073 | "hour:minute" without padding parses back to the hour and minute |
| QuestionnaireScreen.FormatTimeInjective | NutriTrack/app/src/main/java/com/fit2081/nutritrack/FoodIntakeQuestionnaireScreen.kt:1071-1073 | two picked times give the same text iff they are equal |
| QuestionnaireScreen.CurrentUserID | NutriTrack/app/src/main/java/com/fit2081/nutritrack/FoodIntakeQuestionnaireScreen.kt:221 | a null id stays null; otherwise it parses to the id, or `toInt` throws |
| QuestionnaireScreen.SaveThenLoad | NutriTrack/app/src/main/java/com/fit2081/nutritrack/FoodIntakeQuestionnaireScreen.kt:598-627 | after updating or inserting, loading the user's response gives the saved answers |
| QuestionnaireScreen.QuestionnaireForm.constructor | NutriTrack/app/src/main/java/com/fit2081/nutritrack/FoodIntakeQuestionnaireScreen.kt:200-213 | nine unticked boxes, empty texts, no errors |
| QuestionnaireScreen.QuestionnaireForm.Check | NutriTrack/app/src/main/java/com/fit2081/nutritrack/FoodIntakeQuestionnaireScreen.kt:335 | only that checkbox changes |
| QuestionnaireScreen.QuestionnaireForm.PickTime | NutriTrack/app/src/main/java/com/fit2081/nutritrack/FoodIntakeQuestionnaireScreen.kt:1071-1073 | only the picked field gets the formatted time |
| QuestionnaireScreen.QuestionnaireForm.CheckTimes | NutriTrack/app/src/main/java/com/fit2081/nutritrack/FoodIntakeQuestionnaireScreen.kt:267-289 | a time is flagged iff it is non-empty and equals another |
| QuestionnaireScreen.QuestionnaireForm.Load | NutriTrack/app/src/main/java/com/fit2081/nutritrack/FoodIntakeQuestionnaireScreen.kt:230-260 | the user's stored response fills the form; none leaves it as it was |
| QuestionnaireScreen.QuestionnaireForm.SaveClick | NutriTrack/app/src/main/java/com/fit2081/nutritrack/FoodIntakeQuestionnaireScreen.kt:572-632 | marks the questionnaire complete, then updates the user's rows if any exist, else inserts one new response with the next id and advances the id sequence (rejected if the owner is missing) |
| Fruity.FruityViewModel.constructor | NutriTrack/app/src/main/java/com/fit2081/nutritrack/data/fruity/viewModel/FruityViewModel.kt:43-56 | no fruit, not loading, no error |
| Fruity.FruityViewModel.StartFetch | NutriTrack/app/src/main/java/com/fit2081/nutritrack/data/fruity/viewModel/FruityViewModel.kt:69-70 | loading with the error cleared |
| Fruity.FruityViewModel.FinishFetch | NutriTrack/app/src/main/java/com/fit2081/nutritrack/data/fruity/viewModel/FruityViewModel.kt:72-89 | not loading; the fruit on success; null with "Fruit not found" or the exception message otherwise |
| Fruity.FruityViewModel.GetFruityData | NutriTrack/app/src/main/java/com/fit2081/nutritrack/data/fruity/viewModel/FruityViewModel.kt:65-91 | the state after a fetch is the transition function's |
| Fruity.FruityViewModel.ClearFruityData | NutriTrack/app/src/main/java/com/fit2081/nutritrack/data/fruity/viewModel/FruityViewModel.kt:98-102 | the initial state again, showing nothing |
| Fruity.AfterFetch | NutriTrack/app/src/main/java/com/fit2081/nutritrack/data/fruity/viewModel/FruityViewModel.kt:65-91 | loading ends whatever the outcome; a fruit is kept iff one was found, with the error empty |
| Fruity.PanelOf | NutriTrack/app/src/main/java/com/fit2081/nutritrack/NutriCoachScreen.kt:392-450 | spinner iff loading, else details iff a fruit, else not-found iff an error, else nothing |
| Fruity.PanelAfterFetch | NutriTrack/app/src/main/java/com/fit2081/nutritrack/NutriCoachScreen.kt:392-450 | after a fetch the panel shows details iff found; the not-found text for a null or a message; nothing only for an empty message |
| NutriCoach.FruitSectionOf | NutriTrack/app/src/main/java/com/fit2081/nutritrack/NutriCoachScreen.kt:198-213 | the picture iff the fruit score is exactly 10.0; otherwise the lookup panel |
| NutriCoach.SearchClick | NutriTrack/app/src/main/java/com/fit2081/nutritrack/NutriCoachScreen.kt:359-364 | a blank name does nothing; otherwise the fetch transition |
| NutriCoach.CoachCard.constructor | NutriTrack/app/src/main/java/com/fit2081/nutritrack/NutriCoachScreen.kt:703-710 | the placeholder is shown and nothing is kept for saving |
| NutriCoach.CoachCard.Render | NutriTrack/app/src/main/java/com/fit2081/nutritrack/NutriCoachScreen.kt:786-807 | an error shows its message and drops the saved text; a success shows its text and keeps it iff not blank and not the placeholder |
| NutriCoach.CoachCard.ShowAllTips | NutriTrack/app/src/main/java/com/fit2081/nutritrack/NutriCoachScreen.kt:833-858 | a kept text is appended as the user's tip (iff the user exists); the dialog always opens |
| GenAI.CleanSpec | NutriTrack/app/src/main/java/com/fit2081/nutritrack/data/genAIData/GenAIViewModel.kt:148-151 | the cleaned text has no code fence left and no whitespace at either end |
| GenAI.NonBlank | NutriTrack/app/src/main/java/com/fit2081/nutritrack/data/genAIData/GenAIViewModel.kt:194 | the non-blank parts only; empty iff every part is blank; the first is the first non-blank part |
| GenAI.LongLines | NutriTrack/app/src/main/java/com/fit2081/nutritrack/data/genAIData/GenAIViewModel.kt:269 | exactly the lines longer than 10 characters are kept, the first such line first |
| GenAI.Take | NutriTrack/app/src/main/java/com/fit2081/nutritrack/data/genAIData/GenAIViewModel.kt:270 | at most n lines, starting with the first |
| GenAI.FirstInsightSpec | NutriTrack/app/src/main/java/com/fit2081/nutritrack/data/genAIData/GenAIViewModel.kt:265-276 | the description is the trim of the first line whose trim is longer than 10 characters, and the default text when no line's is; either way it is trimmed |
| GenAI.PatternAtSpec | NutriTrack/app/src/main/java/com/fit2081/nutritrack/data/genAIData/GenAIViewModel.kt:253-280 | a match gives an entry iff text follows it, the `substring` bounds hold and its trimmed title is non-empty, and throws iff text follows and the bounds fail; the entry is that title with the description of the text up to the next match |
| GenAI.CollectSpec | NutriTrack/app/src/main/java/com/fit2081/nutritrack/data/genAIData/GenAIViewModel.kt:253-283 | throws iff some outcome throws; otherwise every entry given is kept, once each, in the order given |
| GenAI.NumberedSpec | NutriTrack/app/src/main/java/com/fit2081/nutritrack/data/genAIData/GenAIViewModel.kt:246-284 | throws iff some match throws; otherwise the entries of exactly the matches that give one, in match order, each well formed |
| GenAI.ParseNumberedPatterns | NutriTrack/app/src/main/java/com/fit2081/nutritrack/data/genAIData/GenAIViewModel.kt:246-284 | the loop returns what the numbered-pattern specification returns |
| GenAI.SectionHasLine | NutriTrack/app/src/main/java/com/fit2081/nutritrack/data/genAIData/GenAIViewModel.kt:197-198 | a non-blank section always has a non-blank line |
| GenAI.SectionNaming | NutriTrack/app/src/main/java/com/fit2081/nutritrack/data/genAIData/GenAIViewModel.kt:196-206 | sections are named "Pattern 1".."Pattern n" consecutively, each described by its first line |
| GenAI.AllSectionsNamed | NutriTrack/app/src/main/java/com/fit2081/nutritrack/data/genAIData/GenAIViewModel.kt:194-206 | every non-blank section yields one entry, consecutively numbered |
| GenAI.ManualPatterns | NutriTrack/app/src/main/java/com/fit2081/nutritrack/data/genAIData/GenAIViewModel.kt:181-236 | the fallback parse never returns an empty list |
| GenAI.ParagraphPatterns | NutriTrack/app/src/main/java/com/fit2081/nutritrack/data/genAIData/GenAIViewModel.kt:193-221 | the paragraph fallback never returns an empty list |
| GenAI.ManualFallback | NutriTrack/app/src/main/java/com/fit2081/nutritrack/data/genAIData/GenAIViewModel.kt:193-221 | for non-blank text, one consecutively named entry per non-blank section; the single default entry only for blank text |
| GenAI.ParseManuallyIfNeeded | NutriTrack/app/src/main/java/com/fit2081/nutritrack/data/genAIData/GenAIViewModel.kt:181-236 | the method returns what the fallback specification returns |
| GenAI.ParseStructured | NutriTrack/app/src/main/java/com/fit2081/nutritrack/data/genAIData/GenAIViewModel.kt:145-171 | the parse never returns an empty list |
| GenAI.StructuredSources | NutriTrack/app/src/main/java/com/fit2081/nutritrack/data/genAIData/GenAIViewModel.kt:145-171 | a non-empty decode of the cleaned text is used as is; otherwise the fallback runs on the original text |
| GenAI.GenAIViewModel.constructor | NutriTrack/app/src/main/java/com/fit2081/nutritrack/data/genAIData/GenAIViewModel.kt:34-35 | the state starts Initial |
| GenAI.GenAIViewModel.Send | NutriTrack/app/src/main/java/com/fit2081/nutritrack/data/genAIData/GenAIViewModel.kt:97 | the state is Loading before the call |
| GenAI.GenAIViewModel.CompletePrompt | NutriTrack/app/src/main/java/com/fit2081/nutritrack/data/genAIData/GenAIViewModel.kt:62-78 | Success with non-null text; null text leaves the state; an exception gives Error(message or "") |
| GenAI.GenAIViewModel.CompletePatterns | NutriTrack/app/src/main/java/com/fit2081/nutritrack/data/genAIData/GenAIViewModel.kt:115-134 | SuccessBody with a non-empty parse; null text leaves the state; an exception gives Error(message or "Unknown error occurred") |
| KText.TrimSpec | NutriTrack/app/src/main/java/com/fit2081/nutritrack/data/utilities/CSVParser.kt:67-69 | `trim` removes the whitespace run at each end, and is empty iff the text is blank |
| KText.JoinSplit | NutriTrack/app/src/main/java/com/fit2081/nutritrack/data/utilities/CSVParser.kt:64 | joining `split` pieces with the delimiter gives back the line |
| KText.SplitPiecesFree | NutriTrack/app/src/main/java/com/fit2081/nutritrack/data/utilities/CSVParser.kt:64 | no piece of a split contains the delimiter |
| KText.RemoveFenceLeavesNone | NutriTrack/app/src/main/java/com/fit2081/nutritrack/data/genAIData/GenAIViewModel.kt:150 | replacing every fence leaves none |
| KText.ParseIntToString | NutriTrack/app/src/main/java/com/fit2081/nutritrack/LoginScreen.kt:278 | `toIntOrNull` parses a 32-bit integer's decimal text back to it |
| KText.ParseInt | NutriTrack/app/src/main/java/com/fit2081/nutritrack/LoginScreen.kt:278 | a parsed value is a 32-bit integer written in digits with an optional sign; the empty text does not parse |

## Left out

- The Compose UI is left out: layout, themes, images, toasts, dialogs and navigation graphs. Screens are reduced to their state and handlers, and a handler returns the screen it opens.
- The HomeScreen, InsightScreen, ClinicianScreen and SettingsScreen screens are left out. They only display data.
- Room itself is modelled as the table semantics it gives the DAOs. This covers REPLACE, foreign keys with CASCADE and AUTOINCREMENT. The database singleton (`getDatabase`), migrations and the Flow observation are left out.
- The repositories and view models that only forward to a DAO are left out. The model calls the DAO operation directly.
- `getPatientCount` and the other queries are read-only functions on `Store.Database`, so they are not listed separately.
- `getAverageHEIFAScore` (AVG over a floating point column) is left out, because floating point averages are not modelled. Scores are Dafny `real`.
- File reading, the network call, the Gson decoder, the regex matcher, the AI model call and `toDoubleOrNull` are parameters of the model, not implementations. Exceptions from them are an outcome of the call.
- `Toast` calls, logging and `println` are left out, except that a toast failing on a thread without a Looper is a boolean parameter of the CSV import.
- Coroutines are run as straight-line code. Interleavings between the IO dispatcher and the UI are not modelled.
- The random choice of the coach screen's fruit image is left out.
- The commented-out code in ArchiveCSV.kt is left out.
- The structured prompt text (`trimIndent` of the template) and the list of predefined prompts are left out. They are fixed strings sent to the model.
- The `insights` list beyond its first line, and the unused line list in the last fallback step, are left out. They are computed but never returned.
- The placeholder string resource is a parameter of `NutriCoach.CoachCard`.
- Sql.Where: does not state the order of the filtered rows, only which rows are kept. SELECT without ORDER BY has no promised order either.
- The 64-bit range of generated row ids is not modelled. Ids are unbounded integers.
- KText.ReplaceAll: it is proved to remove every fence, but it is not proved equal to Kotlin's `replace` on overlapping occurrences.
- KText.IsWhitespace covers Java whitespace and the Unicode space separators used by `trim`. Unicode case mapping and non-ASCII digits are not modelled.
- Gender normalisation lowercases ASCII letters only.
- GenAI.LongLines: lengths count Unicode scalar values, while Kotlin's `length` counts UTF-16 code units. A line with characters outside the Basic Multilingual Plane is shorter here: six emoji are 12 code units and kept by the app, but 6 characters and dropped by the model.
- GenAI.PatternAt: match positions and `substring` bounds are indices into the sequence of Unicode scalar values, not into UTF-16 code units as in Kotlin. The regex matcher is a parameter, so its positions are taken in the same units as the model's string.
