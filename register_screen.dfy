/**
 * The registration screen: the id dropdown of unregistered patients, the
 * phone, username and password fields with their checks, and the Register
 * button that claims the account.
 */
module RegisterScreen {
  import opened Wrappers
  import opened KText
  import opened Patients
  import opened LoginScreen
  import PatientTable
  import Store

  const RegistrationFailed := "Registration failed. Please try again."

  /**
   * `validateIDAndPhoneNumFromDB`: whether the patient with the parsed id has
   * exactly the entered phone, untrimmed. The patient is dereferenced without
   * a null check, so an id no patient has throws (`None`).
   */
  function ValidateIDAndPhoneNumFromDB(ps: seq<Patient>, userID: Option<string>, phoneNum: Option<string>): (r: Option<bool>)
    ensures r.Some? <==> ParsedId(userID).Some? && PatientTable.HasKey(ps, ParsedId(userID).value)
    ensures r == Some(true) ==> exists p :: p in ps && ParsedId(userID) == Some(p.userID) && phoneNum == Some(p.phoneNumber)
  {
    match PatientTable.Lookup(ps, ParsedId(userID))
    case None => None
    case Some(p) => Some(Some(p.phoneNumber) == phoneNum)
  }

  /** With unique keys, the check compares against the phone of the patient whose id was printed. */
  lemma ValidateIDAndPhoneSpec(ps: seq<Patient>, p: Patient, phoneNum: string)
    requires PatientTable.KeysUnique(ps) && p in ps && IsInt32(p.userID)
    ensures ValidateIDAndPhoneNumFromDB(ps, Some(IntToString(p.userID)), Some(phoneNum)) == Some(p.phoneNumber == phoneNum)
  {
    ParseIntToString(p.userID);
    PatientTable.LookupFindsRow(ps, p);
  }

  /** `validatePhoneNumInputFromDB`: the entered phone is in the list of every patient's phone. */
  function ValidatePhoneNumInputFromDB(ps: seq<Patient>, phoneNum: string): (r: bool)
    ensures r <==> exists p :: p in ps && p.phoneNumber == phoneNum
  {
    PatientTable.PhoneListed(ps, phoneNum);
    phoneNum in PatientTable.PhoneNumbers(ps)
  }

  /** `validatePasswordMatched`: both entries are filled in and equal. */
  function ValidatePasswordMatched(password: string, confirmPassword: string): (r: bool)
    ensures r <==> password != "" && password == confirmPassword
  {
    if password != "" && confirmPassword != "" then password == confirmPassword else false
  }

  /** Some patient of `ps` has the username. */
  function AnyHasUsername(ps: seq<Patient>, username: string): (r: bool)
    ensures r <==> exists k :: 0 <= k < |ps| && ps[k].username == username
  {
    if |ps| == 0 then false
    else if ps[0].username == username then true
    else
      var r := AnyHasUsername(ps[1..], username);
      assert r ==> exists k :: 0 <= k < |ps| && ps[k].username == username by {
        if r {
          var k :| 0 <= k < |ps[1..]| && ps[1..][k].username == username;
          assert ps[k + 1].username == username;
        }
      }
      r
  }

  /** `validateUsernameExist`: only unregistered patients' usernames are compared. */
  function ValidateUsernameExist(ps: seq<Patient>, username: string): (r: bool)
    ensures r <==> exists p :: p in ps && !p.isRegister && p.username == username
  {
    var unregistered := PatientTable.WithRegister(ps, false);
    var r := AnyHasUsername(unregistered, username);
    assert r ==> exists p :: p in ps && !p.isRegister && p.username == username by {
      if r {
        var k :| 0 <= k < |unregistered| && unregistered[k].username == username;
        assert unregistered[k] in unregistered;
      }
    }
    assert (exists p :: p in ps && !p.isRegister && p.username == username) ==> r by {
      if p :| p in ps && !p.isRegister && p.username == username {
        assert p in unregistered;
        var k :| 0 <= k < |unregistered| && unregistered[k] == p;
      }
    }
    r
  }

  /** The ids the registration dropdown offers: those of the unregistered patients. */
  function RegisterIdChoices(ps: seq<Patient>): seq<string> {
    IdTexts(PatientTable.WithRegister(ps, false))
  }

  /**
   * An id chosen from the registration dropdown belongs to an unregistered
   * patient, so the id-and-phone check never meets a missing patient: it
   * compares the phone of exactly that patient.
   */
  lemma ChoiceNeverThrows(ps: seq<Patient>, k: int, phoneNum: string)
    requires PatientTable.KeysUnique(ps) && 0 <= k < |RegisterIdChoices(ps)|
    requires forall p :: p in ps ==> IsInt32(p.userID)
    ensures var p := PatientTable.WithRegister(ps, false)[k];
      && p in ps && !p.isRegister
      && ValidateIDAndPhoneNumFromDB(ps, Some(RegisterIdChoices(ps)[k]), Some(phoneNum)) == Some(p.phoneNumber == phoneNum)
  {
    var unregistered := PatientTable.WithRegister(ps, false);
    var p := unregistered[k];
    assert p in unregistered;
    ChosenIdParses(unregistered, k);
    PatientTable.LookupFindsRow(ps, p);
  }

  /** The state of the registration form, with its field error flags. */
  class RegisterForm {
    var selectedUserID: string
    var phNumber: string
    var username: string
    var password: string
    var confirmPassword: string
    var phNumError: bool
    var usernameError: bool
    var isPasswordEmpty: bool
    var isConfirmPasswordEmpty: bool
    var isPasswordNotMatched: bool
    var res: bool
    var errorMsg: string

    /** An empty form with no errors shown. */
    constructor ()
      ensures selectedUserID == "" && phNumber == "" && username == "" && password == "" && confirmPassword == ""
      ensures !phNumError && !usernameError && !isPasswordEmpty && !isConfirmPasswordEmpty && !isPasswordNotMatched
      ensures !res && errorMsg == ""
    {
      selectedUserID := "";
      phNumber := "";
      username := "";
      password := "";
      confirmPassword := "";
      phNumError := false;
      usernameError := false;
      isPasswordEmpty := false;
      isConfirmPasswordEmpty := false;
      isPasswordNotMatched := false;
      res := false;
      errorMsg := "";
    }

    /**
     * `validateEmptyInput(selectedUserID, phNumber, password)`: the Register
     * button's enabled condition. The username and the confirmation do not
     * gate it.
     */
    predicate RegisterEnabled()
      reads this
    {
      selectedUserID != "" && phNumber != "" && password != ""
    }

    /** The five error flags the fields show, in field order. */
    function ErrorFlags(): (bool, bool, bool, bool, bool)
      reads this
    {
      (phNumError, usernameError, isPasswordEmpty, isConfirmPasswordEmpty, isPasswordNotMatched)
    }

    /** A dropdown item: the form takes the patient's id as text. */
    method SelectUser(p: Patient)
      modifies this
      ensures selectedUserID == IntToString(p.userID)
      ensures phNumber == old(phNumber) && username == old(username)
      ensures password == old(password) && confirmPassword == old(confirmPassword)
      ensures ErrorFlags() == old(ErrorFlags()) && res == old(res) && errorMsg == old(errorMsg)
    {
      selectedUserID := IntToString(p.userID);
    }

    /** Typing a phone: flagged when no patient has it. */
    method EnterPhone(db: Store.Database, s: string)
      modifies this
      ensures phNumber == s && phNumError == !ValidatePhoneNumInputFromDB(db.patients, s)
      ensures selectedUserID == old(selectedUserID) && username == old(username)
      ensures password == old(password) && confirmPassword == old(confirmPassword)
      ensures usernameError == old(usernameError) && isPasswordEmpty == old(isPasswordEmpty)
      ensures isConfirmPasswordEmpty == old(isConfirmPasswordEmpty) && isPasswordNotMatched == old(isPasswordNotMatched)
      ensures res == old(res) && errorMsg == old(errorMsg)
    {
      phNumber := s;
      phNumError := !ValidatePhoneNumInputFromDB(db.patients, phNumber);
    }

    /** Typing a username: flagged when empty or taken by an unregistered patient. */
    method EnterUsername(db: Store.Database, s: string)
      modifies this
      ensures username == s && usernameError == (s == "" || ValidateUsernameExist(db.patients, s))
      ensures selectedUserID == old(selectedUserID) && phNumber == old(phNumber)
      ensures password == old(password) && confirmPassword == old(confirmPassword)
      ensures phNumError == old(phNumError) && isPasswordEmpty == old(isPasswordEmpty)
      ensures isConfirmPasswordEmpty == old(isConfirmPasswordEmpty) && isPasswordNotMatched == old(isPasswordNotMatched)
      ensures res == old(res) && errorMsg == old(errorMsg)
    {
      username := s;
      usernameError := username == "" || ValidateUsernameExist(db.patients, username);
    }

    /**
     * Typing a password: flagged when empty. The mismatch flag is not
     * recomputed, so it keeps what the last confirmation typed showed.
     */
    method EnterPassword(s: string)
      modifies this
      ensures password == s && isPasswordEmpty == (s == "")
      ensures selectedUserID == old(selectedUserID) && phNumber == old(phNumber)
      ensures username == old(username) && confirmPassword == old(confirmPassword)
      ensures phNumError == old(phNumError) && usernameError == old(usernameError)
      ensures isConfirmPasswordEmpty == old(isConfirmPasswordEmpty) && isPasswordNotMatched == old(isPasswordNotMatched)
      ensures res == old(res) && errorMsg == old(errorMsg)
    {
      password := s;
      isPasswordEmpty := password == "";
    }

    /** Typing the confirmation: flagged when empty, and when it does not match the password. */
    method EnterConfirmPassword(s: string)
      modifies this
      ensures confirmPassword == s && isConfirmPasswordEmpty == (s == "")
      ensures isPasswordNotMatched == !ValidatePasswordMatched(password, s)
      ensures selectedUserID == old(selectedUserID) && phNumber == old(phNumber)
      ensures username == old(username) && password == old(password)
      ensures phNumError == old(phNumError) && usernameError == old(usernameError) && isPasswordEmpty == old(isPasswordEmpty)
      ensures res == old(res) && errorMsg == old(errorMsg)
    {
      confirmPassword := s;
      isConfirmPasswordEmpty := confirmPassword == "";
      isPasswordNotMatched := !ValidatePasswordMatched(password, confirmPassword);
    }

    /**
     * After a registration: the phone, username, password and confirmation
     * are emptied. No error flag is reset.
     */
    method ClearInputs()
      modifies this
      ensures phNumber == "" && username == "" && password == "" && confirmPassword == ""
      ensures selectedUserID == old(selectedUserID) && res == old(res) && errorMsg == old(errorMsg)
      ensures ErrorFlags() == old(ErrorFlags())
    {
      phNumber := "";
      username := "";
      password := "";
      confirmPassword := "";
    }

    /**
     * The Register click. When the chosen patient's phone is the entered
     * one, that patient's username and password are written, it is marked
     * registered, and the inputs are cleared. On a mismatch the store is
     * untouched and the failure message is shown. An id no patient has makes
     * the check throw (`threw`), and nothing changes. No path touches the
     * error flags.
     */
    method RegisterClick(db: Store.Database) returns (threw: bool)
      requires RegisterEnabled() && db.Valid()
      modifies this, db
      ensures db.Valid()
      ensures var check := ValidateIDAndPhoneNumFromDB(old(db.patients), Some(old(selectedUserID)), Some(old(phNumber)));
        && (threw <==> check.None?)
        && (check == Some(true) ==>
              && db.patients == PatientTable.UpdateDetails(old(db.patients), old(username), old(password), true, ParsedId(Some(old(selectedUserID))))
              && res && errorMsg == old(errorMsg)
              && phNumber == "" && username == "" && password == "" && confirmPassword == "")
        && (check == Some(false) ==> db.patients == old(db.patients) && errorMsg == RegistrationFailed && res == old(res))
        && (check != Some(true) ==>
              && phNumber == old(phNumber) && username == old(username)
              && password == old(password) && confirmPassword == old(confirmPassword))
      ensures threw ==> db.patients == old(db.patients) && errorMsg == old(errorMsg) && res == old(res)
      ensures selectedUserID == old(selectedUserID) && ErrorFlags() == old(ErrorFlags())
      ensures db.foodIntakes == old(db.foodIntakes) && db.tips == old(db.tips)
      ensures db.foodIntakeSequence == old(db.foodIntakeSequence) && db.tipsSequence == old(db.tipsSequence)
    {
      var check := ValidateIDAndPhoneNumFromDB(db.patients, Some(selectedUserID), Some(phNumber));
      if check.None? {
        return true;
      }
      threw := false;
      if check.value {
        res := true;
        db.UpdatePatientDetails(username, password, true, ParsedId(Some(selectedUserID)));
        ClearInputs();
      } else {
        errorMsg := RegistrationFailed;
      }
    }
  }

  /**
   * A successful registration claims exactly the chosen patient: afterwards
   * its row carries the entered username and password and is registered,
   * with its phone, sex, flags and scores as before.
   */
  lemma RegistrationClaims(ps: seq<Patient>, p: Patient, phoneNum: string, username: string, password: string)
    requires PatientTable.KeysUnique(ps) && p in ps && IsInt32(p.userID)
    requires ValidateIDAndPhoneNumFromDB(ps, Some(IntToString(p.userID)), Some(phoneNum)) == Some(true)
    ensures var r := PatientTable.UpdateDetails(ps, username, password, true, ParsedId(Some(IntToString(p.userID))));
      && PatientTable.Lookup(r, Some(p.userID)) == Some(PatientTable.WithAccount(p, username, password, true))
      && p.phoneNumber == phoneNum
      && forall k :: 0 <= k < |ps| && ps[k].userID != p.userID ==> r[k] == ps[k]
  {
    ValidateIDAndPhoneSpec(ps, p, phoneNum);
    ParseIntToString(p.userID);
    var id := ParsedId(Some(IntToString(p.userID)));
    assert id == Some(p.userID);
    var r := PatientTable.UpdateDetails(ps, username, password, true, id);
    PatientTable.UpdateDetailsSpec(ps, username, password, true, id);
    assert PatientTable.Lookup(r, id) == Some(PatientTable.WithAccount(p, username, password, true));
  }
}
