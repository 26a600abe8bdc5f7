/**
 * The login screen: the id dropdown of registered patients, the password
 * field, and the Continue and Register buttons with their checks against
 * the patients table.
 */
module LoginScreen {
  import opened Wrappers
  import opened KText
  import opened Patients
  import opened Navigation
  import PatientTable
  import Store
  import Authentication
  import SessionState

  const MismatchError := "ID and password do not match each other. Please try again"
  const ClaimedError := "Your account has already been claimed and cannot be registered again"

  /** `userID?.toIntOrNull()`. */
  function ParsedId(userID: Option<string>): Option<int> {
    if userID.None? then None else ParseInt(userID.value)
  }

  /** `isAuthorized`: the patient with the parsed id exists and its password is exactly `password`. */
  function IsAuthorized(ps: seq<Patient>, userID: Option<string>, password: string): (r: bool)
    ensures r ==> exists p :: p in ps && ParsedId(userID) == Some(p.userID) && p.password == password
    ensures ParsedId(userID).None? ==> !r
  {
    match PatientTable.Lookup(ps, ParsedId(userID))
    case None => false
    case Some(p) => p.password == password
  }

  /** With unique keys, `isAuthorized` holds exactly when the patient with that id has that password. */
  lemma IsAuthorizedSpec(ps: seq<Patient>, userID: Option<string>, password: string)
    requires PatientTable.KeysUnique(ps)
    ensures IsAuthorized(ps, userID, password) <==>
      exists p :: p in ps && ParsedId(userID) == Some(p.userID) && p.password == password
  {
    if p :| p in ps && ParsedId(userID) == Some(p.userID) && p.password == password {
      PatientTable.LookupFindsRow(ps, p);
    }
  }

  /** `isFirstTimeUser`: false for an id no patient has, and the patient's flag otherwise. */
  function IsFirstTimeUser(ps: seq<Patient>, userID: Option<string>): (r: bool)
    ensures r ==> exists p :: p in ps && ParsedId(userID) == Some(p.userID) && p.isFirstTimeUser
    ensures ParsedId(userID).None? || !PatientTable.HasKey(ps, ParsedId(userID).value) ==> !r
  {
    match PatientTable.Lookup(ps, ParsedId(userID))
    case None => false
    case Some(p) => p.isFirstTimeUser
  }

  /** With unique keys, `isFirstTimeUser` reads the flag of the patient with that id. */
  lemma IsFirstTimeUserSpec(ps: seq<Patient>, p: Patient)
    requires PatientTable.KeysUnique(ps) && p in ps && IsInt32(p.userID)
    ensures IsFirstTimeUser(ps, Some(IntToString(p.userID))) == p.isFirstTimeUser
  {
    ParseIntToString(p.userID);
    PatientTable.LookupFindsRow(ps, p);
  }

  /** A dropdown's items: each patient's id as `toString` prints it, in list order. */
  function IdTexts(ps: seq<Patient>): (r: seq<string>)
    ensures |r| == |ps| && forall k :: 0 <= k < |ps| ==> r[k] == IntToString(ps[k].userID)
  {
    seq(|ps|, k requires 0 <= k < |ps| => IntToString(ps[k].userID))
  }

  /** An item picked from a dropdown parses back to the id of the patient it was printed from. */
  lemma ChosenIdParses(ps: seq<Patient>, k: int)
    requires 0 <= k < |ps| && IsInt32(ps[k].userID)
    ensures ParsedId(Some(IdTexts(ps)[k])) == Some(ps[k].userID)
  {
    ParseIntToString(ps[k].userID);
  }

  /** The ids the login dropdown offers: those of the registered patients. */
  function IdChoices(ps: seq<Patient>): seq<string> {
    IdTexts(PatientTable.WithRegister(ps, true))
  }

  /**
   * Choosing an id from the login dropdown picks a registered patient, and
   * with it Continue succeeds exactly when the password is that patient's.
   */
  lemma ChoiceAuthorizes(ps: seq<Patient>, k: int, password: string)
    requires PatientTable.KeysUnique(ps) && 0 <= k < |IdChoices(ps)|
    requires forall p :: p in ps ==> IsInt32(p.userID)
    ensures var p := PatientTable.WithRegister(ps, true)[k];
      && p in ps && p.isRegister
      && (IsAuthorized(ps, Some(IdChoices(ps)[k]), password) <==> p.password == password)
  {
    var registered := PatientTable.WithRegister(ps, true);
    var p := registered[k];
    assert p in registered;
    ChosenIdParses(registered, k);
    PatientTable.LookupFindsRow(ps, p);
  }

  /** The state of the login form. */
  class LoginForm {
    var registeredUserID: string
    var password: string
    var isPasswordEmpty: bool
    var isLoggedIn: bool
    var errorMsg: string

    /** An empty form. */
    constructor ()
      ensures registeredUserID == "" && password == "" && !isPasswordEmpty && !isLoggedIn && errorMsg == ""
    {
      registeredUserID := "";
      password := "";
      isPasswordEmpty := false;
      isLoggedIn := false;
      errorMsg := "";
    }

    /** Continue is enabled only when both the id and the password are filled in. */
    predicate ContinueEnabled()
      reads this
    {
      registeredUserID != "" && password != ""
    }

    /** A dropdown item: the form takes the patient's id as text. */
    method SelectUser(p: Patient)
      modifies this
      ensures registeredUserID == IntToString(p.userID)
      ensures password == old(password) && isPasswordEmpty == old(isPasswordEmpty)
      ensures isLoggedIn == old(isLoggedIn) && errorMsg == old(errorMsg)
    {
      registeredUserID := IntToString(p.userID);
    }

    /** Typing in the password field: an empty password is flagged. */
    method EnterPassword(s: string)
      modifies this
      ensures password == s && isPasswordEmpty == (s == "")
      ensures registeredUserID == old(registeredUserID) && isLoggedIn == old(isLoggedIn) && errorMsg == old(errorMsg)
    {
      password := s;
      isPasswordEmpty := password == "";
    }

    /**
     * The Continue click. When the credentials match, the in-memory slot and
     * the persisted session both take the entered id and the questionnaire
     * opens; otherwise neither changes and the mismatch error is shown.
     */
    method ContinueClick(db: Store.Database, auth: Authentication.AuthManager, state: SessionState.StateManager) returns (next: Screen)
      requires ContinueEnabled() && state.Valid()
      modifies this, auth, state
      ensures state.Valid()
      ensures isLoggedIn == IsAuthorized(db.patients, Some(registeredUserID), password)
      ensures registeredUserID == old(registeredUserID) && password == old(password) && isPasswordEmpty == old(isPasswordEmpty)
      ensures isLoggedIn ==>
        && auth.userId == Some(registeredUserID)
        && state.prefs == SessionState.AfterLogin(old(state.prefs), registeredUserID)
        && auth.GetCurrentUserId() == state.GetUserId() && state.IsUserLoggedIn()
        && errorMsg == old(errorMsg) && next == Questionnaire
      ensures !isLoggedIn ==>
        && auth.userId == old(auth.userId) && state.prefs == old(state.prefs)
        && errorMsg == MismatchError && next == Stay
    {
      isLoggedIn := IsAuthorized(db.patients, Some(registeredUserID), password);
      if isLoggedIn {
        auth.Login(Some(registeredUserID));
        state.LoginUserSession(registeredUserID);
        SessionState.LoginSessionSpec(old(state.prefs), registeredUserID);
        next := Questionnaire;
      } else {
        errorMsg := MismatchError;
        next := Stay;
      }
    }

    /**
     * The Register click: the registration screen opens exactly when
     * `isFirstTimeUser` is false for the entered id; otherwise the
     * already-claimed error is shown.
     */
    method RegisterClick(db: Store.Database) returns (next: Screen)
      modifies this
      ensures next == Register <==> !IsFirstTimeUser(db.patients, Some(registeredUserID))
      ensures next != Register ==> next == Stay && errorMsg == ClaimedError
      ensures next == Register ==> errorMsg == old(errorMsg)
      ensures registeredUserID == old(registeredUserID) && password == old(password)
      ensures isPasswordEmpty == old(isPasswordEmpty) && isLoggedIn == old(isLoggedIn)
    {
      if !IsFirstTimeUser(db.patients, Some(registeredUserID)) {
        next := Register;
      } else {
        errorMsg := ClaimedError;
        next := Stay;
      }
    }
  }
}
