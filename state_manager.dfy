/**
 * The login session persisted in the app's shared preferences file "user":
 * three keys, written with `putString`, `putBoolean` and `remove`.
 */
module SessionState {
  import opened Wrappers

  /** A stored preference value. */
  datatype PrefValue = Str(s: string) | Bool(b: bool)

  /** The shared preferences file: key to value. */
  type Prefs = map<string, PrefValue>

  const KeyIsLoggedIn := "is_log_in"
  const KeyUserId := "user_id"
  const KeyHasCompletedQuestionnaire := "has_completed_questionnaire"

  /** Each of the three keys, when present, holds the type it is read as. */
  predicate WellTyped(prefs: Prefs) {
    && (KeyIsLoggedIn in prefs ==> prefs[KeyIsLoggedIn].Bool?)
    && (KeyUserId in prefs ==> prefs[KeyUserId].Str?)
    && (KeyHasCompletedQuestionnaire in prefs ==> prefs[KeyHasCompletedQuestionnaire].Bool?)
  }

  /** `getBoolean(key, false)`. */
  function GetBoolean(prefs: Prefs, key: string): bool
    requires key in prefs ==> prefs[key].Bool?
  {
    if key in prefs then prefs[key].b else false
  }

  /** `isUserLoggedIn`. */
  function LoggedIn(prefs: Prefs): bool
    requires WellTyped(prefs)
  {
    GetBoolean(prefs, KeyIsLoggedIn)
  }

  /** `getUserId`: `getString(KEY_USER_ID, null)`. */
  function UserId(prefs: Prefs): Option<string>
    requires WellTyped(prefs)
  {
    if KeyUserId in prefs then Some(prefs[KeyUserId].s) else None
  }

  /** `hasCompletedQuestionnaire`. */
  function QuestionnaireDone(prefs: Prefs): bool
    requires WellTyped(prefs)
  {
    GetBoolean(prefs, KeyHasCompletedQuestionnaire)
  }

  /** The store after `loginUserSession(userId)`. */
  function AfterLogin(prefs: Prefs, userId: string): (r: Prefs)
    ensures WellTyped(prefs) ==> WellTyped(r)
  {
    prefs[KeyUserId := Str(userId)][KeyIsLoggedIn := Bool(true)]
  }

  /** The store after `logout`. */
  function AfterLogout(prefs: Prefs): (r: Prefs)
    ensures WellTyped(r)
  {
    prefs - {KeyIsLoggedIn, KeyUserId, KeyHasCompletedQuestionnaire}
  }

  /** The store after `completedQuestionnaire`. */
  function AfterCompleted(prefs: Prefs): (r: Prefs)
    ensures WellTyped(prefs) ==> WellTyped(r)
  {
    prefs[KeyHasCompletedQuestionnaire := Bool(true)]
  }

  /** A store without the keys reads as logged out, with no user and the questionnaire not done. */
  lemma EmptyDefaults()
    ensures WellTyped(map[])
    ensures !LoggedIn(map[]) && UserId(map[]) == None && !QuestionnaireDone(map[])
  {
  }

  /** After a login the session is logged in under `userId`; the questionnaire flag is as before. */
  lemma LoginSessionSpec(prefs: Prefs, userId: string)
    requires WellTyped(prefs)
    ensures LoggedIn(AfterLogin(prefs, userId))
    ensures UserId(AfterLogin(prefs, userId)) == Some(userId)
    ensures QuestionnaireDone(AfterLogin(prefs, userId)) == QuestionnaireDone(prefs)
  {
  }

  /** Marking the questionnaire done changes only that flag. */
  lemma CompletedSpec(prefs: Prefs)
    requires WellTyped(prefs)
    ensures QuestionnaireDone(AfterCompleted(prefs))
    ensures LoggedIn(AfterCompleted(prefs)) == LoggedIn(prefs)
    ensures UserId(AfterCompleted(prefs)) == UserId(prefs)
  {
  }

  /** After a logout every getter returns its default, and a second logout changes nothing. */
  lemma LogoutSpec(prefs: Prefs)
    ensures !LoggedIn(AfterLogout(prefs)) && UserId(AfterLogout(prefs)) == None && !QuestionnaireDone(AfterLogout(prefs))
    ensures AfterLogout(AfterLogout(prefs)) == AfterLogout(prefs)
  {
  }

  /**
   * `StateManager`: the preferences store, and `authState`, the logged-in
   * flag read once when the manager is created.
   */
  class StateManager {
    var prefs: Prefs
    const authState: bool

    ghost predicate Valid()
      reads this
    {
      WellTyped(prefs)
    }

    /** A manager over the store as persisted; `authState` is its logged-in flag at this moment. */
    constructor (stored: Prefs)
      requires WellTyped(stored)
      ensures Valid() && prefs == stored
      ensures authState == LoggedIn(stored)
    {
      prefs := stored;
      authState := LoggedIn(stored);
    }

    function IsUserLoggedIn(): bool
      requires Valid()
      reads this
    {
      LoggedIn(prefs)
    }

    function GetUserId(): Option<string>
      requires Valid()
      reads this
    {
      UserId(prefs)
    }

    function HasCompletedQuestionnaire(): bool
      requires Valid()
      reads this
    {
      QuestionnaireDone(prefs)
    }

    /** `loginUserSession`. `authState` keeps the value it was created with. */
    method LoginUserSession(userId: string)
      requires Valid()
      modifies this
      ensures Valid()
      ensures prefs == AfterLogin(old(prefs), userId)
    {
      prefs := prefs[KeyUserId := Str(userId)];
      prefs := prefs[KeyIsLoggedIn := Bool(true)];
    }

    /** `logout`: the three keys are removed. */
    method Logout()
      modifies this
      ensures Valid()
      ensures prefs == AfterLogout(old(prefs))
    {
      prefs := prefs - {KeyIsLoggedIn};
      prefs := prefs - {KeyUserId};
      prefs := prefs - {KeyHasCompletedQuestionnaire};
    }

    /** `completedQuestionnaire`. */
    method CompletedQuestionnaire()
      requires Valid()
      modifies this
      ensures Valid()
      ensures prefs == AfterCompleted(old(prefs))
    {
      prefs := prefs[KeyHasCompletedQuestionnaire := Bool(true)];
    }
  }
}
