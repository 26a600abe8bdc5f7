/** The welcome screen's Login button: the start-up routing decision. */
module WelcomeScreen {
  import opened Navigation
  import Authentication
  import SessionState

  /**
   * The Login click. A persisted login restores the in-memory user from the
   * stored id and continues to Home when the questionnaire is done, to the
   * questionnaire otherwise; without a persisted login the login screen
   * opens and the in-memory slot is left alone. The preferences are only read.
   */
  method LoginClick(state: SessionState.StateManager, auth: Authentication.AuthManager) returns (next: Screen)
    requires state.Valid()
    modifies auth
    ensures state.IsUserLoggedIn() ==> auth.GetCurrentUserId() == state.GetUserId()
    ensures state.IsUserLoggedIn() && state.HasCompletedQuestionnaire() ==> next == Home
    ensures state.IsUserLoggedIn() && !state.HasCompletedQuestionnaire() ==> next == Questionnaire
    ensures !state.IsUserLoggedIn() ==> next == Login && auth.userId == old(auth.userId)
  {
    if state.IsUserLoggedIn() {
      if state.HasCompletedQuestionnaire() {
        auth.Login(state.GetUserId());
        next := Home;
      } else {
        auth.Login(state.GetUserId());
        next := Questionnaire;
      }
    } else {
      next := Login;
    }
  }
}
