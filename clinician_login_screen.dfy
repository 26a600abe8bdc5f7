/** The clinician login screen: one access key compared with a constant. */
module ClinicianLoginScreen {
  import opened KText
  import opened Navigation

  /** The clinicians' access key, compared exactly: no trimming, no case folding. */
  const KeyAdminView := "dollar-entry-apples"

  const InvalidKeyError := "Invalid access key. Please try again."

  /** `isBlank() || isEmpty()`: the field's error flag, which is just blankness. */
  function KeyEmptyFlag(accessKey: string): (r: bool)
    ensures r <==> IsBlank(accessKey)
  {
    IsBlank(accessKey) || accessKey == ""
  }

  /** The access key itself is not blank, so entering it never shows the empty-key error. */
  lemma KeyNotFlagged()
    ensures !KeyEmptyFlag(KeyAdminView)
  {
    assert !IsWhitespace(KeyAdminView[0]);
  }

  /** The state of the clinician login form. */
  class ClinicianLoginForm {
    var accessKey: string
    var isValidKey: bool
    var isKeyEmpty: bool
    var errorMsg: string

    constructor ()
      ensures accessKey == "" && !isValidKey && !isKeyEmpty && errorMsg == ""
    {
      accessKey := "";
      isValidKey := false;
      isKeyEmpty := false;
      errorMsg := "";
    }

    /** Typing in the key field: the error flag shows when the key is blank. */
    method EnterKey(s: string)
      modifies this
      ensures accessKey == s && isKeyEmpty == IsBlank(s)
      ensures isValidKey == old(isValidKey) && errorMsg == old(errorMsg)
    {
      accessKey := s;
      isKeyEmpty := KeyEmptyFlag(accessKey);
    }

    /**
     * The login click (always enabled): the dashboard opens exactly when the
     * key equals the constant; otherwise the error is shown and nothing
     * navigates.
     */
    method LoginClick() returns (next: Screen)
      modifies this
      ensures isValidKey <==> accessKey == KeyAdminView
      ensures isValidKey ==> next == ClinicianView && errorMsg == old(errorMsg)
      ensures !isValidKey ==> next == Stay && errorMsg == InvalidKeyError
      ensures accessKey == old(accessKey) && isKeyEmpty == old(isKeyEmpty)
    {
      isValidKey := accessKey == KeyAdminView;
      if isValidKey {
        next := ClinicianView;
      } else {
        errorMsg := InvalidKeyError;
        next := Stay;
      }
    }
  }
}
