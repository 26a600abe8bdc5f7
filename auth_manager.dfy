/** The in-memory record of who is signed in. */
module Authentication {
  import opened Wrappers

  /** `AuthManager`: one slot holding the current user's id, or null. */
  class AuthManager {
    var userId: Option<string>

    /** The slot starts empty. */
    constructor ()
      ensures userId == None
    {
      userId := None;
    }

    /** `login`: the slot takes `id`, whatever it held before. */
    method Login(id: Option<string>)
      modifies this
      ensures userId == id
    {
      userId := id;
    }

    /** `logout`: the slot is emptied. */
    method Logout()
      modifies this
      ensures userId == None
    {
      userId := None;
    }

    /** `getCurrentUserId`. */
    function GetCurrentUserId(): Option<string>
      reads this
    {
      userId
    }
  }
}
