/**
 * The header avatar: the name and initial it shows, and the dropdown it opens.
 */
module UserAvatar {
  import opened Wrappers
  import opened JsStrings
  import opened AuthService

  /** `getInitials(name)`: '?' for no name, else the first character upper-cased. */
  function GetInitials(name: string): (r: string)
    ensures |r| == 1
    ensures name == "" ==> r == "?"
    ensures name != "" ==> r[0] == UpperAscii(name[0])
  {
    if !Truthy(name) then "?" else [UpperAscii(name[0])]
  }

  /** `user?.displayName || user?.email?.split('@')[0] || 'User'`. */
  function GetDisplayName(user: Option<User>): (r: string)
    ensures Truthy(r)
  {
    match user
    case None => "User"
    case Some(u) =>
      if Truthy(u.displayName) then u.displayName
      else if Truthy(BeforeFirst(u.email, '@')) then BeforeFirst(u.email, '@')
      else "User"
  }

  /** The display name is the profile name when set, otherwise the e-mail's local part
      (everything before the first '@') when that is not empty, otherwise 'User'. */
  lemma DisplayNameChoice(user: User)
    ensures Truthy(user.displayName) ==> GetDisplayName(Some(user)) == user.displayName
    ensures !Truthy(user.displayName) && (|user.email| > 0 && user.email[0] != '@') ==>
              && user.email[..|GetDisplayName(Some(user))|] == GetDisplayName(Some(user))
              && '@' !in GetDisplayName(Some(user))
    ensures !Truthy(user.displayName) && Truthy(BeforeFirst(user.email, '@')) ==>
              GetDisplayName(Some(user)) == BeforeFirst(user.email, '@')
    ensures Truthy(BeforeFirst(user.email, '@')) <==> |user.email| > 0 && user.email[0] != '@'
    ensures !Truthy(user.displayName) && (user.email == "" || user.email[0] == '@') ==>
              GetDisplayName(Some(user)) == "User"
  {
  }

  /** The avatar's initial always comes from the name shown, never from the '?' fallback. */
  lemma AvatarInitialFromName(user: Option<User>)
    ensures var name := GetDisplayName(user);
            |name| > 0 && GetInitials(name) == [UpperAscii(name[0])]
  {
  }

  class AvatarMenu {
    var showDropdown: bool

    constructor()
      ensures !showDropdown
    {
      showDropdown := false;
    }

    /** Toggles the dropdown when signed in; otherwise asks for the login dialog. */
    method HandleAvatarClick(isAuthenticated: bool) returns (loginRequested: bool)
      modifies this
      ensures loginRequested <==> !isAuthenticated
      ensures showDropdown == if isAuthenticated then !old(showDropdown) else old(showDropdown)
    {
      if isAuthenticated {
        showDropdown := !showDropdown;
        loginRequested := false;
      } else {
        loginRequested := true;
      }
    }

    /** Closes the dropdown only when signing out succeeded. */
    method HandleLogout(logoutOk: bool)
      modifies this
      ensures showDropdown == if logoutOk then false else old(showDropdown)
    {
      if logoutOk {
        showDropdown := false;
      }
    }

    method HandleClickOutside()
      modifies this
      ensures !showDropdown
    {
      showDropdown := false;
    }

    /** Navigates to the admin portal and closes the dropdown. */
    method HandleAdminAccess() returns (route: string)
      modifies this
      ensures route == "/admin" && !showDropdown
    {
      route := "/admin";
      showDropdown := false;
    }
  }
}
