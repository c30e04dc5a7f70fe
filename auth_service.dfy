/**
 * The authentication helpers: the user record, the message shown for an auth error
 * code, and registration, which names the new profile only when a name was given.
 */
module AuthService {
  import opened Wrappers
  import opened JsStrings

  /** The signed-in user as the app reads it; an absent field is "". */
  datatype User = User(uid: string, email: string, displayName: string, photoURL: string)

  const UnknownError := "An unknown error occurred"

  /** The six codes with a message of their own, and those messages, in `switch` order. */
  const KnownCodes: seq<string> := [
    "auth/user-not-found", "auth/wrong-password", "auth/email-already-in-use",
    "auth/weak-password", "auth/invalid-email", "auth/too-many-requests"]
  const KnownMessages: seq<string> := [
    "User does not exist", "Incorrect password", "Email address is already in use",
    "Password is too weak, at least 6 characters required", "Invalid email format",
    "Too many requests, please try again later"]

  /** `getErrorMessage({code, message})`. */
  function GetErrorMessage(code: string, message: string): (r: string)
    ensures Truthy(r)
  {
    if code == "auth/user-not-found" then "User does not exist"
    else if code == "auth/wrong-password" then "Incorrect password"
    else if code == "auth/email-already-in-use" then "Email address is already in use"
    else if code == "auth/weak-password" then "Password is too weak, at least 6 characters required"
    else if code == "auth/invalid-email" then "Invalid email format"
    else if code == "auth/too-many-requests" then "Too many requests, please try again later"
    else if Truthy(message) then message
    else UnknownError
  }

  /** Each known code gets its fixed message, whatever the error's own message says; any
      other code gets the error's message, or the generic one when that is empty. */
  lemma ErrorMessageTable(code: string, message: string)
    ensures forall i :: 0 <= i < |KnownCodes| ==> GetErrorMessage(KnownCodes[i], message) == KnownMessages[i]
    ensures code !in KnownCodes ==> GetErrorMessage(code, message) == (if message == "" then UnknownError else message)
  {
  }

  /** No two codes share a message, and none of them reads as the generic one. */
  lemma KnownMessagesDistinct()
    ensures |KnownMessages| == 6
    ensures forall i, j :: 0 <= i < j < |KnownMessages| ==> KnownMessages[i] != KnownMessages[j]
    ensures UnknownError !in KnownMessages
  {
  }

  /** The SDK calls registration makes. */
  datatype AuthCall = CreateUser(email: string, password: string) | UpdateProfile(uid: string, displayName: string)

  /** `created` is what `createUserWithEmailAndPassword` yields; `profileOk` whether
      `updateProfile` succeeds. */
  function RegisterCalls(email: string, password: string, displayName: string, created: Result<User>): seq<AuthCall> {
    [CreateUser(email, password)]
    + (if created.Success? && Truthy(displayName) then [UpdateProfile(created.value.uid, displayName)] else [])
  }

  /** The user `registerUser` resolves to, or the error it rethrows. `updateProfile` updates
      the same user object, so the returned user carries the new name. */
  function RegisterUser(displayName: string, created: Result<User>, profileOk: bool): Result<User> {
    match created
    case Failure(e) => Failure(e)
    case Success(u) =>
      if !Truthy(displayName) then Success(u)
      else if profileOk then Success(u.(displayName := displayName))
      else Failure("updateProfile")
  }

  /** The profile is named exactly when the account was created and a name was given; an
      empty name leaves the created user as it is, and a created account's id is kept. */
  lemma RegisterNamesOnlyWhenGiven(email: string, password: string, displayName: string, created: Result<User>, profileOk: bool)
    ensures var calls := RegisterCalls(email, password, displayName, created);
            && calls[0] == CreateUser(email, password)
            && (|calls| == 2 <==> created.Success? && Truthy(displayName))
            && |calls| <= 2
    ensures !Truthy(displayName) ==> RegisterUser(displayName, created, profileOk) == created
    ensures RegisterUser(displayName, created, profileOk).Success? ==>
              && created.Success?
              && RegisterUser(displayName, created, profileOk).value.uid == created.value.uid
              && RegisterUser(displayName, created, profileOk).value.displayName ==
                   (if Truthy(displayName) then displayName else created.value.displayName)
  {
  }
}
