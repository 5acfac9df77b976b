/**
 * The sign-in gate: the stored `userId` string decides whether the app opens
 * on the sign-in screen or the home screen, and the Sign in with Apple
 * completion handler is the only place that sets it.
 */
module Session {
  datatype Screen = SignIn | Home

  /** What the authorization service handed back. */
  datatype Credential = AppleId(user: string) | OtherCredential

  datatype SignInResult = Success(credential: Credential) | Failure(error: string)

  /** The value `userId` has before anything is stored. */
  const NoUser: string := ""

  /** `ContentView.body`: the sign-in screen exactly when no user id is stored. */
  function ScreenFor(userId: string): (screen: Screen)
    ensures screen == SignIn <==> |userId| == 0
    ensures screen == Home <==> |userId| > 0
  {
    if userId == "" then SignIn else Home
  }

  /**
   * The sign-in completion handler: an Apple ID credential stores its user
   * string; another kind of credential, or a failure (which is only logged),
   * keeps the stored id.
   */
  function AfterSignIn(userId: string, result: SignInResult): (next: string)
    ensures result.Success? && result.credential.AppleId? ==> next == result.credential.user
    ensures !(result.Success? && result.credential.AppleId?) ==> next == userId
  {
    match result
    case Success(AppleId(user)) => user
    case Success(OtherCredential) => userId
    case Failure(_) => userId
  }

  /**
   * A fresh install opens on the sign-in screen, and an Apple ID sign-in
   * leads to the home screen exactly when the credential's user string is
   * non-empty; nothing else leaves the sign-in screen.
   */
  lemma SignInGate(userId: string, result: SignInResult)
    ensures ScreenFor(NoUser) == SignIn
    ensures ScreenFor(userId) == SignIn ==>
      (ScreenFor(AfterSignIn(userId, result)) == Home <==>
        result.Success? && result.credential.AppleId? && result.credential.user != "")
  {
  }
}
