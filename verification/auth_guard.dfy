/**
 * The sign-in guard of components/AuthGuard.tsx: when the sign-in service
 * is on and nobody is signed in, every page but the sign-in page sends the
 * visitor to "/giris" and shows a placeholder meanwhile.
 */
module AuthGuard {
  import opened Common

  const SignInPath := "/giris"

  /** What the guard reads from the session: whether the session has been
      read yet, whether sign-in is configured, whether a user is signed in,
      and the current path. */
  datatype Session = Session(loaded: bool, signInEnabled: bool, signedIn: bool, path: string)

  /** The effect: each early return leaves the visitor where they are;
      otherwise the path is replaced by the sign-in page. */
  function Redirect(s: Session): (target: Option<string>)
    ensures target.Some? ==> target.value == SignInPath
  {
    if !s.loaded then None
    else if !s.signInEnabled then None
    else if s.signedIn then None
    else if s.path == SignInPath then None
    else Some(SignInPath)
  }

  datatype View = Placeholder | Children

  /** What the guard renders: the placeholder exactly while the effect's
      early returns let a redirect through, and never on the sign-in page
      itself or for a signed-in user. */
  function Render(s: Session): (v: View)
    ensures v == Placeholder <==> Redirect(s).Some?
    ensures s.path == SignInPath || s.signedIn ==> v == Children
  {
    if s.loaded && s.signInEnabled && !s.signedIn && s.path != SignInPath then Placeholder else Children
  }

  /** After the redirect the guard is at rest: on the sign-in page it
      neither redirects again nor hides the page. */
  lemma RedirectSettles(s: Session)
    requires Redirect(s).Some?
    ensures Redirect(s.(path := Redirect(s).value)).None?
    ensures Render(s.(path := Redirect(s).value)) == Children
  {
  }

  /** Until the session has been read, and whenever sign-in is off, every
      page is shown as it is. */
  lemma NoGuardBeforeLoadOrWithoutSignIn(s: Session)
    requires !s.loaded || !s.signInEnabled
    ensures Redirect(s).None? && Render(s) == Children
  {
  }
}
