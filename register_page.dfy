/** The sign-up form's submit handler (src/app/register/page.tsx): three
    checks in order, then one call to `signUp`. */
module RegisterPage {
  import opened Base
  import opened Utils
  import opened Auth

  datatype Form = Form(username: string, email: string, password: string, confirmPassword: string)

  /** The error shown under the form ("" for none) and the user stored in
      the session; a stored user also means a redirect to /challenges. */
  datatype Submitted = Submitted(error: string, stored: Option<Profile>)

  const MISMATCH := "Passwords do not match"
  const TOO_SHORT := "Password must be at least 6 characters"
  const MIN_PASSWORD: nat := 6

  /** The checks done before anything is sent; None when all pass. */
  function FormError(f: Form): (r: Option<string>)
    ensures CheckUsername(Utf16(f.username)).Some? ==> r == Some(UsernameMessage(CheckUsername(Utf16(f.username)).value))
    ensures r.None? <==>
      CheckUsername(Utf16(f.username)).None? && f.password == f.confirmPassword && |Utf16(f.password)| >= MIN_PASSWORD
  {
    var nameError := CheckUsername(Utf16(f.username));
    if nameError.Some? then Some(UsernameMessage(nameError.value))
    else if f.password != f.confirmPassword then Some(MISMATCH)
    else if |Utf16(f.password)| < MIN_PASSWORD then Some(TOO_SHORT)
    else None
  }

  /** `handleSubmit`. `reply` is what `signUp` returns; it is only used
      when the form passes its checks. */
  function HandleSubmit(f: Form, reply: AuthResponse): (r: Submitted)
    ensures FormError(f).Some? ==> r == Submitted(FormError(f).value, None)
    ensures r.stored.Some? <==> FormError(f).None? && !Filled(reply.error) && reply.user.Some?
    ensures r.stored.Some? ==> r.stored == reply.user && r.error == ""
    // a passing form shows the sign-up reply's own error, unchanged
    ensures FormError(f).None? && Filled(reply.error) ==> r == Submitted(reply.error.value, None)
    ensures FormError(f).None? && !Filled(reply.error) && reply.user.None? ==> r == Submitted("", None)
  {
    var formError := FormError(f);
    if formError.Some? then Submitted(formError.value, None)
    else if Filled(reply.error) then Submitted(reply.error.value, None)
    else if reply.user.Some? then Submitted("", reply.user)
    else Submitted("", None)
  }

  /** Submitting a passing form end to end: the page stores exactly the
      user `signUp` returns and otherwise shows exactly its error, e.g.
      "Username already taken" for a taken name. */
  lemma SubmitShowsSignUpReply(f: Form, taken: bool, auth: AuthOutcome,
                               rpcError: Option<string>, fetched: Result<Profile, string>)
    requires FormError(f).None?
    ensures var reply := SignUp(f.email, f.username, taken, auth, rpcError, fetched);
      HandleSubmit(f, reply) ==
        if reply.user.Some? then Submitted("", reply.user) else Submitted(reply.error.value, None)
    ensures SignUpAllowed(f.email) && taken ==>
      HandleSubmit(f, SignUp(f.email, f.username, taken, auth, rpcError, fetched)) ==
        Submitted("Username already taken", None)
  {
  }

  /** A password mismatch is reported before the password's length. */
  lemma MismatchBeforeLength(f: Form)
    requires CheckUsername(Utf16(f.username)).None? && f.password != f.confirmPassword
    ensures FormError(f) == Some(MISMATCH)
  {
  }

  /** Six characters are enough; five are not. */
  lemma PasswordBoundary(f: Form)
    requires CheckUsername(Utf16(f.username)).None? && f.password == f.confirmPassword
    requires forall c :: c in f.password ==> c as int < 0x1_0000
    ensures |f.password| == 6 ==> FormError(f).None?
    ensures |f.password| == 5 ==> FormError(f) == Some(TOO_SHORT)
  {
    Utf16Bmp(f.password);
  }

  lemma {:induction false} Utf16Bmp(s: string)
    requires forall c :: c in s ==> c as int < 0x1_0000
    ensures |Utf16(s)| == |s|
    decreases |s|
  {
    if s != [] {
      assert s[0] in s;
      assert forall c :: c in s[1..] ==> c in s;
      Utf16Bmp(s[1..]);
    }
  }

  /** A form that fails its checks never reaches `signUp`: the reply does
      not matter. */
  lemma RefusedFormSendsNothing(f: Form, a: AuthResponse, b: AuthResponse)
    requires FormError(f).Some?
    ensures HandleSubmit(f, a) == HandleSubmit(f, b)
  {
  }
}
