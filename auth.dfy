/** The client-side account helpers (src/lib/auth.ts): sign-up checks,
    signing in by e-mail or user name, the user name given to a profile
    created on the fly, and the admin check. The Supabase calls are
    parameters holding what each call returns. */
module Auth {
  import opened Base
  import opened Strings
  import opened Sequences

  /** A row of the public users table. */
  datatype Profile = Profile(id: string, username: string)

  /** `{ user, error }`. */
  datatype AuthResponse = AuthResponse(user: Option<Profile>, error: Option<string>)

  /** What the auth sign-up gave back. */
  datatype AuthOutcome = AuthFailed(message: string) | NoUser | Created(userId: string)

  /** A JavaScript string used as a condition: present and not empty. */
  predicate Filled(v: Option<string>) {
    v.Some? && v.value != ""
  }

  function Failure(message: string): AuthResponse {
    AuthResponse(None, Some(message))
  }

  const SIGNUP_DOMAINS: seq<string> := ["@gmail.com", "@student.polije.ac.id", "@polije.ac.id"]

  predicate SignUpAllowed(email: string) {
    exists d :: d in SIGNUP_DOMAINS && EndsWith(Lower(email), d)
  }

  /** Upper-case letters in the address do not matter. */
  lemma AllowedIgnoresCase(email: string)
    ensures SignUpAllowed(email) <==> SignUpAllowed(Lower(email))
  {
    assert Lower(Lower(email)) == Lower(email);
  }

  /** `signUp`. `taken` is whether the name lookup found a row, `auth` the
      auth sign-up, `rpcError` the `create_profile` error and `fetched` the
      final read of the new row. */
  function SignUp(email: string, username: string, taken: bool, auth: AuthOutcome,
                  rpcError: Option<string>, fetched: Result<Profile, string>): (r: AuthResponse)
    ensures r.user.Some? <==> r.error.None?
    ensures r.error.None? <==>
      SignUpAllowed(email) && !taken && auth.Created? && rpcError.None? && fetched.Ok?
    ensures r.error.None? ==> r.user == Some(fetched.value)
    ensures !SignUpAllowed(email) ==> r == Failure("Email is not allowed")
    ensures SignUpAllowed(email) && taken ==> r == Failure("Username already taken")
    ensures SignUpAllowed(email) && !taken && auth == AuthFailed("User already registered") ==>
      r == Failure("Email already registered")
    // every other auth error is passed through as its message
    ensures SignUpAllowed(email) && !taken && auth.AuthFailed? && auth.message != "User already registered" ==>
      r == Failure(auth.message)
    ensures SignUpAllowed(email) && !taken && auth == NoUser ==> r == Failure("Failed to create account")
    ensures SignUpAllowed(email) && !taken && auth.Created? && rpcError.Some? ==>
      r == Failure("Failed to create user profile: " + rpcError.value)
    ensures SignUpAllowed(email) && !taken && auth.Created? && rpcError.None? && fetched.Err? ==>
      r == Failure(fetched.error)
  {
    if !SignUpAllowed(email) then Failure("Email is not allowed")
    else if taken then Failure("Username already taken")
    else match auth
      case AuthFailed(m) =>
        if m == "User already registered" then Failure("Email already registered") else Failure(m)
      case NoUser => Failure("Failed to create account")
      case Created(_) =>
        if rpcError.Some? then Failure("Failed to create user profile: " + rpcError.value)
        else match fetched
          case Err(m) => Failure(m)
          case Ok(p) => AuthResponse(Some(p), None)
  }

  /** A refused domain is reported whatever the services would say: they are
      never called. */
  lemma RefusedDomainCallsNothing(email: string, username: string, t1: bool, t2: bool, a1: AuthOutcome, a2: AuthOutcome,
                                  e1: Option<string>, e2: Option<string>, f1: Result<Profile, string>, f2: Result<Profile, string>)
    requires !SignUpAllowed(email)
    ensures SignUp(email, username, t1, a1, e1, f1) == SignUp(email, username, t2, a2, e2, f2)
  {
  }

  /** The signed-in auth user: id, e-mail and the `username` metadata. */
  datatype AuthUser = AuthUser(id: string, email: Option<string>, metaUsername: Option<string>)

  datatype LoginOutcome = LoginFailed(message: string) | LoginNoUser | LoggedIn(user: AuthUser)

  /** The e-mail used to sign in: the identifier itself when it holds '@',
      otherwise what `get_email_by_username` returned. */
  function ResolveEmail(identifier: string, lookup: Option<string>): (r: Option<string>)
    ensures '@' in identifier ==> r == Some(identifier)
    ensures '@' !in identifier ==> (r.Some? <==> Filled(lookup)) && (r.Some? ==> r == lookup)
  {
    if '@' in identifier then Some(identifier)
    else if Filled(lookup) then lookup
    else None
  }

  /** The name derived from the account when the metadata has none: the
      part of the e-mail before '@', or "user_" and the first eight
      characters of the id. */
  function DerivedName(u: AuthUser): (r: string)
    ensures Filled(u.email) ==> '@' !in r && r <= u.email.value
    ensures Filled(u.email) && |r| < |u.email.value| ==> u.email.value[|r|] == '@'
    ensures !Filled(u.email) ==> StartsWith(r, "user_") && |r| <= 13 && r[5..] <= u.id
  {
    if Filled(u.email) then
      SplitHead(u.email.value, '@');
      Split(u.email.value, '@')[0]
    else "user_" + Take(u.id, 8)
  }

  /** `signIn`'s name: `user_metadata?.username ?? ...`. */
  function SignInName(u: AuthUser): string {
    if u.metaUsername.Some? then u.metaUsername.value else DerivedName(u)
  }

  /** `getCurrentUser`'s name: `user_metadata?.username || ...`. */
  function CurrentUserName(u: AuthUser): string {
    if Filled(u.metaUsername) then u.metaUsername.value else DerivedName(u)
  }

  /** The two derivations disagree only on an empty metadata name, which
      `signIn` keeps and `getCurrentUser` replaces. */
  lemma NamesDifferOnlyOnEmpty(u: AuthUser)
    ensures SignInName(u) != CurrentUserName(u) <==> u.metaUsername == Some("") && DerivedName(u) != ""
    ensures u.metaUsername == Some("") ==> SignInName(u) == ""
  {
  }

  /** `signIn`. `lookup` is the name lookup's e-mail (None on an error),
      `login` the password sign-in for an e-mail, `profile` the users row
      (None on an error or no row), `createProfile` the error of
      `create_profile` for an id and name, and `refetch` the second read. */
  function SignIn(identifier: string, lookup: Option<string>, login: string -> LoginOutcome,
                  profile: Option<Profile>, createProfile: (string, string) -> Option<string>,
                  refetch: Result<Profile, string>): (r: AuthResponse)
    ensures r.user.Some? <==> r.error.None?
    ensures ResolveEmail(identifier, lookup).None? ==> r == Failure("User not found")
    ensures ResolveEmail(identifier, lookup).Some? ==> r.error.Some? ==>
      !login(ResolveEmail(identifier, lookup).value).LoggedIn? || profile.None?
    ensures r.error.None? ==>
      var e := ResolveEmail(identifier, lookup);
      e.Some? && login(e.value).LoggedIn? &&
      (profile.Some? ==> r.user == profile) &&
      (profile.None? ==> createProfile(login(e.value).user.id, SignInName(login(e.value).user)).None? &&
                          refetch.Ok? && r.user == Some(refetch.value))
    // the outcome of each step once the identifier is resolved
    ensures ResolveEmail(identifier, lookup).Some? ==>
      var e := ResolveEmail(identifier, lookup).value;
      match login(e)
      case LoginFailed(m) => r == Failure(m)
      case LoginNoUser => r == Failure("Login failed")
      case LoggedIn(u) =>
        if profile.Some? then r == AuthResponse(profile, None)
        else if createProfile(u.id, SignInName(u)).Some? then r == Failure("Failed to create user profile")
        else if refetch.Err? then r == Failure(refetch.error)
        else r == AuthResponse(Some(refetch.value), None)
  {
    var e := ResolveEmail(identifier, lookup);
    if e.None? then Failure("User not found")
    else match login(e.value)
      case LoginFailed(m) => Failure(m)
      case LoginNoUser => Failure("Login failed")
      case LoggedIn(u) =>
        if profile.Some? then AuthResponse(profile, None)
        else if createProfile(u.id, SignInName(u)).Some? then Failure("Failed to create user profile")
        else match refetch
          case Err(m) => Failure(m)
          case Ok(p) => AuthResponse(Some(p), None)
  }

  /** An identifier holding '@' is used as the e-mail: the name lookup
      does not matter. */
  lemma EmailIdentifierSkipsLookup(identifier: string, l1: Option<string>, l2: Option<string>, login: string -> LoginOutcome,
                                   profile: Option<Profile>, createProfile: (string, string) -> Option<string>,
                                   refetch: Result<Profile, string>)
    requires '@' in identifier
    ensures SignIn(identifier, l1, login, profile, createProfile, refetch)
         == SignIn(identifier, l2, login, profile, createProfile, refetch)
  {
  }

  /** `getCurrentUser`. `rows` is the first `get_user_profile` result (its
      error is not looked at), `createProfile` the error of
      `create_profile`, `again` the second read (None on an error). */
  function CurrentUser(authUser: Option<AuthUser>, rows: Option<seq<Profile>>,
                       createProfile: (string, string) -> Option<string>, again: Option<seq<Profile>>): (r: Option<Profile>)
    ensures authUser.None? ==> r.None?
    ensures rows.Some? && rows.value != [] && authUser.Some? ==> r == Some(rows.value[0])
    ensures r.Some? && (rows.None? || rows.value == []) ==>
      createProfile(authUser.value.id, CurrentUserName(authUser.value)).None? &&
      again.Some? && again.value != [] && r == Some(again.value[0])
    // and conversely: with no row, a created profile that reads back is returned
    ensures (authUser.Some? && (rows.None? || rows.value == []) &&
             createProfile(authUser.value.id, CurrentUserName(authUser.value)).None? &&
             again.Some? && again.value != []) ==> r == Some(again.value[0])
  {
    if authUser.None? then None
    else if rows.Some? && rows.value != [] then Some(rows.value[0])
    else
      var u := authUser.value;
      if createProfile(u.id, CurrentUserName(u)).Some? then None
      else if again.Some? && again.value != [] then Some(again.value[0])
      else None
  }

  /** What the `is_admin` call gave back. */
  datatype AdminReply = AdminError | AdminThrew | AdminData(data: Json)

  /** `isAdmin`: false on an error or exception, otherwise `data || false`. */
  function IsAdmin(reply: AdminReply): (r: Json)
    ensures Truthy(r) <==> reply.AdminData? && Truthy(reply.data)
    ensures !Truthy(r) ==> r == JBool(false)
  {
    match reply
    case AdminData(d) => if Truthy(d) then d else JBool(false)
    case _ => JBool(false)
  }
}
