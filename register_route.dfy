/** The registration endpoint (src/app/api/register/route.ts): an ordered
    chain of checks on the posted form, the server's configuration and the
    results of the user lookup, the auth sign-up and the profile RPC. */
module RegisterRoute {
  import opened Base
  import opened Strings
  import opened Sequences
  import opened Auth

  /** The posted fields; None where a field is absent. */
  datatype Fields = Fields(email: Option<string>, password: Option<string>,
                           username: Option<string>, teamToken: Option<string>)

  datatype Reply = Reply(status: int, message: string)

  const MISSING := Reply(400, "Missing required fields")
  const MISCONFIGURED := Reply(500, "Server misconfigured (REGISTER_TOKEN not set)")
  const BAD_TOKEN := Reply(403, "Invalid team token")
  const EMAIL_REFUSED := Reply(400, "Email is not allowed")
  const NAME_TAKEN := Reply(400, "Username already taken")
  const EMAIL_TAKEN := Reply(400, "Email already registered")
  const INTERNAL := Reply(500, "Internal server error")
  const OK := Reply(200, "OK")

  predicate AllFilled(f: Fields) {
    Filled(f.email) && Filled(f.password) && Filled(f.username) && Filled(f.teamToken)
  }

  function TrimLower(d: string): string {
    Lower(Trim(d))
  }

  predicate NonEmpty(d: string) { d != "" }

  /** `REGISTER_ALLOWED_DOMAINS`: split on commas, each entry trimmed and
      lower-cased, empty entries dropped. */
  function AllowedDomains(raw: string): (r: seq<string>)
    ensures forall d :: d in r <==> d != "" && d in Keys(Split(raw, ','), TrimLower)
    ensures forall d :: d in r ==> ',' !in d && Lower(d) == d
  {
    var entries := Keys(Split(raw, ','), TrimLower);
    forall d | d in entries ensures ',' !in d && Lower(d) == d {
      var k :| 0 <= k < |entries| && entries[k] == d;
      var piece := Split(raw, ',')[k];
      TrimInside(piece);
      LowerKeeps(Trim(piece), ',');
      LowerIdempotent(Trim(piece));
    }
    Filter(entries, NonEmpty)
  }

  lemma TrimInside(s: string)
    ensures forall c :: c in Trim(s) ==> c in s
  {
    var i := LeadingSpaces(s);
    var t := s[i..];
    assert forall c :: c in t ==> c in s;
    assert forall c :: c in t[..TrailingStart(t)] ==> c in t;
  }

  lemma LowerKeeps(s: string, c: char)
    requires c !in s && !IsUpper(c) && !IsLower(c)
    ensures c !in Lower(s)
  {
    forall i | 0 <= i < |s| ensures Lower(s)[i] != c {
      assert s[i] != c;
    }
  }

  lemma LowerIdempotent(s: string)
    ensures Lower(Lower(s)) == Lower(s)
  {
  }

  /** The e-mail passes when the allowlist is empty or the trimmed,
      lower-cased address ends with one of its entries. */
  predicate EmailAdmitted(domains: seq<string>, email: string) {
    domains == [] || exists d :: d in domains && EndsWith(Trim(Lower(email)), d)
  }

  /** An unset or blank allowlist admits every address. */
  lemma BlankAllowlistAdmitsAll(raw: string, email: string)
    requires forall c :: c in raw ==> c == ',' || IsSpace(c)
    ensures EmailAdmitted(AllowedDomains(raw), email)
  {
    var pieces := Split(raw, ',');
    var entries := Keys(pieces, TrimLower);
    forall k | 0 <= k < |entries| ensures entries[k] == "" {
      var piece := pieces[k];
      SplitPieceInside(raw, ',', k);
      forall m | 0 <= m < |piece| ensures IsSpace(piece[m]) {
        assert piece[m] in raw && piece[m] != ',';
      }
      assert IsBlank(piece);
    }
    forall d | d in entries ensures !NonEmpty(d) {
      var k :| 0 <= k < |entries| && entries[k] == d;
    }
    FilterNone(entries, NonEmpty);
  }

  lemma {:induction false} SplitPieceInside(s: string, sep: char, k: nat)
    requires k < |Split(s, sep)|
    ensures forall c :: c in Split(s, sep)[k] ==> c in s
    decreases |s|
  {
    if s != [] {
      var rest := Split(s[1..], sep);
      if s[0] == sep {
        if k > 0 {
          SplitPieceInside(s[1..], sep, k - 1);
        }
      } else if k == 0 {
        SplitPieceInside(s[1..], sep, 0);
      } else {
        SplitPieceInside(s[1..], sep, k);
      }
    }
  }

  /** The request got past the field, token and e-mail checks, so the
      username lookup is made. */
  predicate Reached(body: Option<Fields>, registerToken: Option<string>, rawDomains: Option<string>)
  {
    body.Some? && AllFilled(body.value) && Filled(registerToken) && body.value.teamToken == registerToken
    && EmailAdmitted(AllowedDomains(rawDomains.GetOr("")), body.value.email.value)
  }

  /** `POST /api/register`. `body` is None when the request body is not
      JSON (the catch-all answer); `registerToken` and `rawDomains` are the
      environment; `usernameTaken`, `auth` and `rpcError` are what the user
      lookup, the auth sign-up and `create_profile` return when they are
      reached. */
  function Post(body: Option<Fields>, registerToken: Option<string>, rawDomains: Option<string>,
                usernameTaken: bool, auth: AuthOutcome, rpcError: Option<string>): (r: Reply)
    ensures r.status in {200, 400, 403, 500}
    ensures body.None? ==> r == INTERNAL
    ensures body.Some? && !AllFilled(body.value) ==> r == MISSING
    ensures r == BAD_TOKEN <==>
      body.Some? && AllFilled(body.value) && Filled(registerToken) && body.value.teamToken != registerToken
    ensures r == OK <==>
      body.Some? && AllFilled(body.value) && Filled(registerToken) && body.value.teamToken == registerToken
      && EmailAdmitted(AllowedDomains(rawDomains.GetOr("")), body.value.email.value)
      && !usernameTaken && auth.Created? && rpcError.None?
    ensures r == EMAIL_TAKEN ==> auth == AuthFailed("User already registered") && !usernameTaken
    ensures body.Some? && AllFilled(body.value) && Filled(registerToken) && body.value.teamToken == registerToken ==>
      (r == EMAIL_REFUSED <==> !EmailAdmitted(AllowedDomains(rawDomains.GetOr("")), body.value.email.value))
    ensures Reached(body, registerToken, rawDomains) ==> (r == NAME_TAKEN <==> usernameTaken)
    ensures Reached(body, registerToken, rawDomains) && !usernameTaken ==>
      match auth
      case AuthFailed(m) => r == (if m == "User already registered" then EMAIL_TAKEN else Reply(500, m))
      case NoUser => r == Reply(500, "Failed to create account")
      case Created(_) =>
        r == (if rpcError.Some? then Reply(500, "Failed to create user profile: " + rpcError.value) else OK)
  {
    if body.None? then INTERNAL
    else
      var f := body.value;
      if !AllFilled(f) then MISSING
      else if !Filled(registerToken) then MISCONFIGURED
      else if f.teamToken != registerToken then BAD_TOKEN
      else if !EmailAdmitted(AllowedDomains(rawDomains.GetOr("")), f.email.value) then EMAIL_REFUSED
      else if usernameTaken then NAME_TAKEN
      else match auth
        case AuthFailed(m) =>
          if m == "User already registered" then EMAIL_TAKEN else Reply(500, m)
        case NoUser => Reply(500, "Failed to create account")
        case Created(_) =>
          if rpcError.Some? then Reply(500, "Failed to create user profile: " + rpcError.value) else OK
  }

  /** Nothing after a missing field matters: the token, the configuration
      and the services are never consulted. */
  lemma MissingFieldStopsFirst(f: Fields, t1: Option<string>, t2: Option<string>, d1: Option<string>, d2: Option<string>,
                               u1: bool, u2: bool, a1: AuthOutcome, a2: AuthOutcome, e1: Option<string>, e2: Option<string>)
    requires !AllFilled(f)
    ensures Post(Some(f), t1, d1, u1, a1, e1) == Post(Some(f), t2, d2, u2, a2, e2)
  {
  }

  /** An unset server token is reported before the team token is compared
      and before any service is called. */
  lemma UnsetTokenStopsNext(f: Fields, t: Option<string>, d1: Option<string>, d2: Option<string>,
                            u1: bool, u2: bool, a1: AuthOutcome, a2: AuthOutcome, e1: Option<string>, e2: Option<string>)
    requires AllFilled(f) && !Filled(t)
    ensures Post(Some(f), t, d1, u1, a1, e1) == MISCONFIGURED
    ensures Post(Some(f), t, d1, u1, a1, e1) == Post(Some(f), t, d2, u2, a2, e2)
  {
  }
}
