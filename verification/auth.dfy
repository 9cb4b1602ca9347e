/** The account handlers: signup, login, the current-user lookup and logout.
    Each takes the store and returns its reply (and the new store when it writes). */
module Auth {
  import opened Http
  import opened Schema
  import opened Crypto

  /** The `token` cookie a successful signup or login sets */
  datatype Cookie = Cookie(value: Token, maxAgeMillis: nat)

  /** The body of a successful signup or login, with the cookie set alongside it */
  datatype Session = Session(message: string, token: Token, user: PublicUser, cookie: Cookie)

  /** Signs a token for `u` valid for ten days from `now` and delivers it in a 24-hour cookie */
  function Issue(message: string, u: User, now: nat, sign: Signer): Session {
    var token := sign(u.id, now, TokenLifetimeSeconds);
    Session(message, token, Public(u), Cookie(token, CookieMaxAgeMillis))
  }

  /** `signup`: refuses an email that is already registered; otherwise stores a new
      user holding the hash of the password and opens a session for it */
  function Signup(s: Store, name: string, email: string, password: string, now: nat,
                  hash: Hasher, sign: Signer): (r: (Response<Session>, Store))
    ensures FindUserByEmail(s, email).Some? ==> r == (Fail(BadRequest, "User already exists"), s)
    ensures FindUserByEmail(s, email).None? ==>
      var id := s.nextUserId;
      && (Valid(s) ==> id !in s.users)
      && r.0.Ok?
      && r.0.body.message == "Signup successfully"
      && r.0.body.user == PublicUser(id, name, email)
      && r.0.body.token == sign(id, now, TokenLifetimeSeconds)
      && r.0.body.cookie == Cookie(r.0.body.token, CookieMaxAgeMillis)
      && r.1.users.Keys == s.users.Keys + {id}
      && r.1.users[id] == User(id, name, email, hash(password, SaltRounds))
      && (forall k :: k in s.users && k != id ==> r.1.users[k] == s.users[k])
      && r.1.articles == s.articles
      && r.1.revisions == s.revisions
  {
    match FindUserByEmail(s, email)
    case Some(_) => (Fail(BadRequest, "User already exists"), s)
    case None =>
      var user := User(s.nextUserId, name, email, hash(password, SaltRounds));
      var s' := s.(users := s.users[user.id := user], nextUserId := s.nextUserId + 1);
      (Ok(Issue("Signup successfully", user, now, sign)), s')
  }

  /** `login`: an unknown email and a wrong password get the same reply; otherwise a
      session for the user registered under that email */
  function Login(s: Store, email: string, password: string, now: nat,
                 compare: Comparer, sign: Signer): (r: Response<Session>)
    ensures r.Fail? ==> r == Fail(BadRequest, "Invalid credentials")
    ensures r.Ok? <==>
      FindUserByEmail(s, email).Some? && compare(password, FindUserByEmail(s, email).value.password)
    ensures r.Ok? ==>
      var u := FindUserByEmail(s, email).value;
      && u in s.users.Values
      && r.body.message == "Login successful"
      && r.body.user == Public(u)
      && r.body.token == sign(u.id, now, TokenLifetimeSeconds)
      && r.body.cookie == Cookie(r.body.token, CookieMaxAgeMillis)
  {
    match FindUserByEmail(s, email)
    case None => Fail(BadRequest, "Invalid credentials")
    case Some(u) =>
      if !compare(password, u.password) then Fail(BadRequest, "Invalid credentials")
      else Ok(Issue("Login successful", u, now, sign))
  }

  /** `getMe`: no cookie is a 400, a token that fails verification a 401, a verified
      token for a missing user a 404; otherwise the user's public fields */
  function GetMe(s: Store, cookie: Option<Token>, now: nat, verify: Verifier): (r: Response<PublicUser>)
    ensures r == Fail(BadRequest, "Unauthorized") <==> !Truthy(cookie)
    ensures r == Fail(Unauthorized, "Invalid token") <==>
      Truthy(cookie) && verify(cookie.value, now).Failure?
    ensures r == Fail(NotFound, "User not found") <==>
      Truthy(cookie) && verify(cookie.value, now).Success? && verify(cookie.value, now).value !in s.users
    ensures r.Ok? <==>
      Truthy(cookie) && verify(cookie.value, now).Success? && verify(cookie.value, now).value in s.users
    ensures r.Ok? ==> r.body == Public(s.users[verify(cookie.value, now).value])
  {
    if !Truthy(cookie) then Fail(BadRequest, "Unauthorized")
    else match verify(cookie.value, now)
      case Failure(_) => Fail(Unauthorized, "Invalid token")
      case Success(id) =>
        if id !in s.users then Fail(NotFound, "User not found")
        else Ok(Public(s.users[id]))
  }

  /** `logout`: clears the `token` cookie, so the client's next request carries none */
  function Logout(): (r: (Response<string>, Option<Token>))
    ensures r.0.Status() == OK
    ensures !Truthy(r.1)
  {
    (Ok("Logged out"), None)
  }

  /** The store keeps its consistency across a signup */
  lemma SignupPreservesValid(s: Store, name: string, email: string, password: string, now: nat,
                             hash: Hasher, sign: Signer)
    requires Valid(s)
    ensures Valid(Signup(s, name, email, password, now, hash, sign).1)
  {
    var s' := Signup(s, name, email, password, now, hash, sign).1;
    if FindUserByEmail(s, email).None? {
      assert s.nextUserId !in s.users;
      forall k, k' | k in s'.users && k' in s'.users && k != k'
        ensures s'.users[k].email != s'.users[k'].email
      {
        if k != s.nextUserId && k' != s.nextUserId {
          assert s'.users[k] == s.users[k] && s'.users[k'] == s.users[k'];
        }
      }
    }
  }

  /** A duplicate email creates no user: the store is returned as it was */
  lemma DuplicateSignupCreatesNoUser(s: Store, u: User, name: string, password: string, now: nat,
                                     hash: Hasher, sign: Signer)
    requires Valid(s)
    requires u.id in s.users && s.users[u.id] == u
    ensures Signup(s, name, u.email, password, now, hash, sign) == (Fail(BadRequest, "User already exists"), s)
  {
    FindUserByEmailExact(s, u);
  }

  /** Credentials that signed up successfully log in, as the same user */
  lemma SignupThenLogin(s: Store, name: string, email: string, password: string, t1: nat, t2: nat,
                        hash: Hasher, compare: Comparer, sign: Signer)
    requires Valid(s) && HashSound(hash, compare)
    requires Signup(s, name, email, password, t1, hash, sign).0.Ok?
    ensures
      var (reply, s') := Signup(s, name, email, password, t1, hash, sign);
      var r := Login(s', email, password, t2, compare, sign);
      r.Ok? && r.body.user == reply.body.user
  {
    var (reply, s') := Signup(s, name, email, password, t1, hash, sign);
    SignupPreservesValid(s, name, email, password, t1, hash, sign);
    var u := s'.users[s.nextUserId];
    assert s'.users[u.id] == u;
    FindUserByEmailExact(s', u);
  }

  /** Login does not reveal whether an email is registered: an unknown email and a
      registered email with a wrong password get identical replies */
  lemma LoginFailuresIndistinguishable(s: Store, unknown: string, p1: string, u: User, p2: string,
                                       t1: nat, t2: nat, compare: Comparer, sign: Signer)
    requires Valid(s)
    requires forall k :: k in s.users ==> s.users[k].email != unknown
    requires u.id in s.users && s.users[u.id] == u && !compare(p2, u.password)
    ensures Login(s, unknown, p1, t1, compare, sign) == Login(s, u.email, p2, t2, compare, sign)
  {
    FindUserByEmailExact(s, u);
  }

  /** The token a signup hands out identifies the new user to `getMe` until it expires */
  lemma SignupThenGetMe(s: Store, name: string, email: string, password: string, t: nat, now: nat,
                        hash: Hasher, sign: Signer, verify: Verifier)
    requires JwtSound(sign, verify)
    requires Signup(s, name, email, password, t, hash, sign).0.Ok?
    requires t <= now < t + TokenLifetimeSeconds
    ensures
      var (reply, s') := Signup(s, name, email, password, t, hash, sign);
      GetMe(s', Some(reply.body.cookie.value), now, verify) == Ok(reply.body.user)
  {
    var (reply, s') := Signup(s, name, email, password, t, hash, sign);
    assert verify(sign(s.nextUserId, t, TokenLifetimeSeconds), now) == Success(s.nextUserId);
  }

  /** A request carrying the cookie logout leaves behind gets 400 from `getMe` */
  lemma LogoutThenGetMe(s: Store, now: nat, verify: Verifier)
    ensures GetMe(s, Logout().1, now, verify).Status() == BadRequest
  {
  }
}
