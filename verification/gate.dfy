/** The authentication middleware that runs before every article handler */
module Gate {
  import opened Http
  import opened Schema
  import opened Crypto
  import Auth

  /** `Reject` is a 401 reply with `next` never called; `Next(user)` is setting
      `req.user` and calling `next()` once */
  datatype GateOutcome = Reject(status: int, message: string) | Next(user: User)

  /** The middleware: a token cookie must be present, verify, and name a stored user */
  function Authenticate(s: Store, cookie: Option<Token>, now: nat, verify: Verifier): (g: GateOutcome)
    ensures g.Reject? ==> g.status == Unauthorized
    ensures !Truthy(cookie) ==> g == Reject(Unauthorized, "Authentication token not found in cookies")
    ensures Truthy(cookie) && verify(cookie.value, now).Failure? ==>
      g == Reject(Unauthorized, "Invalid or expired token")
    ensures Truthy(cookie) && verify(cookie.value, now).Success? && verify(cookie.value, now).value !in s.users ==>
      g == Reject(Unauthorized, "Invalid token: user not found")
    ensures Truthy(cookie) && verify(cookie.value, now).Success? && verify(cookie.value, now).value in s.users ==>
      g == Next(s.users[verify(cookie.value, now).value])
    ensures g.Next? ==>
      && Truthy(cookie) && verify(cookie.value, now).Success?
      && verify(cookie.value, now).value in s.users
      && g.user == s.users[verify(cookie.value, now).value]
  {
    if !Truthy(cookie) then Reject(Unauthorized, "Authentication token not found in cookies")
    else match verify(cookie.value, now)
      case Failure(_) => Reject(Unauthorized, "Invalid or expired token")
      case Success(id) =>
        if id !in s.users then Reject(Unauthorized, "Invalid token: user not found")
        else Next(s.users[id])
  }

  /** In a consistent store the attached user carries the id the token names */
  lemma AttachedUserHasTokenId(s: Store, cookie: Option<Token>, now: nat, verify: Verifier)
    requires Valid(s)
    requires Authenticate(s, cookie, now, verify).Next?
    ensures Authenticate(s, cookie, now, verify).user.id == verify(cookie.value, now).value
  {
  }

  /** The middleware lets a request through exactly when `getMe` succeeds for the same
      cookie, with the same user; where they refuse they differ only in status:
      no cookie is 401 here but 400 there, a missing user 401 here but 404 there */
  lemma GateAgreesWithGetMe(s: Store, cookie: Option<Token>, now: nat, verify: Verifier)
    ensures
      var g := Authenticate(s, cookie, now, verify);
      var m := Auth.GetMe(s, cookie, now, verify);
      && (g.Next? <==> m.Ok?)
      && (g.Next? ==> m.body == Public(g.user))
      && (!Truthy(cookie) ==> g.status == Unauthorized && m.Status() == BadRequest)
      && (g == Reject(Unauthorized, "Invalid token: user not found") <==> m.Status() == NotFound)
  {
  }

  /** A token from a successful login opens the gate, for that user, until it expires */
  lemma LoginThenGate(s: Store, email: string, password: string, t: nat, now: nat,
                      compare: Comparer, sign: Signer, verify: Verifier)
    requires Valid(s) && JwtSound(sign, verify)
    requires Auth.Login(s, email, password, t, compare, sign).Ok?
    requires t <= now < t + TokenLifetimeSeconds
    ensures
      var session := Auth.Login(s, email, password, t, compare, sign).body;
      var g := Authenticate(s, Some(session.cookie.value), now, verify);
      g.Next? && Public(g.user) == session.user
  {
    var u := FindUserByEmail(s, email).value;
    assert sign(u.id, t, TokenLifetimeSeconds) != "";
    assert verify(sign(u.id, t, TokenLifetimeSeconds), now) == Success(u.id);
  }

  /** A request carrying the cookie logout leaves behind is refused */
  lemma LogoutThenGate(s: Store, now: nat, verify: Verifier)
    ensures Authenticate(s, Auth.Logout().1, now, verify).Reject?
  {
  }

  /** Logout revokes nothing: it only clears the client's cookie, so the token the
      login reply also carried in its body still opens the gate until it expires */
  lemma LogoutRevokesNothing(s: Store, email: string, password: string, t: nat, now: nat,
                             compare: Comparer, sign: Signer, verify: Verifier)
    requires Valid(s) && JwtSound(sign, verify)
    requires Auth.Login(s, email, password, t, compare, sign).Ok?
    requires t <= now < t + TokenLifetimeSeconds
    ensures
      var session := Auth.Login(s, email, password, t, compare, sign).body;
      var (reply, cleared) := Auth.Logout();
      && reply.Status() == OK
      && Authenticate(s, cleared, now, verify).Reject?
      && Authenticate(s, Some(session.token), now, verify).Next?
      && Public(Authenticate(s, Some(session.token), now, verify).user) == session.user
  {
    LoginThenGate(s, email, password, t, now, compare, sign, verify);
  }
}
