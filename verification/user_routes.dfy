/**
 * app/routers/users.py: registration (no role gate) and the password
 * login that issues bearer tokens.
 */
module UserRoutes {
  import opened Wrappers
  import opened Models
  import opened Store
  import opened Http
  import opened Auth
  import opened Caching
  import opened Jwt
  import opened Passwords
  import opened Services
  import Crud

  const USERNAME_EXISTS := HttpError(400, "Username exists")
  const INCORRECT_CREDENTIALS := HttpError(401, "Incorrect credentials")

  /** What registration answers: the new row's id, username and role, never its digest. */
  datatype UserSummary = UserSummary(id: int, username: string, role: string)

  /** The `Token` response model. */
  datatype Token = Token(accessToken: string, tokenType: string)

  /** `POST /users/create`: 400 when the username is taken, otherwise 201 with the new row's summary. */
  method Create(db: Database, payload: UserCreate, salt: nat) returns (reply: Reply<UserSummary>)
    requires db.Valid()
    modifies db`users, db`nextUserId
    ensures db.Valid()
    ensures Crud.GetUserByUsername(old(db.users), payload.username).Some? ==>
      reply == Refused(USERNAME_EXISTS) && db.users == old(db.users) && db.nextUserId == old(db.nextUserId)
    ensures Crud.GetUserByUsername(old(db.users), payload.username).None? ==>
      && reply == Success(201, UserSummary(old(db.nextUserId), payload.username, payload.role))
      && db.users == old(db.users)[old(db.nextUserId) := NewUser(old(db.nextUserId), payload, salt)]
      && db.nextUserId == old(db.nextUserId) + 1
  {
    var svc := new UserService(db);
    if Crud.GetUserByUsername(db.users, payload.username).Some? {
      return Refused(USERNAME_EXISTS);
    }
    var r := svc.Create(payload, salt);
    var u := r.value;
    reply := Success(201, UserSummary(u.id, u.username, u.role));
  }

  /** The token `/users/token` issues to `u` at `now`: its username and stored role, valid for the default day. */
  function IssuedToken(u: User, now: int): string {
    Encode(Payload(Claims(Some(u.username), Some(u.role)), ExpiryOf(now, None)))
  }

  /**
   * `POST /users/token`: 401 for an unknown username and for a wrong
   * password alike; otherwise a bearer token, with its session recorded.
   */
  method Login(db: Database, cache: Cache, username: string, password: string, now: int, fault: bool) returns (reply: Reply<Token>)
    modifies cache`entries
    ensures Crud.AuthenticateUser(db.users, username, password).None? ==>
      reply == Refused(INCORRECT_CREDENTIALS) && cache.entries == old(cache.entries)
    ensures Crud.AuthenticateUser(db.users, username, password).Some? ==>
      var u := Crud.AuthenticateUser(db.users, username, password).value;
      && reply == Success(200, Token(IssuedToken(u, now), "bearer"))
      && cache.entries == if cache.client && !fault
                          then AfterSession(old(cache.entries), cache.clock, SessionKey(IssuedToken(u, now)),
                                            map["username" := u.username, "role" := u.role])
                          else old(cache.entries)
  {
    var found := Crud.AuthenticateUser(db.users, username, password);
    if found.None? {
      return Refused(INCORRECT_CREDENTIALS);
    }
    var u := found.value;
    var token := CreateAccessToken(cache, Claims(Some(u.username), Some(u.role)), None, now, fault);
    reply := Success(200, Token(token, "bearer"));
  }

  /**
   * A user whose stored digest verifies the password logs in as that row,
   * and the token works for one day: until then it passes a gate exactly
   * when the user's stored role is one of the gate's roles; after that
   * every gate answers 401.
   */
  lemma LoginTokenGrantsStoredRole(roles: set<string>, users: map<int, User>, k: int, password: string, now: int, later: int)
    requires UniqueUsernames(users) && k in users && VerifyPassword(password, users[k].hashedPassword)
    ensures Crud.AuthenticateUser(users, users[k].username, password) == Some(users[k])
    ensures now <= later <= now + 86400 ==>
              RequireRoles(roles, users, IssuedToken(users[k], now), later) == if users[k].role in roles then Ok(users[k]) else Err(FORBIDDEN)
    ensures now + 86400 < later ==> RequireRoles(roles, users, IssuedToken(users[k], now), later) == Err(CREDENTIALS_ERROR)
  {
    var u := users[k];
    Crud.GetUserByUsernameUnique(users, k);
    var claims := Claims(Some(u.username), Some(u.role));
    TokenLifetime(claims, now, None, later);
    if later <= now + 86400 {
      if now <= later {
        IssuedTokenAuthorizes(roles, users, k, Some(u.role), now + 86400, later);
      }
    } else {
      ExpiredTokenRejected(roles, users, claims, now + 86400, later);
    }
  }

  /**
   * Registration, login and the gate end to end: a newly registered user
   * logs in with the registered password, and for the next day the token
   * passes exactly the gates that list the registered role.
   */
  lemma RegisterThenLogin(roles: set<string>, users: map<int, User>, id: int, payload: UserCreate, salt: nat, now: int, later: int)
    requires UniqueUsernames(users) && id !in users
    requires Crud.GetUserByUsername(users, payload.username).None?
    requires now <= later <= now + 86400
    ensures var after := users[id := NewUser(id, payload, salt)];
            && Crud.AuthenticateUser(after, payload.username, payload.password) == Some(NewUser(id, payload, salt))
            && RequireRoles(roles, after, IssuedToken(NewUser(id, payload, salt), now), later)
               == if payload.role in roles then Ok(NewUser(id, payload, salt)) else Err(FORBIDDEN)
  {
    var u := NewUser(id, payload, salt);
    var after := users[id := u];
    Crud.AuthenticateNewUser(users, id, payload, salt, payload.password);
    AddKeepsUsernamesUnique(users, id, u);
    LoginTokenGrantsStoredRole(roles, after, id, payload.password, now, later);
  }
}
