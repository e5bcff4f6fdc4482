/**
 * app/auth.py: issuing access tokens, resolving the bearer token to a
 * user, and the role gate every protected route declares.
 */
module Auth {
  import opened Wrappers
  import opened Models
  import opened Jwt
  import opened Caching
  import opened Http
  import Crud

  /** One day, in minutes. */
  const ACCESS_TOKEN_EXPIRE_MINUTES := 60 * 24

  /** `utcnow() + timedelta(minutes=expires_delta or ACCESS_TOKEN_EXPIRE_MINUTES)`, in seconds. */
  function ExpiryOf(now: int, expiresDelta: Option<int>): (exp: int)
    ensures expiresDelta.None? || expiresDelta == Some(0) ==> exp == now + 86400
    ensures expiresDelta.Some? && expiresDelta.value != 0 ==> exp == now + 60 * expiresDelta.value
  {
    var minutes := match expiresDelta
                   case Some(m) => if m != 0 then m else ACCESS_TOKEN_EXPIRE_MINUTES
                   case None => ACCESS_TOKEN_EXPIRE_MINUTES;
    now + 60 * minutes
  }

  /** The session record `create_access_token` stores: a missing claim becomes "". */
  function SessionFields(data: Claims): (fields: map<string, string>)
    ensures fields.Keys == {"username", "role"}
    ensures fields["username"] == data.sub.GetOr("") && fields["role"] == data.role.GetOr("")
  {
    map["username" := data.sub.GetOr(""), "role" := data.role.GetOr("")]
  }

  /** A token issued at `now` decodes to its claims until its expiry and to nothing after it; the default expiry is one day. */
  lemma TokenLifetime(data: Claims, now: int, expiresDelta: Option<int>, later: int)
    ensures var exp := ExpiryOf(now, expiresDelta);
            Decode(Encode(Payload(data, exp)), later) == if later <= exp then Some(Payload(data, exp)) else None
    ensures expiresDelta.None? || expiresDelta == Some(0) ==> ExpiryOf(now, expiresDelta) == now + 86400
    ensures expiresDelta.Some? && expiresDelta.value != 0 ==> ExpiryOf(now, expiresDelta) == now + 60 * expiresDelta.value
  {
    var exp := ExpiryOf(now, expiresDelta);
    if later <= exp {
      DecodeEncode(Payload(data, exp), later);
    } else {
      DecodeExpired(Payload(data, exp), later);
    }
  }

  /** `create_access_token`: the token carries the claims and the expiry; the session store is written best-effort. */
  method CreateAccessToken(cache: Cache, data: Claims, expiresDelta: Option<int>, now: int, fault: bool) returns (token: string)
    modifies cache`entries
    ensures token == Encode(Payload(data, ExpiryOf(now, expiresDelta)))
    ensures cache.entries == if cache.client && !fault
                             then AfterSession(old(cache.entries), cache.clock, SessionKey(token), SessionFields(data))
                             else old(cache.entries)
  {
    token := Encode(Payload(data, ExpiryOf(now, expiresDelta)));
    cache.CreateSession(token, SessionFields(data), fault);
  }

  /** Why `get_current_user` refuses a token. */
  datatype AuthFailure = BadToken | MissingSubject | UnknownSubject

  /**
   * `get_current_user` before the failures are merged into one 401: the
   * user row named by the token's `sub`. The `role` claim is read and not
   * used.
   */
  function CurrentUser(users: map<int, User>, token: string, now: int): (r: Result<User, AuthFailure>)
    ensures r == Err(BadToken) <==> Decode(token, now).None?
    ensures r == Err(MissingSubject) <==> Decode(token, now).Some? && Decode(token, now).value.claims.sub.None?
    ensures r.Ok? ==> && r.value in users.Values
                      && Decode(token, now).Some? && Decode(token, now).value.claims.sub == Some(r.value.username)
    ensures r == Err(UnknownSubject) ==> && Decode(token, now).Some? && Decode(token, now).value.claims.sub.Some?
                                          && forall k :: k in users ==> users[k].username != Decode(token, now).value.claims.sub.value
  {
    match Decode(token, now)
    case None => Err(BadToken)
    case Some(payload) =>
      match payload.claims.sub
      case None => Err(MissingSubject)
      case Some(username) =>
        match Crud.GetUserByUsername(users, username)
        case None => Err(UnknownSubject)
        case Some(u) => Ok(u)
  }

  const CREDENTIALS_ERROR := HttpError(401, "Could not validate credentials")
  const FORBIDDEN := HttpError(403, "Operation not permitted")

  /** `get_current_user`: every failure is the same 401. */
  function GetCurrentUser(users: map<int, User>, token: string, now: int): (r: Result<User, HttpError>)
    ensures r.Err? <==> CurrentUser(users, token, now).Err?
    ensures r.Err? ==> r.error == CREDENTIALS_ERROR
    ensures r.Ok? ==> r.value == CurrentUser(users, token, now).value
  {
    match CurrentUser(users, token, now)
    case Ok(u) => Ok(u)
    case Err(_) => Err(CREDENTIALS_ERROR)
  }

  /**
   * `require_roles(*roles)`: the stored user's role must be one of `roles`
   * exactly (no role implies another). Authentication is checked first: a
   * bad token is a 401 whatever the roles.
   */
  function RequireRoles(roles: set<string>, users: map<int, User>, token: string, now: int): (r: Result<User, HttpError>)
    ensures GetCurrentUser(users, token, now).Err? ==> r == GetCurrentUser(users, token, now)
    ensures GetCurrentUser(users, token, now).Ok? ==>
      r == if GetCurrentUser(users, token, now).value.role in roles
           then GetCurrentUser(users, token, now)
           else Err(FORBIDDEN)
  {
    match GetCurrentUser(users, token, now)
    case Err(e) => Err(e)
    case Ok(u) => if u.role in roles then Ok(u) else Err(FORBIDDEN)
  }

  /** An unexpired token naming a stored user resolves to that user, whatever role it claims. */
  lemma IssuedTokenAuthenticates(users: map<int, User>, k: int, role: Option<string>, exp: int, now: int)
    requires UniqueUsernames(users) && k in users && now <= exp
    ensures CurrentUser(users, Encode(Payload(Claims(Some(users[k].username), role), exp)), now) == Ok(users[k])
  {
    DecodeEncode(Payload(Claims(Some(users[k].username), role), exp), now);
    Crud.GetUserByUsernameUnique(users, k);
  }

  /** Such a token passes the gate exactly when the stored role is one of the gate's roles. */
  lemma IssuedTokenAuthorizes(roles: set<string>, users: map<int, User>, k: int, role: Option<string>, exp: int, now: int)
    requires UniqueUsernames(users) && k in users && now <= exp
    ensures RequireRoles(roles, users, Encode(Payload(Claims(Some(users[k].username), role), exp)), now)
         == if users[k].role in roles then Ok(users[k]) else Err(FORBIDDEN)
  {
    IssuedTokenAuthenticates(users, k, role, exp, now);
  }

  /** An expired token is a 401 on every protected route. */
  lemma ExpiredTokenRejected(roles: set<string>, users: map<int, User>, claims: Claims, exp: int, now: int)
    requires exp < now
    ensures RequireRoles(roles, users, Encode(Payload(claims, exp)), now) == Err(CREDENTIALS_ERROR)
  {
    DecodeExpired(Payload(claims, exp), now);
  }

  /** The gate's verdict does not depend on the `role` claim of the token. */
  lemma RoleClaimIgnored(roles: set<string>, users: map<int, User>, sub: Option<string>, role1: Option<string>, role2: Option<string>, exp: int, now: int)
    ensures RequireRoles(roles, users, Encode(Payload(Claims(sub, role1), exp)), now)
         == RequireRoles(roles, users, Encode(Payload(Claims(sub, role2), exp)), now)
  {
    if now <= exp {
      DecodeEncode(Payload(Claims(sub, role1), exp), now);
      DecodeEncode(Payload(Claims(sub, role2), exp), now);
    } else {
      DecodeExpired(Payload(Claims(sub, role1), exp), now);
      DecodeExpired(Payload(Claims(sub, role2), exp), now);
    }
    SameSubjectSameVerdict(roles, users, Encode(Payload(Claims(sub, role1), exp)), Encode(Payload(Claims(sub, role2), exp)), now);
  }

  /** Two tokens that decode alike up to their `role` claim get the same verdict. */
  lemma SameSubjectSameVerdict(roles: set<string>, users: map<int, User>, t1: string, t2: string, now: int)
    requires Decode(t1, now).None? <==> Decode(t2, now).None?
    requires Decode(t1, now).Some? ==> Decode(t1, now).value.claims.sub == Decode(t2, now).value.claims.sub
    ensures RequireRoles(roles, users, t1, now) == RequireRoles(roles, users, t2, now)
  {
  }
}
