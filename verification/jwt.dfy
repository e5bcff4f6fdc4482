/**
 * The token codec (`jose.jwt` with HS256 in app/auth.py) as a stand-in: a
 * token is a text that carries its claims and expiry, and decoding reads
 * them back and refuses a malformed or expired token. Signing is not
 * modelled: every well-formed text decodes.
 */
module Jwt {
  import opened Wrappers
  import opened Text

  /** The claims the clinic puts in a token: `sub` and `role`, each possibly absent. */
  datatype Claims = Claims(sub: Option<string>, role: Option<string>)

  /** What is signed: the caller's claims plus `exp` (seconds since the epoch). */
  datatype Payload = Payload(claims: Claims, exp: int)

  /** Each character behind a `+`, then a closing `.`. */
  function Quote(s: string): string {
    if s == [] then "." else ['+', s[0]] + Quote(s[1..])
  }

  function Field(f: Option<string>): string {
    match f
    case None => "~"
    case Some(s) => "=" + Quote(s)
  }

  /** `jwt.encode`: the text of a payload. */
  function Encode(p: Payload): string {
    Field(p.claims.sub) + Field(p.claims.role) + IntToString(p.exp)
  }

  function ParseQuoted(t: string): Option<(string, string)> {
    if |t| == 0 then None
    else if t[0] == '.' then Some(([], t[1..]))
    else if t[0] == '+' && |t| >= 2 then
      match ParseQuoted(t[2..])
      case Some((s, rest)) => Some(([t[1]] + s, rest))
      case None => None
    else None
  }

  function ParseField(t: string): Option<(Option<string>, string)> {
    if |t| > 0 && t[0] == '~' then Some((None, t[1..]))
    else if |t| > 0 && t[0] == '=' then
      match ParseQuoted(t[1..])
      case Some((s, rest)) => Some((Some(s), rest))
      case None => None
    else None
  }

  /**
   * `jwt.decode`: None (a `JWTError`) for a text that is not a token or
   * whose `exp` lies before `now`.
   */
  function Decode(token: string, now: int): (r: Option<Payload>)
    ensures r.Some? ==> now <= r.value.exp
  {
    match ParseField(token)
    case None => None
    case Some((sub, afterSub)) =>
      match ParseField(afterSub)
      case None => None
      case Some((role, afterRole)) =>
        match ParseInt(afterRole)
        case None => None
        case Some(exp) => if exp < now then None else Some(Payload(Claims(sub, role), exp))
  }

  lemma {:induction false} ParseQuotedRoundTrip(s: string, rest: string)
    ensures ParseQuoted(Quote(s) + rest) == Some((s, rest))
  {
    if s != [] {
      var t := Quote(s) + rest;
      assert t == ['+', s[0]] + (Quote(s[1..]) + rest);
      assert t[2..] == Quote(s[1..]) + rest;
      ParseQuotedRoundTrip(s[1..], rest);
      assert [s[0]] + s[1..] == s;
    }
  }

  lemma ParseFieldRoundTrip(f: Option<string>, rest: string)
    ensures ParseField(Field(f) + rest) == Some((f, rest))
  {
    if f.Some? {
      assert (Field(f) + rest)[1..] == Quote(f.value) + rest;
      ParseQuotedRoundTrip(f.value, rest);
    }
  }

  /** A token decodes to exactly what was encoded, until it expires. */
  lemma DecodeEncode(p: Payload, now: int)
    requires now <= p.exp
    ensures Decode(Encode(p), now) == Some(p)
  {
    var roleAndExp := Field(p.claims.role) + IntToString(p.exp);
    assert Encode(p) == Field(p.claims.sub) + roleAndExp;
    ParseFieldRoundTrip(p.claims.sub, roleAndExp);
    ParseFieldRoundTrip(p.claims.role, IntToString(p.exp));
    IntToStringRoundTrip(p.exp);
  }

  /** Once `exp` has passed, the same token no longer decodes. */
  lemma DecodeExpired(p: Payload, now: int)
    requires p.exp < now
    ensures Decode(Encode(p), now) == None
  {
    var roleAndExp := Field(p.claims.role) + IntToString(p.exp);
    assert Encode(p) == Field(p.claims.sub) + roleAndExp;
    ParseFieldRoundTrip(p.claims.sub, roleAndExp);
    ParseFieldRoundTrip(p.claims.role, IntToString(p.exp));
    IntToStringRoundTrip(p.exp);
  }
}
