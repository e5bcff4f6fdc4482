/**
 * The best-effort cache of app/cache.py: a `Cache` over an optional Redis
 * client. The Redis keyspace is a map from key to entry with an expiry
 * time on the server's clock. Every Redis call can raise; the cache logs
 * and swallows that, so each operation takes a `fault` flag saying whether
 * the call raised, and a faulty call behaves like a missing client.
 */
module Caching {
  import opened Wrappers
  import opened Models

  /** Default lifetime of a cached value, in seconds. */
  const CACHE_TTL := 300
  /** Lifetime of a session record, in seconds. */
  const SESSION_TTL := 86400

  /** The documents the routers cache as JSON. */
  datatype Doc = MedicineList(items: seq<Medicine>) | PatientRecord(patient: Patient)

  /**
   * A stored string: a `str` value stored as given, or the `json.dumps` text
   * of any other value, represented by the document it encodes
   * (`json.loads` gives that document back).
   */
  datatype Blob = Text(s: string) | Json(doc: Doc)

  /** Python truthiness of the stored string: only the empty string is false (JSON text never is empty). */
  predicate Truthy(b: Blob) {
    match b
    case Text(s) => s != ""
    case Json(_) => true
  }

  datatype Entry = Str(blob: Blob, expiresAt: int) | Hash(fields: map<string, string>, expiresAt: int)

  /** Redis keeps an entry until its expiry time. */
  predicate Live(entries: map<string, Entry>, clock: int, key: string) {
    key in entries && clock < entries[key].expiresAt
  }

  /** GET: the live string under `key`; GET on a hash is a WRONGTYPE error, which comes back as None. */
  function Lookup(entries: map<string, Entry>, clock: int, key: string): Option<Blob> {
    if Live(entries, clock, key) && entries[key].Str? then Some(entries[key].blob) else None
  }

  /** SETEX: replaces whatever lives under `key`; a TTL that is not positive is an error and writes nothing. */
  function AfterSet(entries: map<string, Entry>, clock: int, key: string, blob: Blob, ttl: int): map<string, Entry> {
    if ttl > 0 then entries[key := Str(blob, clock + ttl)] else entries
  }

  /** HGETALL: the fields of the live hash under `key`, `{}` when nothing lives there, None (WRONGTYPE) for a string. */
  function HashFields(entries: map<string, Entry>, clock: int, key: string): Option<map<string, string>> {
    if !Live(entries, clock, key) then Some(map[])
    else if entries[key].Hash? then Some(entries[key].fields)
    else None
  }

  /**
   * HSET then EXPIRE: merges `fields` into the hash under `key` and gives it
   * the session lifetime. HSET with no field, or on a string, raises and
   * writes nothing.
   */
  function AfterSession(entries: map<string, Entry>, clock: int, key: string, fields: map<string, string>): map<string, Entry> {
    if fields == map[] then entries
    else
      match HashFields(entries, clock, key)
      case None => entries
      case Some(current) => entries[key := Hash(current + fields, clock + SESSION_TTL)]
  }

  /** The key a session record lives under. */
  function SessionKey(token: string): (key: string)
    ensures |key| == |token| + 8 && key[..8] == "session:" && key[8..] == token
  {
    "session:" + token
  }

  /** Within its TTL, GET returns exactly what SETEX stored; afterwards nothing. */
  lemma SetThenGet(entries: map<string, Entry>, clock: int, key: string, blob: Blob, ttl: int, later: int)
    requires ttl > 0 && clock <= later
    ensures Lookup(AfterSet(entries, clock, key, blob, ttl), later, key)
         == if later < clock + ttl then Some(blob) else None
  {
  }

  /** SETEX under one key leaves every other key as it was. */
  lemma SetKeepsOtherKeys(entries: map<string, Entry>, clock: int, key: string, blob: Blob, ttl: int, other: string, later: int)
    requires other != key
    ensures Lookup(AfterSet(entries, clock, key, blob, ttl), later, other) == Lookup(entries, later, other)
    ensures HashFields(AfterSet(entries, clock, key, blob, ttl), later, other) == HashFields(entries, later, other)
  {
  }

  /** A session written under a fresh key reads back as the written mapping for a day. */
  lemma SessionThenRead(entries: map<string, Entry>, clock: int, token: string, fields: map<string, string>, later: int)
    requires fields != map[] && !Live(entries, clock, SessionKey(token))
    requires clock <= later < clock + SESSION_TTL
    ensures HashFields(AfterSession(entries, clock, SessionKey(token), fields), later, SessionKey(token)) == Some(fields)
  {
    assert map[] + fields == fields;
  }

  class Cache {
    /** Whether a client was connected at start-up (`redis_client` is not None). */
    const client: bool
    var entries: map<string, Entry>
    /** The Redis server's clock, in seconds. */
    var clock: int

    /**
     * `Cache(redis_client)`: the client connected at start-up (or none)
     * to a Redis database that holds `entries` at time `clock`. The
     * database outlives the application, so it need not start empty.
     */
    constructor (client: bool, entries: map<string, Entry>, clock: int)
      ensures this.client == client && this.entries == entries && this.clock == clock
    {
      this.client := client;
      this.entries := entries;
      this.clock := clock;
    }

    /** `get`: None without a client or on an error; otherwise what GET returns. */
    method Get(key: string, fault: bool) returns (v: Option<Blob>)
      ensures !client || fault ==> v.None?
      ensures client && !fault ==> v == Lookup(entries, clock, key)
    {
      if !client || fault {
        return None;
      }
      v := Lookup(entries, clock, key);
    }

    /** `set`: a no-op without a client or on an error; otherwise SETEX. */
    method Set(key: string, value: Blob, ttl: int, fault: bool)
      modifies this`entries
      ensures entries == if client && !fault then AfterSet(old(entries), clock, key, value, ttl) else old(entries)
    {
      if !client || fault {
        return;
      }
      entries := AfterSet(entries, clock, key, value, ttl);
    }

    /** `create_session`: the mapping under `session:<token>` for SESSION_TTL seconds, best effort. */
    method CreateSession(token: string, payload: map<string, string>, fault: bool)
      modifies this`entries
      ensures entries == if client && !fault then AfterSession(old(entries), clock, SessionKey(token), payload) else old(entries)
    {
      if !client || fault {
        return;
      }
      entries := AfterSession(entries, clock, SessionKey(token), payload);
    }

    /** `get_session`: the mapping under `session:<token>`, None when it is empty or on any failure. */
    method GetSession(token: string, fault: bool) returns (d: Option<map<string, string>>)
      ensures d.Some? ==> client && !fault && d.value != map[]
      ensures d.Some? <==> client && !fault && HashFields(entries, clock, SessionKey(token)).Some?
                           && HashFields(entries, clock, SessionKey(token)).value != map[]
      ensures d.Some? ==> HashFields(entries, clock, SessionKey(token)) == d
    {
      if !client || fault {
        return None;
      }
      match HashFields(entries, clock, SessionKey(token))
      case None =>
        d := None;
      case Some(fields) =>
        d := if fields == map[] then None else Some(fields);
    }
  }
}
