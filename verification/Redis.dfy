// The keyed store with expiries that holds every one-time code, temporary token,
// grace entry and counter of the authentication code.
module Redis {

  import opened Options

  // Milliseconds since the epoch.
  type Millis = nat

  // An opaque random or signed string.
  type Token = string

  // SHA-256 is treated symbolically: a hash remembers the token it came from, so
  // hashing is injective and nothing else is assumed of it.
  datatype TokenHash = TokenHash(of: Token)

  // One constructor per key family. RenderInjective below shows that the strings
  // sent to the store keep these keys apart.
  datatype Key =
    | OtpVerify(email: string)
    | OtpPwd(email: string)
    | OtpResend(email: string)
    | ResetSession(token: Token)
    | MfaTemp(token: Token)
    | Grace(hash: TokenHash)
    | MfaSetup(userId: string)

  datatype Value =
    | OtpValue(otp: string, userId: string)
    | CountValue(count: nat)
    | UserRef(userId: string)
    | SessionRef(sid: string)
    | SecretValue(secret: string)

  // `expiresAt` is absent for a value stored without a time to live.
  datatype Entry = Entry(value: Value, expiresAt: Option<Millis>)

  type Store = map<Key, Entry>

  predicate Alive(e: Entry, now: Millis) {
    e.expiresAt.Some? ==> now < e.expiresAt.value
  }

  function Put(store: Store, now: Millis, key: Key, value: Value, ttlSeconds: nat): Store {
    store[key := Entry(value, if ttlSeconds > 0 then Some(now + 1000 * ttlSeconds) else None)]
  }

  function Get(store: Store, now: Millis, key: Key): Option<Value> {
    if key in store && Alive(store[key], now) then Some(store[key].value) else None
  }

  function Del(store: Store, key: Key): Store {
    store - {key}
  }

  // What was written is read back until its time to live is over, for ever if that is not
  // positive; other keys are as they were.
  lemma ReadAfterWrite(store: Store, now: Millis, key: Key, value: Value, ttlSeconds: nat, later: Millis, other: Key)
    ensures Get(Put(store, now, key, value, ttlSeconds), later, key)
            == if ttlSeconds == 0 || later < now + 1000 * ttlSeconds then Some(value) else None
    ensures other != key ==> Get(Put(store, now, key, value, ttlSeconds), later, other) == Get(store, later, other)
    ensures Get(Del(store, key), later, other) == if other == key then None else Get(store, later, other)
  {
  }

  // ---- The strings behind the keys ----

  function Prefix(key: Key): string {
    match key
    case OtpVerify(_) => "jl:otp:verify:"
    case OtpPwd(_) => "jl:otp:pwd:"
    case OtpResend(_) => "jl:otp:resend:"
    case ResetSession(_) => "jl:reset:session:"
    case MfaTemp(_) => "jl:mfa:temp:"
    case Grace(_) => "jl:auth:grace:"
    case MfaSetup(_) => "jl:mfa:setup:"
  }

  // `digest` stands for the hexadecimal form of a hash.
  function Suffix(key: Key, digest: TokenHash -> string): string {
    match key
    case OtpVerify(e) => e
    case OtpPwd(e) => e
    case OtpResend(e) => e
    case ResetSession(t) => t
    case MfaTemp(t) => t
    case Grace(h) => digest(h)
    case MfaSetup(u) => u
  }

  function Render(key: Key, digest: TokenHash -> string): string {
    Prefix(key) + Suffix(key, digest)
  }

  // The fourth and eighth characters tell the seven prefixes apart.
  function Mark(key: Key): (char, char) {
    match key
    case OtpVerify(_) => ('o', 'v')
    case OtpPwd(_) => ('o', 'p')
    case OtpResend(_) => ('o', 'r')
    case ResetSession(_) => ('r', 't')
    case MfaTemp(_) => ('m', 't')
    case Grace(_) => ('a', ':')
    case MfaSetup(_) => ('m', 's')
  }

  lemma PrefixMark(key: Key)
    ensures |Prefix(key)| > 7 && (Prefix(key)[3], Prefix(key)[7]) == Mark(key)
  {
  }

  lemma SamePrefix(a: Key, b: Key)
    requires Mark(a) == Mark(b)
    ensures Prefix(a) == Prefix(b)
  {
  }

  lemma RenderedMark(key: Key, digest: TokenHash -> string)
    ensures var s := Render(key, digest); |s| > 7 && (s[3], s[7]) == Mark(key)
  {
    PrefixMark(key);
  }

  lemma RenderedSuffix(key: Key, digest: TokenHash -> string)
    ensures |Render(key, digest)| >= |Prefix(key)|
    ensures Render(key, digest)[|Prefix(key)|..] == Suffix(key, digest)
  {
  }

  // Two keys that render to the same string are the same key, whatever e-mail
  // address, token or user id they carry.
  lemma RenderInjective(a: Key, b: Key, digest: TokenHash -> string)
    requires forall g, h :: digest(g) == digest(h) ==> g == h
    requires Render(a, digest) == Render(b, digest)
    ensures a == b
  {
    RenderedMark(a, digest);
    RenderedMark(b, digest);
    assert Mark(a) == Mark(b);
    SamePrefix(a, b);
    RenderedSuffix(a, digest);
    RenderedSuffix(b, digest);
    assert Suffix(a, digest) == Suffix(b, digest);
  }

  class RedisService {
    var store: Store

    constructor ()
      ensures store == map[]
    {
      store := map[];
    }

    method Set(now: Millis, key: Key, value: Value, ttlSeconds: nat)
      modifies this
      ensures store == Put(old(store), now, key, value, ttlSeconds)
    {
      if ttlSeconds > 0 {
        store := store[key := Entry(value, Some(now + 1000 * ttlSeconds))];
      } else {
        store := store[key := Entry(value, None)];
      }
    }

    method Fetch(now: Millis, key: Key) returns (r: Option<Value>)
      ensures r == Get(store, now, key)
    {
      if key !in store || !Alive(store[key], now) {
        return None;
      }
      return Some(store[key].value);
    }

    method Remove(key: Key)
      modifies this
      ensures store == Del(old(store), key)
    {
      store := store - {key};
    }
  }
}
