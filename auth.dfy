/**
 * lib/auth.ts: password hashing, session tokens, and finding the session token in a request.
 *
 * bcrypt and the JSON Web Token library are foreign code. Each is a value of function fields
 * (`Hasher`, `TokenCodec`) together with a predicate stating what is assumed of it; the
 * lemmas that need those assumptions take the predicate as a precondition.
 */
module Auth {
  import opened Wrappers
  import opened Text
  import opened Http

  /** The bcrypt work factor. */
  const BcryptCost: nat := 12
  /** The name of the session cookie. */
  const SessionCookie: string := "admin-token"
  /** The JWT lifetime, `'24h'`, in seconds; also the login cookie's Max-Age. */
  const TokenLifetime: int := 24 * 60 * 60
  /** The protected-header algorithm: HMAC with SHA-256 (section 3.2 of RFC 7518). */
  const TokenAlgorithm: string := "HS256"

  // ---------------------------------------------------------------------------------------
  // Passwords

  /** bcrypt: `hash(password, cost, salt)` builds a self-describing hash; `compare(password, hash)` checks one. */
  datatype Hasher = Hasher(hash: (string, nat, string) -> string, compare: (string, string) -> bool)

  /** What is assumed of bcrypt: a password always verifies against a hash made from it. */
  ghost predicate HasherSound(h: Hasher) {
    forall password, cost, salt :: h.compare(password, h.hash(password, cost, salt))
  }

  /** `hashPassword`: bcrypt with cost 12. The random salt bcrypt draws is the `salt` argument. */
  function HashPassword(h: Hasher, password: string, salt: string): (hashed: string)
    ensures HasherSound(h) ==> VerifyPassword(h, password, hashed)
  {
    h.hash(password, BcryptCost, salt)
  }

  /** `verifyPassword`: bcrypt's compare. */
  function VerifyPassword(h: Hasher, password: string, hashed: string): bool {
    h.compare(password, hashed)
  }

  // ---------------------------------------------------------------------------------------
  // Tokens

  /** The identity a session token carries. */
  datatype Identity = Identity(id: string, email: string, name: string)

  /** A token's payload: the identity plus the `iat` and `exp` claims (sections 4.1.6 and 4.1.4 of RFC 7519), in seconds. */
  datatype Claims = Claims(id: string, email: string, name: string, iat: int, exp: int)

  /** A signed token's content: the protected header's algorithm and the payload. */
  datatype Jws = Jws(alg: string, claims: Claims)

  /**
   * The JSON Web Token library under the server's secret: `sign` makes the compact
   * serialisation, `open` checks the signature and decodes, giving `None` on any failure.
   */
  datatype TokenCodec = TokenCodec(sign: Jws -> string, open: string -> Option<Jws>)

  /**
   * What is assumed of the signature scheme: a signed token is never empty (a compact JWS has
   * three dot-separated parts), it opens to what was signed, and only a token that was signed
   * opens at all (a forged or altered token does not).
   */
  ghost predicate CodecSound(c: TokenCodec) {
    && (forall j :: c.sign(j) != "")
    && (forall j :: c.open(c.sign(j)) == Some(j))
    && (forall t :: c.open(t).Some? ==> c.sign(c.open(t).value) == t)
  }

  /** `createToken`: HS256 header, `iat` now and `exp` 24 hours later, over the given identity. */
  function CreateToken(c: TokenCodec, payload: Identity, now: int): (token: string)
    ensures CodecSound(c) ==>
      c.open(token) == Some(Jws(TokenAlgorithm, Claims(payload.id, payload.email, payload.name, now, now + TokenLifetime)))
  {
    c.sign(Jws(TokenAlgorithm, Claims(payload.id, payload.email, payload.name, now, now + TokenLifetime)))
  }

  /**
   * `verifyToken`: the payload of a token whose signature checks and which has not expired
   * (jose rejects a token whose `exp` is at or before the current time); `None` otherwise,
   * where the source catches the library's exception and returns `null`.
   */
  function VerifyToken(c: TokenCodec, token: string, now: int): (user: Option<Claims>)
    ensures user.Some? <==> c.open(token).Some? && now < c.open(token).value.claims.exp
    ensures user.Some? ==> user.value == c.open(token).value.claims
  {
    match c.open(token)
    case None => None
    case Some(j) => if now < j.claims.exp then Some(j.claims) else None
  }

  /** A freshly created token verifies, with exactly the claims it was created with, until it expires; from then on it is rejected. */
  lemma CreatedTokenVerifies(c: TokenCodec, payload: Identity, issuedAt: int, now: int)
    requires CodecSound(c)
    ensures VerifyToken(c, CreateToken(c, payload, issuedAt), now) ==
      if now < issuedAt + TokenLifetime
      then Some(Claims(payload.id, payload.email, payload.name, issuedAt, issuedAt + TokenLifetime))
      else None
  {
  }

  /** A token that verifies is the signature of some content carrying exactly the returned claims: nothing forged or altered is accepted. */
  lemma VerifiedTokenWasSigned(c: TokenCodec, token: string, now: int)
    requires CodecSound(c)
    requires VerifyToken(c, token, now).Some?
    ensures exists alg :: token == c.sign(Jws(alg, VerifyToken(c, token, now).value))
  {
    var j := c.open(token).value;
    assert token == c.sign(Jws(j.alg, j.claims));
  }

  // ---------------------------------------------------------------------------------------
  // Finding the session token

  /**
   * One `name=value` entry of a Cookie header (section 4.2.1 of RFC 6265), as
   * `const [key, ...v] = c.split('='); [key, v.join('=')]`: the name ends at the first
   * `=`, and everything after it, further `=` included, is the value.
   */
  function CookieEntry(entry: string): (kv: (string, string))
    ensures '=' !in kv.0
    ensures if '=' in entry then entry == kv.0 + "=" + kv.1 else kv == (entry, "")
  {
    var parts := Split(entry, "=");
    JoinSplit(entry, "=");
    SplitOnChar(entry, '=');
    (parts[0], Join(parts[1..], "="))
  }

  /** `Object.fromEntries`: a key is present when some entry has it. */
  function FromEntries(entries: seq<(string, string)>): (m: map<string, string>)
    ensures forall k :: k in m <==> exists i :: 0 <= i < |entries| && entries[i].0 == k
    decreases |entries|
  {
    if entries == [] then map[]
    else
      var last := entries[|entries| - 1];
      var m := FromEntries(entries[..|entries| - 1]);
      m[last.0 := last.1]
  }

  /** `Object.fromEntries` assigns entries in order, so the last entry with a key decides its value. */
  lemma {:induction false} LastEntryWins(entries: seq<(string, string)>, j: int)
    requires 0 <= j < |entries|
    requires forall i :: j < i < |entries| ==> entries[i].0 != entries[j].0
    ensures entries[j].0 in FromEntries(entries)
    ensures FromEntries(entries)[entries[j].0] == entries[j].1
    decreases |entries|
  {
    if j < |entries| - 1 {
      var init := entries[..|entries| - 1];
      assert init[j] == entries[j];
      LastEntryWins(init, j);
    }
  }

  /** The entries of a raw Cookie header: split on `"; "`, then each entry at its first `=`. */
  function HeaderEntries(header: string): seq<(string, string)> {
    var parts := Split(header, "; ");
    seq(|parts|, i requires 0 <= i < |parts| => CookieEntry(parts[i]))
  }

  /** An entry written back as `key=value`. */
  function EntryText(kv: (string, string)): string {
    kv.0 + "=" + kv.1
  }

  /**
   * Nothing of a header is lost in parsing it: when every `"; "`-separated part holds an `=`,
   * writing each entry back as `key=value` and joining them with `"; "` gives the header back.
   */
  lemma HeaderEntriesRejoin(header: string)
    requires forall i :: 0 <= i < |Split(header, "; ")| ==> '=' in Split(header, "; ")[i]
    ensures var entries := HeaderEntries(header);
      Join(seq(|entries|, i requires 0 <= i < |entries| => EntryText(entries[i])), "; ") == header
  {
    var parts := Split(header, "; ");
    var entries := HeaderEntries(header);
    var texts := seq(|entries|, i requires 0 <= i < |entries| => EntryText(entries[i]));
    forall i | 0 <= i < |parts|
      ensures texts[i] == parts[i]
    {
      assert entries[i] == CookieEntry(parts[i]);
    }
    assert texts == parts;
    JoinSplit(header, "; ");
  }

  /** The non-empty session token of Next.js's parsed cookie map, if there is one. */
  function ParsedToken(cookies: RequestCookies): Option<string> {
    if cookies.parsed.Some? && SessionCookie in cookies.parsed.value && cookies.parsed.value[SessionCookie] != ""
    then Some(cookies.parsed.value[SessionCookie])
    else None
  }

  /**
   * `getUserFromRequest`: a non-empty token in the parsed cookie map is verified directly;
   * otherwise the raw header, when present and non-empty, is parsed and a non-empty
   * `admin-token` value is verified; in every other case there is no identity. Every exit of
   * the source returns `null` or the result of `verifyToken`, and nothing in it can throw.
   */
  function GetUserFromRequest(cookies: RequestCookies, c: TokenCodec, now: int): (user: Option<Claims>)
    ensures ParsedToken(cookies).Some? ==> user == VerifyToken(c, ParsedToken(cookies).value, now)
    ensures ParsedToken(cookies).None? && !Truthy(cookies.header) ==> user == None
    ensures ParsedToken(cookies).None? && Truthy(cookies.header) ==>
      var jar := FromEntries(HeaderEntries(cookies.header.value));
      user == if SessionCookie in jar && jar[SessionCookie] != "" then VerifyToken(c, jar[SessionCookie], now) else None
    ensures user.Some? ==> exists token :: token != "" && VerifyToken(c, token, now) == user
  {
    if ParsedToken(cookies).Some? then
      VerifyToken(c, ParsedToken(cookies).value, now)
    else if !Truthy(cookies.header) then
      None
    else
      var jar := FromEntries(HeaderEntries(cookies.header.value));
      if SessionCookie !in jar || jar[SessionCookie] == "" then None
      else VerifyToken(c, jar[SessionCookie], now)
  }

  /**
   * The gate of the protected handlers, which fail when `!user || !user.id`: the caller's
   * verified identity with a non-empty `id`, if any.
   */
  function SessionAdminId(cookies: RequestCookies, c: TokenCodec, now: int): Option<string> {
    var user := GetUserFromRequest(cookies, c, now);
    if user.None? || user.value.id == "" then None else Some(user.value.id)
  }

  /** A token in the parsed map is what gets verified, and the raw header is then never consulted. */
  lemma ParsedCookieTakesPrecedence(cookies: RequestCookies, c: TokenCodec, now: int, otherHeader: Option<string>)
    requires ParsedToken(cookies).Some?
    ensures GetUserFromRequest(cookies, c, now) == VerifyToken(c, ParsedToken(cookies).value, now)
    ensures GetUserFromRequest(cookies.(header := otherHeader), c, now) == GetUserFromRequest(cookies, c, now)
  {
  }

  /** Without a usable parsed token and without a (non-empty) Cookie header there is no identity. */
  lemma NoCookieNoUser(cookies: RequestCookies, c: TokenCodec, now: int)
    requires ParsedToken(cookies).None?
    requires !Truthy(cookies.header)
    ensures GetUserFromRequest(cookies, c, now) == None
  {
  }

  /** The header's value for the session cookie is the value of its LAST `admin-token` entry; an empty one (also an entry without `=`) means no identity. */
  lemma LastHeaderEntryDecides(cookies: RequestCookies, c: TokenCodec, now: int, j: int)
    requires ParsedToken(cookies).None? && Truthy(cookies.header)
    requires 0 <= j < |Split(cookies.header.value, "; ")|
    requires CookieEntry(Split(cookies.header.value, "; ")[j]).0 == SessionCookie
    requires forall i :: j < i < |Split(cookies.header.value, "; ")| ==>
      CookieEntry(Split(cookies.header.value, "; ")[i]).0 != SessionCookie
    ensures var token := CookieEntry(Split(cookies.header.value, "; ")[j]).1;
      GetUserFromRequest(cookies, c, now) == if token == "" then None else VerifyToken(c, token, now)
  {
    var entries := HeaderEntries(cookies.header.value);
    LastEntryWins(entries, j);
  }

  /** A header without any `admin-token` entry gives no identity. */
  lemma MissingHeaderEntryNoUser(cookies: RequestCookies, c: TokenCodec, now: int)
    requires ParsedToken(cookies).None? && Truthy(cookies.header)
    requires forall i :: 0 <= i < |Split(cookies.header.value, "; ")| ==>
      CookieEntry(Split(cookies.header.value, "; ")[i]).0 != SessionCookie
    ensures GetUserFromRequest(cookies, c, now) == None
  {
    var entries := HeaderEntries(cookies.header.value);
    assert forall i :: 0 <= i < |entries| ==> entries[i].0 != SessionCookie;
  }

  /** A header holding only `admin-token=<value>` yields exactly `<value>`, `=` signs included (e.g. `abc.def=.ghi`). */
  lemma HeaderValueRecovered(parsed: Option<map<string, string>>, value: string, c: TokenCodec, now: int)
    requires ParsedToken(RequestCookies(parsed, None)).None?
    requires value != ""
    requires forall i: nat :: !OccursAt(value, "; ", i)
    ensures GetUserFromRequest(RequestCookies(parsed, Some(SessionCookie + "=" + value)), c, now) == VerifyToken(c, value, now)
  {
    var header := SessionCookie + "=" + value;
    var prefix := SessionCookie + "=";
    assert header == prefix + value;
    forall i: nat ensures !OccursAt(header, "; ", i) {
      if i + 2 <= |header| && i < |prefix| {
        assert header[i] == prefix[i];
        assert header[i..i + 2][0] == header[i];
      } else if i + 2 <= |header| {
        assert header[i..i + 2] == value[i - |prefix|..i - |prefix| + 2];
        assert !OccursAt(value, "; ", i - |prefix|);
      }
    }
    SplitWithoutSeparator(header, "; ");
    assert '=' in header by { assert header[|SessionCookie|] == '='; }
    var kv := CookieEntry(header);
    assert '=' !in SessionCookie;
    SplitAtCharUnique(SessionCookie, value, kv.0, kv.1, '=');
    assert HeaderEntries(header) == [kv];
    LastEntryWins([kv], 0);
  }
}
