/** The refresh-token store of the authentication controller: `login`,
    `refreshToken` and `logout` as pure functions from the user collection to
    an HTTP reply and the new user collection.

    JWT signing and verification (RFC 7519), the HMAC-SHA256 digest
    (RFC 2104) and bcrypt are not modelled: they are the function values of a
    `Crypto` record, and each property states what it assumes of them. */
module AuthControllers {
  import opened Wrappers
  import Text

  type UserId = string
  type Token = string
  type Digest = string

  /** A user keeps at most this many refresh-token digests. */
  const MaxRefreshTokens: nat := 10

  /** A user document. `refreshTokens` may be absent from a stored document,
      and the three operations each treat that case differently. */
  datatype User = User(id: UserId, email: string, passwordHash: string, refreshTokens: Option<seq<Digest>>)

  /** The collaborators the controller calls but does not implement.
      - `verifyRefresh`: `jwt.verify` with the refresh secret, giving the
        `userId` claim, or None when the signature or expiry check fails;
      - `signRefresh(id, second)`: `createRefreshToken`, whose payload is the
        user id and the issue second only;
      - `signAccess(id, email, second)`: `createAccessToken`;
      - `hmac`: `hashToken`, the keyed digest of a token;
      - `passwordMatches(plain, hash)`: `bcrypt.compare`. */
  datatype Crypto = Crypto(
    verifyRefresh: Token -> Option<UserId>,
    signRefresh: (UserId, nat) -> Token,
    signAccess: (UserId, string, nat) -> Token,
    hmac: Token -> Digest,
    passwordMatches: (string, string) -> bool)

  /** Distinct tokens have distinct digests. */
  ghost predicate HashInjective(c: Crypto)
  {
    forall a, b :: c.hmac(a) == c.hmac(b) ==> a == b
  }

  /** A freshly signed refresh token verifies and names its user. */
  ghost predicate SignVerifies(c: Crypto)
  {
    forall id, second :: c.verifyRefresh(c.signRefresh(id, second)) == Some(id)
  }

  datatype Body =
    | Tokens(accessToken: Token, refreshToken: Token)
    | Message(message: string)
    | Error(error: string)

  /** The HTTP status and JSON body sent, and the user collection afterwards. */
  datatype Outcome = Outcome(status: nat, body: Body, users: seq<User>)

  // ---------------------------------------------------------------------
  // Lookups (`User.findOne({ email })`, `User.findById(id)`)
  // ---------------------------------------------------------------------

  /** The index of the first user satisfying `p`, in collection order. */
  function FindFirst(users: seq<User>, p: User -> bool): (r: Option<nat>)
    ensures r.Some? ==> r.value < |users| && p(users[r.value])
    ensures r.Some? ==> forall j :: 0 <= j < r.value ==> !p(users[j])
    ensures r.None? ==> forall j :: 0 <= j < |users| ==> !p(users[j])
  {
    if users == [] then None
    else if p(users[0]) then Some(0)
    else match FindFirst(users[1..], p)
      case None => None
      case Some(k) => Some(k + 1)
  }

  /** The user schema declares `email` with `lowercase` and `trim`, and the
      database layer applies those setters to the value a query filters on. */
  function NormalEmail(email: string): string
  {
    Text.ToLower(Text.Trim(email))
  }

  /** The first user stored with exactly this address. */
  function FindByAddress(users: seq<User>, address: string): Option<nat>
  {
    FindFirst(users, (u: User) => u.email == address)
  }

  /** `User.findOne({ email })`: the first user whose stored address equals
      the presented one once trimmed and lower-cased. */
  function FindByEmail(users: seq<User>, email: string): Option<nat>
  {
    FindByAddress(users, NormalEmail(email))
  }

  function FindById(users: seq<User>, id: UserId): Option<nat>
  {
    FindFirst(users, (u: User) => u.id == id)
  }

  /** The index of the user a refresh token names, when it verifies and that
      user exists. */
  function Holder(users: seq<User>, c: Crypto, token: Token): (r: Option<nat>)
    ensures r.Some? ==> r.value < |users|
  {
    match c.verifyRefresh(token)
    case None => None
    case Some(id) => FindById(users, id)
  }

  /** The stored list, reading an absent one as empty (`user.refreshTokens || []`). */
  function StoredDigests(u: User): seq<Digest>
  {
    u.refreshTokens.GetOr([])
  }

  /** The collection with user `i`'s digest list replaced; the save. */
  function WithDigests(users: seq<User>, i: nat, l: seq<Digest>): (r: seq<User>)
    requires i < |users|
    ensures |r| == |users|
    ensures r[i].refreshTokens == Some(l)
    ensures r[i].id == users[i].id && r[i].email == users[i].email
    ensures r[i].passwordHash == users[i].passwordHash
    ensures forall j :: 0 <= j < |users| && j != i ==> r[j] == users[j]
  {
    users[i := users[i].(refreshTokens := Some(l))]
  }

  // ---------------------------------------------------------------------
  // Digest-list operations
  // ---------------------------------------------------------------------

  /** `if (l.length > 10) l = l.slice(-10)`: keeps the newest ten entries. */
  function Cap(l: seq<Digest>): (r: seq<Digest>)
    ensures |r| <= MaxRefreshTokens
    ensures |r| == if |l| > MaxRefreshTokens then MaxRefreshTokens else |l|
    ensures r == l[|l| - |r|..]
  {
    if |l| > MaxRefreshTokens then l[|l| - MaxRefreshTokens..] else l
  }

  /** `l.filter(t => t !== d)`. */
  function Remove(l: seq<Digest>, d: Digest): (r: seq<Digest>)
    ensures |r| <= |l|
    ensures d !in r
    ensures forall x :: x in r <==> x in l && x != d
    ensures d !in l ==> r == l
  {
    if l == [] then []
    else (if l[0] == d then [] else [l[0]]) + Remove(l[1..], d)
  }

  /** Removing distributes over concatenation, so the kept entries stay in
      their original order. */
  lemma {:induction false} RemoveAppend(a: seq<Digest>, b: seq<Digest>, d: Digest)
    ensures Remove(a + b, d) == Remove(a, d) + Remove(b, d)
  {
    if a == [] {
      assert a + b == b;
    } else {
      assert (a + b)[1..] == a[1..] + b;
      RemoveAppend(a[1..], b, d);
    }
  }

  /** Removing twice is removing once. */
  lemma RemoveIdempotent(l: seq<Digest>, d: Digest)
    ensures Remove(Remove(l, d), d) == Remove(l, d)
  {
  }

  /** Capping after appending to a capped list is capping once: a run of
      logins keeps exactly the newest ten digests of everything issued. */
  lemma CapAppend(l: seq<Digest>, d: Digest)
    ensures Cap(Cap(l) + [d]) == Cap(l + [d])
  {
    var c := Cap(l);
    assert c + [d] == (l + [d])[|l| - |c|..];
  }

  // ---------------------------------------------------------------------
  // The three operations
  // ---------------------------------------------------------------------

  /** `login`: look the user up by email, check the password, issue a pair
      and append the refresh token's digest, keeping the newest ten. */
  function Login(users: seq<User>, c: Crypto, now: nat, email: string, password: string): (r: Outcome)
    ensures r.status == 200 || r.status == 401
    ensures r.status == 401 <==>
      FindByEmail(users, email).None? ||
      !c.passwordMatches(password, users[FindByEmail(users, email).value].passwordHash)
    ensures r.status == 401 ==> r.users == users && r.body == Message("Invalid credentials")
    ensures r.status == 200 ==>
      var i := FindByEmail(users, email).value;
      && r.body.Tokens?
      && r.body.refreshToken == c.signRefresh(users[i].id, now)
      && r.body.accessToken == c.signAccess(users[i].id, users[i].email, now)
      && r.users == WithDigests(users, i, Cap(StoredDigests(users[i]) + [c.hmac(r.body.refreshToken)]))
  {
    match FindByEmail(users, email)
    case None => Outcome(401, Message("Invalid credentials"), users)
    case Some(i) =>
      var u := users[i];
      if !c.passwordMatches(password, u.passwordHash) then
        Outcome(401, Message("Invalid credentials"), users)
      else
        var access := c.signAccess(u.id, u.email, now);
        var refresh := c.signRefresh(u.id, now);
        Outcome(200, Tokens(access, refresh), WithDigests(users, i, Cap(StoredDigests(u) + [c.hmac(refresh)])))
  }

  /** `refreshToken`: rotate a presented refresh token. */
  function Refresh(users: seq<User>, c: Crypto, now: nat, token: Option<Token>): (r: Outcome)
    ensures r.status in {200, 400, 401}
    ensures r.status != 200 ==> r.users == users
    ensures r.status == 400 <==> !Present(token)
    ensures r.status == 400 ==> r == Outcome(400, Error("Missing token"), users)
    ensures Present(token) && c.verifyRefresh(token.value).None? ==>
      r == Outcome(401, Error("Invalid refresh token"), users)
    ensures Present(token) && c.verifyRefresh(token.value).Some? && Holder(users, c, token.value).None? ==>
      r == Outcome(401, Error("Invalid token user"), users)
    ensures Present(token) && Holder(users, c, token.value).Some? ==>
      var u := users[Holder(users, c, token.value).value];
      (u.refreshTokens.None? || c.hmac(token.value) !in u.refreshTokens.value) ==>
        r == Outcome(401, Error("Refresh token revoked"), users)
    ensures r.status == 200 <==>
      && Present(token) && Holder(users, c, token.value).Some?
      && var u := users[Holder(users, c, token.value).value];
      && u.refreshTokens.Some? && c.hmac(token.value) in u.refreshTokens.value
    ensures r.status == 200 ==>
      && Present(token) && Holder(users, c, token.value).Some?
      && var i := Holder(users, c, token.value).value;
      && users[i].refreshTokens.Some?
      && c.hmac(token.value) in users[i].refreshTokens.value
      && r.body.Tokens?
      && r.body.refreshToken == c.signRefresh(users[i].id, now)
      && r.body.accessToken == c.signAccess(users[i].id, users[i].email, now)
      && r.users == WithDigests(users, i,
           Cap(Remove(users[i].refreshTokens.value, c.hmac(token.value)) + [c.hmac(r.body.refreshToken)]))
  {
    if !Present(token) then Outcome(400, Error("Missing token"), users)
    else
      match c.verifyRefresh(token.value)
      case None => Outcome(401, Error("Invalid refresh token"), users)
      case Some(id) =>
        match FindById(users, id)
        case None => Outcome(401, Error("Invalid token user"), users)
        case Some(i) =>
          var u := users[i];
          var hashed := c.hmac(token.value);
          if u.refreshTokens.None? || hashed !in u.refreshTokens.value then
            Outcome(401, Error("Refresh token revoked"), users)
          else
            var minted := c.signRefresh(u.id, now);
            var kept := Cap(Remove(u.refreshTokens.value, hashed) + [c.hmac(minted)]);
            var after := WithDigests(users, i, kept);
            Outcome(200, Tokens(c.signAccess(u.id, u.email, now), minted), after)
  }

  /** `logout`: best effort; drop the presented token's digest. */
  function Logout(users: seq<User>, c: Crypto, token: Option<Token>): (r: Outcome)
    ensures r.status == 400 <==> !Present(token)
    ensures r.status == 400 ==> r == Outcome(400, Error("Missing token"), users)
    ensures r.status != 400 ==> r.status == 200 && r.body == Message("Logged out")
    ensures |r.users| == |users|
    ensures forall j :: 0 <= j < |users| ==>
      && r.users[j].id == users[j].id && r.users[j].email == users[j].email
      && |StoredDigests(r.users[j])| <= |StoredDigests(users[j])|
    ensures Present(token) && Holder(users, c, token.value).None? ==> r.users == users
    ensures Present(token) && Holder(users, c, token.value).Some? ==>
      var i := Holder(users, c, token.value).value;
      r.users == WithDigests(users, i, Remove(StoredDigests(users[i]), c.hmac(token.value)))
  {
    if !Present(token) then Outcome(400, Error("Missing token"), users)
    else
      match c.verifyRefresh(token.value)
      case None => Outcome(200, Message("Logged out"), users)
      case Some(id) =>
        match FindById(users, id)
        case None => Outcome(200, Message("Logged out"), users)
        case Some(i) =>
          var kept := Remove(StoredDigests(users[i]), c.hmac(token.value));
          Outcome(200, Message("Logged out"), WithDigests(users, i, kept))
  }
}
