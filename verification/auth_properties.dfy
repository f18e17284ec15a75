/** Properties of the refresh-token store that relate several calls:
    the ten-entry bound as an invariant, single use, chaining, logout
    followed by refresh, idempotent logout, and runs of logins. */
module AuthProperties {
  import opened Wrappers
  import opened AuthControllers
  import Text

  // ---------------------------------------------------------------------
  // Lookups survive a save of the digest list
  // ---------------------------------------------------------------------

  /** Two collections that agree on `p` at every position give the same
      first match. */
  lemma FindFirstAgrees(a: seq<User>, b: seq<User>, p: User -> bool)
    requires |a| == |b|
    requires forall j :: 0 <= j < |a| ==> p(a[j]) == p(b[j])
    ensures FindFirst(a, p) == FindFirst(b, p)
  {
  }

  /** Saving a digest list leaves both lookups where they were. */
  lemma LookupsSurviveSave(users: seq<User>, i: nat, l: seq<Digest>, id: UserId, email: string)
    requires i < |users|
    ensures FindById(WithDigests(users, i, l), id) == FindById(users, id)
    ensures FindByEmail(WithDigests(users, i, l), email) == FindByEmail(users, email)
  {
    var after := WithDigests(users, i, l);
    FindFirstAgrees(after, users, (u: User) => u.id == id);
    AddressSurvivesSave(users, i, l, NormalEmail(email));
  }

  lemma AddressSurvivesSave(users: seq<User>, i: nat, l: seq<Digest>, address: string)
    requires i < |users|
    ensures FindByAddress(WithDigests(users, i, l), address) == FindByAddress(users, address)
  {
    FindFirstAgrees(WithDigests(users, i, l), users, (u: User) => u.email == address);
  }

  /** The address a user types is trimmed and lower-cased before the lookup,
      so presenting it in that form already logs in the same way. */
  lemma LoginIgnoresCaseAndSpace(users: seq<User>, c: Crypto, now: nat, email: string, password: string)
    ensures Login(users, c, now, email, password) == Login(users, c, now, NormalEmail(email), password)
  {
    NormalEmailIdempotent(email);
    var found := FindByEmail(users, email);
    assert FindByEmail(users, NormalEmail(email)) == found;
    if found.Some? {
      var u := users[found.value];
      if c.passwordMatches(password, u.passwordHash) {
        var refresh := c.signRefresh(u.id, now);
        var after := WithDigests(users, found.value, Cap(StoredDigests(u) + [c.hmac(refresh)]));
        assert Login(users, c, now, email, password) == Outcome(200, Tokens(c.signAccess(u.id, u.email, now), refresh), after);
      }
    }
  }

  lemma NormalEmailIdempotent(email: string)
    ensures NormalEmail(NormalEmail(email)) == NormalEmail(email)
  {
    Text.LowerOfTrimmed(email);
    Text.LowerIdempotent(Text.Trim(email));
  }

  lemma HolderSurvivesSave(users: seq<User>, i: nat, l: seq<Digest>, c: Crypto, t: Token)
    requires i < |users|
    ensures Holder(WithDigests(users, i, l), c, t) == Holder(users, c, t)
  {
    if c.verifyRefresh(t).Some? {
      LookupsSurviveSave(users, i, l, c.verifyRefresh(t).value, "");
    }
  }

  // ---------------------------------------------------------------------
  // The ten-entry bound is an invariant
  // ---------------------------------------------------------------------

  /** No user holds more than ten digests. */
  predicate Bounded(users: seq<User>)
  {
    forall j :: 0 <= j < |users| ==> |StoredDigests(users[j])| <= MaxRefreshTokens
  }

  /** Every operation keeps every user's list at ten entries or fewer. */
  lemma OperationsKeepBound(users: seq<User>, c: Crypto, now: nat, email: string, password: string, t: Option<Token>)
    requires Bounded(users)
    ensures Bounded(Login(users, c, now, email, password).users)
    ensures Bounded(Refresh(users, c, now, t).users)
    ensures Bounded(Logout(users, c, t).users)
  {
    LoginKeepsBound(users, c, now, email, password);
    RefreshKeepsBound(users, c, now, t);
    LogoutKeepsBound(users, c, t);
  }

  lemma LoginKeepsBound(users: seq<User>, c: Crypto, now: nat, email: string, password: string)
    requires Bounded(users)
    ensures Bounded(Login(users, c, now, email, password).users)
  {
  }

  lemma RefreshKeepsBound(users: seq<User>, c: Crypto, now: nat, t: Option<Token>)
    requires Bounded(users)
    ensures Bounded(Refresh(users, c, now, t).users)
  {
  }

  lemma LogoutKeepsBound(users: seq<User>, c: Crypto, t: Option<Token>)
    requires Bounded(users)
    ensures Bounded(Logout(users, c, t).users)
  {
    var lo := Logout(users, c, t).users;
    assert forall j :: 0 <= j < |lo| ==> |StoredDigests(lo[j])| <= |StoredDigests(users[j])|;
  }


  // ---------------------------------------------------------------------
  // Single use, and the same-second exception
  // ---------------------------------------------------------------------

  /** Once a refresh succeeds, the presented token is rejected as revoked,
      provided the newly minted token differs from it and digests are
      injective. */
  lemma RefreshIsSingleUse(users: seq<User>, c: Crypto, first: nat, later: nat, t: Token)
    requires HashInjective(c)
    requires Refresh(users, c, first, Some(t)).status == 200
    requires Refresh(users, c, first, Some(t)).body.refreshToken != t
    ensures var after := Refresh(users, c, first, Some(t)).users;
      Refresh(after, c, later, Some(t)) == Outcome(401, Error("Refresh token revoked"), after)
  {
    var r := Refresh(users, c, first, Some(t));
    var i := Holder(users, c, t).value;
    var kept := Cap(Remove(users[i].refreshTokens.value, c.hmac(t)) + [c.hmac(r.body.refreshToken)]);
    HolderSurvivesSave(users, i, kept, c, t);
    assert c.hmac(r.body.refreshToken) != c.hmac(t);
    assert c.hmac(t) !in kept;
  }

  /** The exception: a refresh token's payload is the user id and the issue
      second, so a token refreshed within the second it was issued is minted
      again identically, and the "used" token stays redeemable. */
  lemma SameSecondRefreshReplays(users: seq<User>, c: Crypto, first: nat, later: nat, t: Token)
    requires Refresh(users, c, first, Some(t)).status == 200
    requires Refresh(users, c, first, Some(t)).body.refreshToken == t
    ensures Refresh(Refresh(users, c, first, Some(t)).users, c, later, Some(t)).status == 200
  {
    var r := Refresh(users, c, first, Some(t));
    var i := Holder(users, c, t).value;
    var kept := Cap(Remove(users[i].refreshTokens.value, c.hmac(t)) + [c.hmac(t)]);
    HolderSurvivesSave(users, i, kept, c, t);
    assert kept[|kept| - 1] == c.hmac(t);
  }

  /** A holder of a token issued in second `s` who refreshes in that same
      second gets the very same token back. */
  lemma SameSecondMintsSameToken(users: seq<User>, c: Crypto, s: nat, id: UserId)
    requires SignVerifies(c)
    requires FindById(users, id).Some?
    requires c.signRefresh(id, s) != ""
    ensures var t := c.signRefresh(id, s);
      var r := Refresh(users, c, s, Some(t));
      r.status == 200 ==> r.body.refreshToken == t
  {
    var i := FindById(users, id).value;
    assert users[i].id == id;
  }

  /** Rotation chains: the token a refresh returns is itself redeemable. */
  lemma RefreshChains(users: seq<User>, c: Crypto, first: nat, later: nat, t: Token)
    requires SignVerifies(c)
    requires Refresh(users, c, first, Some(t)).status == 200
    requires Refresh(users, c, first, Some(t)).body.refreshToken != ""
    ensures var r := Refresh(users, c, first, Some(t));
      Refresh(r.users, c, later, Some(r.body.refreshToken)).status == 200
  {
    var r := Refresh(users, c, first, Some(t));
    var i := Holder(users, c, t).value;
    var t2 := r.body.refreshToken;
    var kept := Cap(Remove(users[i].refreshTokens.value, c.hmac(t)) + [c.hmac(t2)]);
    assert c.verifyRefresh(t2) == Some(users[i].id);
    assert FindById(users, users[i].id) == Some(i) by {
      FindFirstAgrees(users, users, (u: User) => u.id == users[i].id);
    }
    HolderSurvivesSave(users, i, kept, c, t2);
    assert kept[|kept| - 1] == c.hmac(t2);
  }

  // ---------------------------------------------------------------------
  // Logout
  // ---------------------------------------------------------------------

  /** After a logout, refreshing with the same token is rejected as revoked. */
  lemma LogoutRevokes(users: seq<User>, c: Crypto, now: nat, t: Token)
    requires t != ""
    requires Holder(users, c, t).Some?
    ensures var after := Logout(users, c, Some(t)).users;
      Refresh(after, c, now, Some(t)) == Outcome(401, Error("Refresh token revoked"), after)
  {
    var i := Holder(users, c, t).value;
    HolderSurvivesSave(users, i, Remove(StoredDigests(users[i]), c.hmac(t)), c, t);
  }

  /** A second identical logout changes nothing and answers the same. */
  lemma LogoutIdempotent(users: seq<User>, c: Crypto, t: Option<Token>)
    ensures var once := Logout(users, c, t);
      Logout(once.users, c, t) == once
  {
    if Present(t) && Holder(users, c, t.value).Some? {
      var i := Holder(users, c, t.value).value;
      var kept := Remove(StoredDigests(users[i]), c.hmac(t.value));
      HolderSurvivesSave(users, i, kept, c, t.value);
      RemoveIdempotent(StoredDigests(users[i]), c.hmac(t.value));
      var once := WithDigests(users, i, kept);
      assert WithDigests(once, i, kept) == once;
    }
  }

  // ---------------------------------------------------------------------
  // Runs of logins
  // ---------------------------------------------------------------------

  /** The state after logging in once per second listed in `seconds`. */
  function LoginRun(users: seq<User>, c: Crypto, seconds: seq<nat>, email: string, password: string): (r: seq<User>)
    ensures |r| == |users|
    decreases |seconds|
  {
    if seconds == [] then users
    else LoginRun(Login(users, c, seconds[0], email, password).users, c, seconds[1..], email, password)
  }

  /** The digests of the refresh tokens issued to `id` at `seconds`. */
  function Issued(c: Crypto, id: UserId, seconds: seq<nat>): (r: seq<Digest>)
    ensures |r| == |seconds|
  {
    if seconds == [] then [] else [c.hmac(c.signRefresh(id, seconds[0]))] + Issued(c, id, seconds[1..])
  }

  /** One successful login, as seen by the next one: the same user is found
      and the list has grown by the new digest, capped. */
  lemma LoginOnce(users: seq<User>, c: Crypto, now: nat, email: string, password: string, i: nat)
    requires FindByEmail(users, email) == Some(i)
    requires c.passwordMatches(password, users[i].passwordHash)
    ensures var after := Login(users, c, now, email, password).users;
      && after == WithDigests(users, i, Cap(StoredDigests(users[i]) + [c.hmac(c.signRefresh(users[i].id, now))]))
      && FindByEmail(after, email) == Some(i)
  {
    var l := Cap(StoredDigests(users[i]) + [c.hmac(c.signRefresh(users[i].id, now))]);
    LookupsSurviveSave(users, i, l, "", email);
  }

  /** A run of successful logins, starting from a list within the bound,
      leaves the newest ten of the old list followed by every digest issued. */
  lemma {:induction false} LoginRunKeepsNewest(users: seq<User>, c: Crypto, seconds: seq<nat>, email: string, password: string, i: nat)
    requires FindByEmail(users, email) == Some(i)
    requires c.passwordMatches(password, users[i].passwordHash)
    requires |StoredDigests(users[i])| <= MaxRefreshTokens
    ensures var after := LoginRun(users, c, seconds, email, password);
      && FindByEmail(after, email) == Some(i)
      && after[i].id == users[i].id && after[i].passwordHash == users[i].passwordHash
      && StoredDigests(after[i]) == Cap(StoredDigests(users[i]) + Issued(c, users[i].id, seconds))
    decreases |seconds|
  {
    if seconds == [] {
      assert StoredDigests(users[i]) + Issued(c, users[i].id, seconds) == StoredDigests(users[i]);
    } else {
      var u := users[i];
      var next := Login(users, c, seconds[0], email, password).users;
      LoginOnce(users, c, seconds[0], email, password, i);
      LoginRunKeepsNewest(next, c, seconds[1..], email, password, i);
      CapThenRest(StoredDigests(u), c.hmac(c.signRefresh(u.id, seconds[0])), Issued(c, u.id, seconds[1..]));
    }
  }

  /** One login's cap followed by the later digests is one cap of everything. */
  lemma CapThenRest(l: seq<Digest>, d: Digest, rest: seq<Digest>)
    ensures Cap(Cap(l + [d]) + rest) == Cap(l + ([d] + rest))
  {
    CapConcat(l + [d], rest);
    assert l + [d] + rest == l + ([d] + rest);
  }

  /** Capping a prefix first does not change the cap of the whole. */
  lemma {:induction false} CapConcat(l: seq<Digest>, more: seq<Digest>)
    ensures Cap(Cap(l) + more) == Cap(l + more)
    decreases |more|
  {
    if more == [] {
      assert Cap(l) + more == Cap(l);
      assert l + more == l;
      assert Cap(Cap(l)) == Cap(l);
    } else {
      var last := more[|more| - 1];
      var init := more[..|more| - 1];
      assert more == init + [last];
      CapConcat(l, init);
      CapAppend(Cap(l) + init, last);
      CapAppend(l + init, last);
      assert Cap(l) + more == (Cap(l) + init) + [last];
      assert l + more == (l + init) + [last];
    }
  }

  /** No digest occurs twice. */
  predicate Distinct(l: seq<Digest>)
  {
    forall j, k :: 0 <= j < k < |l| ==> l[j] != l[k]
  }

  /** Eleven logins or more from an empty list, with pairwise distinct digests,
      leave exactly the newest ten digests, none of them from an older login. */
  lemma ManyLoginsForgetOldest(users: seq<User>, c: Crypto, seconds: seq<nat>, email: string, password: string, i: nat)
    requires FindByEmail(users, email) == Some(i)
    requires StoredDigests(users[i]) == [] && c.passwordMatches(password, users[i].passwordHash)
    requires |seconds| > MaxRefreshTokens
    requires Distinct(Issued(c, users[i].id, seconds))
    ensures var all := Issued(c, users[i].id, seconds);
      var kept := StoredDigests(LoginRun(users, c, seconds, email, password)[i]);
      && kept == all[|all| - MaxRefreshTokens..]
      && forall j :: 0 <= j < |all| - MaxRefreshTokens ==> all[j] !in kept
  {
    var all := Issued(c, users[i].id, seconds);
    FromEmptyKeepsNewest(users, c, seconds, email, password, i);
    CapForgetsOldest(all);
  }

  /** From an empty list, a run of logins keeps the newest ten digests issued. */
  lemma FromEmptyKeepsNewest(users: seq<User>, c: Crypto, seconds: seq<nat>, email: string, password: string, i: nat)
    requires FindByEmail(users, email) == Some(i)
    requires StoredDigests(users[i]) == [] && c.passwordMatches(password, users[i].passwordHash)
    ensures StoredDigests(LoginRun(users, c, seconds, email, password)[i]) == Cap(Issued(c, users[i].id, seconds))
  {
    LoginRunKeepsNewest(users, c, seconds, email, password, i);
    assert StoredDigests(users[i]) + Issued(c, users[i].id, seconds) == Issued(c, users[i].id, seconds);
  }

  /** Of a list of distinct digests longer than ten, the cap keeps none of
      the entries before the newest ten. */
  lemma CapForgetsOldest(all: seq<Digest>)
    requires Distinct(all) && |all| > MaxRefreshTokens
    ensures Cap(all) == all[|all| - MaxRefreshTokens..]
    ensures forall j :: 0 <= j < |all| - MaxRefreshTokens ==> all[j] !in Cap(all)
  {
    var kept := Cap(all);
    forall j | 0 <= j < |all| - MaxRefreshTokens
      ensures all[j] !in kept
    {
      forall k | 0 <= k < |kept|
        ensures kept[k] != all[j]
      {
        assert kept[k] == all[|all| - MaxRefreshTokens + k];
      }
    }
  }
}
