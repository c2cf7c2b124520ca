/** Logout against JWT expiry: what the two revocation keys and the expiry claim cover together. */
module TokenRevocation {
  import opened Keyspace

  datatype UserId = UserId(uuid: nat)
  datatype Secret = Secret(name: string)
  datatype Role = USER | ADMIN

  /** A presented token: a JWT with its claims and the secret its HMAC signature verifies under, or any other text. */
  datatype Token =
    | Jwt(user: UserId, role: Role, exp: Option<int>, nbf: Option<int>, signature: Option<Secret>, nonce: nat)
    | NotAJwt(text: string)

  const NO_TOKEN := NotAJwt("")

  datatype Config = Config(jwtSecret: Secret, jwtRefreshSecret: Secret, accessTokenDuration: int, refreshTokenDuration: int)

  const REVOKED_TTL := 7 * DAY

  /** The durations the service is configured with. */
  predicate Shipped(cfg: Config) { cfg.accessTokenDuration == 15 * MINUTE && cfg.refreshTokenDuration == 7 * DAY }

  datatype State = State(
    blacklist: map<Token, Entry<string>>,
    revoked: map<Token, Entry<string>>,
    suspended: set<UserId>,
    accounts: map<UserId, Role>)

  datatype Validation = Valid(user: UserId, role: Role) | TokenRevoked | InvalidToken | UserSuspended

  datatype Refreshed = NewAccess(token: Token) | Unauthorized | InvalidOrExpiredRefreshToken | AccountNotFound

  datatype Event =
    | Logout(now: int, refresh: Token, access: Token)
    | Suspend(now: int, user: UserId)
    | Unsuspend(now: int, user: UserId)
    | SetAccounts(now: int, accounts: map<UserId, Role>)
    | Renew(now: int, refresh: Token, expected: Option<Role>, nonce: nat)

  // ---------------------------------------------------------------- tokens

  /** Numeric dates are whole seconds. */
  function WholeSeconds(t: int): (r: int)
    ensures t - SECOND < r <= t
  {
    t / SECOND * SECOND
  }

  /** What the JWT library checks, section 4.1 of RFC 7519: usable from nbf on and before exp. */
  predicate JwtOk(tok: Token, secret: Secret, now: int) {
    && tok.Jwt? && tok.signature == Some(secret)
    && (tok.exp.Some? ==> now < tok.exp.value)
    && (tok.nbf.Some? ==> tok.nbf.value <= now)
  }

  function Issued(user: UserId, role: Role, secret: Secret, duration: int, now: int, nonce: nat): Token {
    Jwt(user, role, Some(WholeSeconds(now + duration)), Some(WholeSeconds(now)), Some(secret), nonce)
  }

  function Blacklisted(s: State, tok: Token, now: int): State {
    if tok.Jwt? && tok.exp.Some? && tok.exp.value - now > 0
    then s.(blacklist := SetFor(s.blacklist, tok, "revoked", now, tok.exp.value - now))
    else s
  }

  function LoggedOut(s: State, refresh: Token, access: Token, now: int): State {
    var t := if refresh == NO_TOKEN then s else
      var b := Blacklisted(s, refresh, now);
      b.(revoked := SetFor(b.revoked, refresh, "blacklisted", now, REVOKED_TTL));
    Blacklisted(t, access, now)
  }

  function Step(s: State, e: Event): State {
    match e
    case Logout(now, refresh, access) => LoggedOut(s, refresh, access, now)
    case Suspend(_, user) => s.(suspended := s.suspended + {user})
    case Unsuspend(_, user) => s.(suspended := s.suspended - {user})
    case SetAccounts(_, accounts) => s.(accounts := accounts)
    case Renew(_, _, _, _) => s
  }

  /** The answer of the token validation service. */
  function Validate(cfg: Config, s: State, tok: Token, now: int): Validation {
    if Live(s.blacklist, tok, now) then TokenRevoked
    else if !JwtOk(tok, cfg.jwtSecret, now) then InvalidToken
    else if tok.user in s.suspended then UserSuspended
    else Valid(tok.user, tok.role)
  }

  /** The answer of the refresh operation; no expected role means any. */
  function Refresh(cfg: Config, s: State, tok: Token, expected: Option<Role>, now: int, nonce: nat): Refreshed {
    if Live(s.revoked, tok, now) then Unauthorized
    else if !JwtOk(tok, cfg.jwtRefreshSecret, now) then InvalidOrExpiredRefreshToken
    else if expected.Some? && tok.role != expected.value then InvalidOrExpiredRefreshToken
    else if tok.user !in s.accounts then AccountNotFound
    else if expected.Some? && s.accounts[tok.user] != expected.value then InvalidOrExpiredRefreshToken
    else NewAccess(Issued(tok.user, s.accounts[tok.user], cfg.jwtSecret, cfg.accessTokenDuration, now, nonce))
  }

  // ---------------------------------------------------------------- the service

  class AuthService {
    const cfg: Config
    var blacklist: map<Token, Entry<string>>
    var revoked: map<Token, Entry<string>>
    var suspended: set<UserId>
    var accounts: map<UserId, Role>

    constructor (cfg: Config)
      ensures this.cfg == cfg && View() == State(map[], map[], {}, map[])
    {
      this.cfg := cfg;
      blacklist, revoked, suspended, accounts := map[], map[], {}, map[];
    }

    ghost function View(): State reads this { State(blacklist, revoked, suspended, accounts) }

    method BlacklistToken(now: int, tok: Token)
      modifies this`blacklist
      ensures View() == Blacklisted(old(View()), tok, now)
      ensures blacklist == if tok.Jwt? && tok.exp.Some? && now < tok.exp.value then old(blacklist)[tok := Entry("revoked", tok.exp)]
                           else old(blacklist)
    {
      if tok == NO_TOKEN { return; }
      if tok.NotAJwt? || tok.exp.None? { return; }
      var ttl := tok.exp.value - now;
      if ttl <= 0 { return; }
      blacklist := SetFor(blacklist, tok, "revoked", now, ttl);
    }

    method IsTokenBlacklisted(now: int, tok: Token) returns (yes: bool)
      requires NO_TOKEN !in blacklist
      ensures yes == Live(blacklist, tok, now)
    {
      if tok == NO_TOKEN { return false; }
      return Live(blacklist, tok, now);
    }

    method LogoutTokens(now: int, refresh: Token, access: Token)
      modifies this`blacklist, this`revoked
      ensures View() == Step(old(View()), Logout(now, refresh, access))
      ensures refresh == NotAJwt("") ==> revoked == old(revoked)
      ensures refresh != NotAJwt("") ==> revoked == old(revoked)[refresh := Entry("blacklisted", Some(now + 604_800_000_000_000))]
    {
      if refresh != NO_TOKEN {
        BlacklistToken(now, refresh);
        revoked := SetFor(revoked, refresh, "blacklisted", now, REVOKED_TTL);
      }
      if access != NO_TOKEN {
        BlacklistToken(now, access);
      }
    }

    method ValidateToken(now: int, tok: Token) returns (r: Validation)
      requires NO_TOKEN !in blacklist
      ensures r == Validate(cfg, View(), tok, now)
      ensures r == TokenRevoked <==> tok in blacklist && (blacklist[tok].expires.Some? ==> now < blacklist[tok].expires.value)
      ensures r == InvalidToken <==>
                && r != TokenRevoked
                && !(&& tok.Jwt? && tok.signature == Some(cfg.jwtSecret)
                     && (tok.exp.Some? ==> now < tok.exp.value) && (tok.nbf.Some? ==> tok.nbf.value <= now))
      ensures r == UserSuspended <==> r !in {TokenRevoked, InvalidToken} && tok.user in suspended
      ensures r.Valid? ==> r.user == tok.user && r.role == tok.role
    {
      var listed := IsTokenBlacklisted(now, tok);
      if listed { return TokenRevoked; }
      if !JwtOk(tok, cfg.jwtSecret, now) { return InvalidToken; }
      if tok.user in suspended { return UserSuspended; }
      return Valid(tok.user, tok.role);
    }

    method RefreshTokenForRole(now: int, tok: Token, expected: Option<Role>, nonce: nat) returns (r: Refreshed)
      ensures r == Refresh(cfg, View(), tok, expected, now, nonce)
      ensures r == Unauthorized <==> tok in revoked && (revoked[tok].expires.Some? ==> now < revoked[tok].expires.value)
      ensures r == InvalidOrExpiredRefreshToken <==>
                && r != Unauthorized
                && !(&& tok.Jwt? && tok.signature == Some(cfg.jwtRefreshSecret)
                     && (tok.exp.Some? ==> now < tok.exp.value) && (tok.nbf.Some? ==> tok.nbf.value <= now)
                     && (expected.Some? ==> tok.role == expected.value)
                     && (expected.Some? && tok.user in accounts ==> accounts[tok.user] == expected.value))
      ensures r == AccountNotFound <==> r !in {Unauthorized, InvalidOrExpiredRefreshToken} && tok.user !in accounts
      ensures r.NewAccess? ==>
                && r.token.Jwt? && r.token.user == tok.user && r.token.role == accounts[tok.user]
                && r.token.signature == Some(cfg.jwtSecret) && r.token.nonce == nonce
                && r.token.exp == Some((now + cfg.accessTokenDuration) / 1_000_000_000 * 1_000_000_000)
                && r.token.nbf == Some(now / 1_000_000_000 * 1_000_000_000)
    {
      if Live(revoked, tok, now) { return Unauthorized; }
      if !JwtOk(tok, cfg.jwtRefreshSecret, now) { return InvalidOrExpiredRefreshToken; }
      if expected.Some? && tok.role != expected.value { return InvalidOrExpiredRefreshToken; }
      if tok.user !in accounts { return AccountNotFound; }
      var role := accounts[tok.user];
      if expected.Some? && role != expected.value { return InvalidOrExpiredRefreshToken; }
      return NewAccess(Issued(tok.user, role, cfg.jwtSecret, cfg.accessTokenDuration, now, nonce));
    }
  }

  // ---------------------------------------------------------------- what the keys cover

  ghost predicate EntryOk(s: State, tok: Token) {
    tok in s.blacklist ==> tok.Jwt? && tok.exp.Some? && s.blacklist[tok].expires == tok.exp
  }

  /** Every blacklist key lives exactly as long as its token. */
  ghost predicate Inv(s: State) { forall tok :: EntryOk(s, tok) }

  lemma BlacklistKeepsInv(s: State, tok: Token, now: int)
    requires Inv(s)
    ensures Inv(Blacklisted(s, tok, now))
  {
    forall k ensures EntryOk(Blacklisted(s, tok, now), k) { assert EntryOk(s, k); }
  }

  lemma SameBlacklist(s: State, t: State)
    requires Inv(s) && t.blacklist == s.blacklist
    ensures Inv(t)
  {
    forall k ensures EntryOk(t, k) { assert EntryOk(s, k); }
  }

  lemma StepKeepsInv(s: State, e: Event)
    requires Inv(s)
    ensures Inv(Step(s, e))
  {
    if e.Logout? {
      var b := if e.refresh == NO_TOKEN then s else Blacklisted(s, e.refresh, e.now);
      if e.refresh != NO_TOKEN { BlacklistKeepsInv(s, e.refresh, e.now); }
      var t := if e.refresh == NO_TOKEN then b else b.(revoked := SetFor(b.revoked, e.refresh, "blacklisted", e.now, REVOKED_TTL));
      SameBlacklist(b, t);
      BlacklistKeepsInv(t, e.access, e.now);
    } else {
      SameBlacklist(s, Step(s, e));
    }
  }

  function Run(s: State, events: seq<Event>): State {
    if events == [] then s else Step(Run(s, events[..|events| - 1]), events[|events| - 1])
  }

  /** The instant of the last event, or the start. */
  function Clock(start: int, events: seq<Event>): int {
    if events == [] then start else events[|events| - 1].now
  }

  predicate Timed(start: int, events: seq<Event>) {
    events == [] ||
    (Timed(start, events[..|events| - 1]) && Clock(start, events[..|events| - 1]) <= events[|events| - 1].now)
  }

  lemma RevokedStep(s: State, e: Event, tok: Token)
    ensures tok in s.blacklist ==> tok in Step(s, e).blacklist
    ensures tok in Step(s, e).revoked <==> tok in s.revoked || (e.Logout? && e.refresh == tok && tok != NO_TOKEN)
    ensures tok in Step(s, e).revoked ==>
              Step(s, e).revoked[tok].expires ==
                if e.Logout? && e.refresh == tok && tok != NO_TOKEN then Some(e.now + REVOKED_TTL) else s.revoked[tok].expires
  {
  }

  /** Later logouts only extend a revocation key, and none outlives the last logout by more than seven days. */
  lemma {:induction false} RevokedExtends(s: State, start: int, events: seq<Event>, tok: Token)
    requires Timed(start, events) && tok in s.revoked && s.revoked[tok].expires == Some(start + REVOKED_TTL)
    ensures start <= Clock(start, events) && tok in Run(s, events).revoked
    ensures var until := Run(s, events).revoked[tok].expires;
            until.Some? && start + REVOKED_TTL <= until.value <= Clock(start, events) + REVOKED_TTL
    decreases |events|
  {
    if events != [] {
      RevokedExtends(s, start, events[..|events| - 1], tok);
      RevokedStep(Run(s, events[..|events| - 1]), events[|events| - 1], tok);
    }
  }

  lemma {:induction false} BlacklistSurvives(s: State, start: int, events: seq<Event>, tok: Token)
    requires Inv(s) && Timed(start, events)
    ensures Inv(Run(s, events)) && start <= Clock(start, events)
    ensures tok in s.blacklist ==> tok in Run(s, events).blacklist
    decreases |events|
  {
    if events != [] {
      BlacklistSurvives(s, start, events[..|events| - 1], tok);
      StepKeepsInv(Run(s, events[..|events| - 1]), events[|events| - 1]);
      RevokedStep(Run(s, events[..|events| - 1]), events[|events| - 1], tok);
    }
  }

  /** After a logout, whatever follows, the access token is revoked until its expiry and invalid from then on. */
  lemma LogoutRevokesAccess(cfg: Config, s: State, now: int, refresh: Token, access: Token, events: seq<Event>, t: int)
    requires Inv(s) && access.Jwt? && access.exp.Some?
    requires Timed(now, events) && Clock(now, events) <= t
    ensures var r := Validate(cfg, Run(LoggedOut(s, refresh, access, now), events), access, t);
            if t < access.exp.value then r == TokenRevoked else r == InvalidToken
  {
    var out := LoggedOut(s, refresh, access, now);
    StepKeepsInv(s, Logout(now, refresh, access));
    BlacklistSurvives(out, now, events, access);
    assert EntryOk(Run(out, events), access);
  }

  /** A correctly signed access token stays rejected after its logout exactly when it carries an expiry. */
  lemma AccessRevokedExactly(cfg: Config, s: State, now: int, refresh: Token, access: Token)
    requires Inv(s) && access.Jwt? && JwtOk(access.(exp := None), cfg.jwtSecret, now) && access.user !in s.suspended
    ensures (forall t | now <= t :: !Validate(cfg, LoggedOut(s, refresh, access, now), access, t).Valid?) <==> access.exp.Some?
  {
    if access.exp.Some? {
      forall t | now <= t ensures !Validate(cfg, LoggedOut(s, refresh, access, now), access, t).Valid? {
        LogoutRevokesAccess(cfg, s, now, refresh, access, [], t);
      }
    } else {
      StepKeepsInv(s, Logout(now, refresh, access));
      assert EntryOk(LoggedOut(s, refresh, access, now), access);
      assert Validate(cfg, LoggedOut(s, refresh, access, now), access, now).Valid?;
    }
  }

  /** After a logout, whatever follows, a refresh token that expires within seven days of it never refreshes again. */
  lemma LogoutRevokesRefresh(cfg: Config, s: State, now: int, refresh: Token, access: Token, events: seq<Event>,
                             t: int, expected: Option<Role>, nonce: nat)
    requires refresh.Jwt? && refresh.exp.Some? && refresh.exp.value <= now + REVOKED_TTL
    requires Timed(now, events) && Clock(now, events) <= t
    ensures !Refresh(cfg, Run(LoggedOut(s, refresh, access, now), events), refresh, expected, t, nonce).NewAccess?
  {
    RevokedExtends(LoggedOut(s, refresh, access, now), now, events, refresh);
  }

  /** A refresh token that would have been accepted stays rejected after its logout exactly when it expires within
      the seven days of the revocation key, because refreshing looks at no other key. */
  lemma RefreshRevokedExactly(cfg: Config, s: State, now: int, refresh: Token, access: Token, expected: Option<Role>)
    requires refresh.Jwt? && JwtOk(refresh.(exp := None), cfg.jwtRefreshSecret, now)
    requires refresh.user in s.accounts && (expected.Some? ==> expected.value == refresh.role == s.accounts[refresh.user])
    ensures (forall t | now <= t :: !Refresh(cfg, LoggedOut(s, refresh, access, now), refresh, expected, t, 0).NewAccess?)
            <==> refresh.exp.Some? && refresh.exp.value <= now + REVOKED_TTL
  {
    if refresh.exp.Some? && refresh.exp.value <= now + REVOKED_TTL {
      forall t | now <= t ensures !Refresh(cfg, LoggedOut(s, refresh, access, now), refresh, expected, t, 0).NewAccess? {
        LogoutRevokesRefresh(cfg, s, now, refresh, access, [], t, expected, 0);
      }
    } else {
      assert Refresh(cfg, LoggedOut(s, refresh, access, now), refresh, expected, now + REVOKED_TTL, 0).NewAccess?;
    }
  }

  /** The revocation key set by a logout at `now` lives until the refresh token of that session has expired. */
  predicate Covered(cfg: Config, user: UserId, role: Role, issued: int, now: int) {
    Issued(user, role, cfg.jwtRefreshSecret, cfg.refreshTokenDuration, issued, 0).exp.value <= now + REVOKED_TTL
  }

  /** Every session is covered, whenever it starts and is logged out, exactly when the configured duration
      is at most the seven days of the key. */
  lemma CoveredExactly(cfg: Config, user: UserId, role: Role)
    ensures (forall issued, now | issued <= now :: Covered(cfg, user, role, issued, now))
            <==> cfg.refreshTokenDuration <= REVOKED_TTL
  {
    if cfg.refreshTokenDuration > REVOKED_TTL {
      assert !Covered(cfg, user, role, -cfg.refreshTokenDuration, -cfg.refreshTokenDuration);
    }
  }

  /** Some logout of the run was given this token. */
  predicate Presented(events: seq<Event>, tok: Token) {
    events != [] &&
    (Presented(events[..|events| - 1], tok)
     || (events[|events| - 1].Logout? && (events[|events| - 1].refresh == tok || events[|events| - 1].access == tok)))
  }

  /** Which tokens a run puts on the blacklist, among those that have not expired by its end. */
  lemma {:induction false} BlacklistedExactly(s: State, start: int, events: seq<Event>, tok: Token, t: int)
    requires Timed(start, events) && Clock(start, events) <= t && tok.Jwt? && (tok.exp.Some? ==> t < tok.exp.value)
    ensures tok in Run(s, events).blacklist <==> tok in s.blacklist || (tok.exp.Some? && Presented(events, tok))
    decreases |events|
  {
    if events != [] {
      BlacklistedExactly(s, start, events[..|events| - 1], tok, t);
      BlacklistStep(Run(s, events[..|events| - 1]), events[|events| - 1], tok);
    }
  }

  lemma BlacklistStep(s: State, e: Event, tok: Token)
    requires tok.Jwt? && (tok.exp.Some? ==> e.now < tok.exp.value)
    ensures tok in Step(s, e).blacklist <==>
              tok in s.blacklist || (tok.exp.Some? && e.Logout? && (e.refresh == tok || e.access == tok))
  {
  }

  /** Logouts withdraw exactly the tokens they are given: a good access token that was not listed before is rejected
      after the run if and only if some logout of it named this very token and the token carries an expiry. */
  lemma RevokedExactlyIfPresented(cfg: Config, s: State, start: int, events: seq<Event>, tok: Token, t: int)
    requires Inv(s) && Timed(start, events) && Clock(start, events) <= t
    requires tok.Jwt? && JwtOk(tok, cfg.jwtSecret, t) && tok !in s.blacklist && tok.user !in Run(s, events).suspended
    ensures Validate(cfg, Run(s, events), tok, t).Valid? <==> !(tok.exp.Some? && Presented(events, tok))
  {
    BlacklistedExactly(s, start, events, tok, t);
    BlacklistSurvives(s, start, events, tok);
    assert EntryOk(Run(s, events), tok);
  }

  /** With the shipped durations, logout leaves no instant at which one of the two tokens it is given is still good,
      whenever each of them was issued. */
  lemma LogoutLeavesNoGap(cfg: Config, s: State, access: Token, refresh: Token, user: UserId, role: Role,
                          accessIssued: int, refreshIssued: int, n: nat, m: nat, now: int,
                          events: seq<Event>, t: int, expected: Option<Role>)
    requires Inv(s) && Shipped(cfg) && accessIssued <= now && refreshIssued <= now
    requires access == Issued(user, role, cfg.jwtSecret, cfg.accessTokenDuration, accessIssued, n)
    requires refresh == Issued(user, role, cfg.jwtRefreshSecret, cfg.refreshTokenDuration, refreshIssued, m)
    requires Timed(now, events) && Clock(now, events) <= t
    ensures var after := Run(LoggedOut(s, refresh, access, now), events);
            !Validate(cfg, after, access, t).Valid? && !Refresh(cfg, after, refresh, expected, t, 0).NewAccess?
  {
    LogoutRevokesAccess(cfg, s, now, refresh, access, events, t);
    LogoutRevokesRefresh(cfg, s, now, refresh, access, events, t, expected, 0);
  }

  /** Any other access token of the session, as every refresh issues one, outlives the logout: unless a later logout
      is given it too, it is good until it expires, which is at most the access duration after the logout. */
  lemma OtherAccessTokensLiveOut(cfg: Config, s: State, refresh: Token, access: Token, other: Token, user: UserId, role: Role,
                                 issued: int, n: nat, now: int, events: seq<Event>, t: int)
    requires Inv(s) && issued <= now && other == Issued(user, role, cfg.jwtSecret, cfg.accessTokenDuration, issued, n)
    requires other !in s.blacklist && other != refresh && other != access && !Presented(events, other)
    requires Timed(now, events) && Clock(now, events) <= t && user !in Run(LoggedOut(s, refresh, access, now), events).suspended
    ensures Validate(cfg, Run(LoggedOut(s, refresh, access, now), events), other, t).Valid? <==> t < other.exp.value
    ensures other.exp.value <= now + cfg.accessTokenDuration
  {
    if t < other.exp.value {
      var out := LoggedOut(s, refresh, access, now);
      StepKeepsInv(s, Logout(now, refresh, access));
      BlacklistSurvives(out, now, events, other);
      BlacklistStep(s, Logout(now, refresh, access), other);
      RevokedExactlyIfPresented(cfg, out, now, events, other, t);
    }
  }

  // ---------------------------------------------------------------- who a renewed token speaks for

  /** Event n of the run is a renewal that returned this access token. */
  ghost predicate Renews(cfg: Config, s: State, events: seq<Event>, n: nat, access: Token)
    requires n < |events|
  {
    var e := events[n];
    e.Renew? && Refresh(cfg, Run(s, events[..n]), e.refresh, e.expected, e.now, e.nonce) == NewAccess(access)
  }

  lemma {:induction false} ClockGrows(start: int, events: seq<Event>, n: nat)
    requires Timed(start, events) && n < |events|
    ensures events[n].now <= Clock(start, events)
    decreases |events|
  {
    if n < |events| - 1 { ClockGrows(start, events[..|events| - 1], n); }
  }

  /** What a renewed token is answered at any later instant: until it expires, is given to a logout or its user is
      suspended, it speaks for the user of the refresh token, in the role that account had when it was renewed. */
  lemma RenewedTokenSpeaksFor(cfg: Config, s: State, start: int, events: seq<Event>, n: nat, access: Token, t: int)
    requires Inv(s) && Timed(start, events) && Clock(start, events) <= t && n < |events|
    requires Renews(cfg, s, events, n, access) && access !in s.blacklist
    ensures var user, held := events[n].refresh.user, Run(s, events[..n]).accounts;
            && user in held && access.Jwt? && access.exp.Some?
            && Validate(cfg, Run(s, events), access, t) ==
                 if t >= access.exp.value then InvalidToken
                 else if Presented(events, access) then TokenRevoked
                 else if user in Run(s, events).suspended then UserSuspended
                 else Valid(user, held[user])
  {
    ClockGrows(start, events, n);
    BlacklistSurvives(s, start, events, access);
    assert EntryOk(Run(s, events), access);
    if t < access.exp.value { BlacklistedExactly(s, start, events, access, t); }
  }

  /** A renewed token is answered as an administrator only if its account was one when it was renewed, by a token of it. */
  lemma AdminsWereAdmins(cfg: Config, s: State, start: int, events: seq<Event>, n: nat, access: Token, t: int, user: UserId)
    requires Inv(s) && Timed(start, events) && Clock(start, events) <= t && n < |events|
    requires Renews(cfg, s, events, n, access) && access !in s.blacklist
    requires Validate(cfg, Run(s, events), access, t) == Valid(user, ADMIN)
    ensures events[n].refresh.Jwt? && events[n].refresh.user == user && events[n].refresh.signature == Some(cfg.jwtRefreshSecret)
    ensures user in Run(s, events[..n]).accounts && Run(s, events[..n]).accounts[user] == ADMIN
  {
    RenewedTokenSpeaksFor(cfg, s, start, events, n, access, t);
  }

  /** The invariant holds from the empty store on, so the results above apply to every run of the service. */
  lemma RunsKeepInv(accounts: map<UserId, Role>, start: int, events: seq<Event>)
    requires Timed(start, events)
    ensures Inv(Run(State(map[], map[], {}, accounts), events))
  {
    var s := State(map[], map[], {}, accounts);
    forall tok ensures EntryOk(s, tok) {}
    BlacklistSurvives(s, start, events, NO_TOKEN);
  }
}
