/**
  `Login`: logging a user on with a username (or email) and password, or
  resuming a session from the `bolt_authtoken` cookie; the failed-login
  counter and throttle, the last-seen bookkeeping, and the auth-token
  record. The hasher, the random salt and `getAuthToken` are parameters
  of the environment; the clock is an integer number of seconds.
 */
module Login {
  import opened Common
  import opened Users

  const InvalidLoginParameters: string := "Invalid login parameters."
  const AccountDisabled: string := "Your account is disabled. Sorry about that."
  const WrongCredentials: string := "Username or password not correct. Please check your input."
  const LoggedOn: string := "You've been logged on successfully."
  const SessionResumed: string := "Session resumed."
  /** What the password of the logged-on user object is overwritten with before it goes into the session. */
  const MaskedPassword: string := "**dontchange**"

  /** `Entity\Authtoken`: a remembered login for one user, IP address and user agent. */
  datatype Authtoken = Authtoken(
    username: string,
    token: string,
    salt: string,
    validity: int,
    ip: string,
    lastseen: int,
    useragent: string
  )

  /** The `authentication` session entry: the `Token` built from the user and the auth-token record. */
  datatype Session = Session(user: User, token: Authtoken)

  datatype AuthState = AuthState(
    users: seq<User>,
    tokens: seq<Authtoken>,
    session: Option<Session>,
    log: seq<Event>
  )

  /**
    The request and the services `Login` relies on: the clock, the
    caller's IP address and user agent, the cookie lifetime in seconds,
    whether the users repository accepts a save, the 32-character salt
    the random generator produces, phpass `CheckPassword(plain, hash)` and
    `getAuthToken(username, salt)`.
   */
  datatype Env = Env(
    now: int,
    remoteIP: string,
    userAgent: string,
    cookieLifetime: int,
    saveOk: bool,
    salt: string,
    checkPassword: (string, string) -> bool,
    authToken: (string, string) -> string
  )

  /** A login step's new state and its boolean result. */
  datatype Outcome = Outcome(state: AuthState, ok: bool)

  /** A user lookup's new state and the position of the user it returned, if any. */
  datatype Lookup = Lookup(state: AuthState, user: Option<nat>)

  function Logged(st: AuthState, events: seq<Event>): AuthState {
    st.(log := st.log + events)
  }

  /**
    `throttleUntil`: no throttle below five attempts, otherwise a wait of
    (attempts - 4) squared seconds from now.
   */
  function ThrottleUntil(attempts: int, now: int): (r: Option<int>)
    ensures r.None? <==> attempts < 5
    ensures r.Some? ==> r.value > now
  {
    if attempts < 5 then None
    else
      var wait := (attempts - 4) * (attempts - 4);
      SquareAtLeastOne(attempts - 4);
      Some(now + wait)
  }

  lemma SquareAtLeastOne(x: int)
    requires x >= 1
    ensures x * x >= 1
  {
  }

  /** The waits are the squares 1, 4, 9, ... and grow with every further attempt. */
  lemma ThrottleWaitsAreSquares(a: int, b: int, now: int)
    requires 5 <= a < b
    ensures ThrottleUntil(5, now) == Some(now + 1)
    ensures ThrottleUntil(a, now).value - now == (a - 4) * (a - 4)
    ensures ThrottleUntil(a, now).value < ThrottleUntil(b, now).value
  {
    assert (a - 4) * (a - 4) < (b - 4) * (a - 4) <= (b - 4) * (b - 4);
  }

  /** `AuthtokenRepository::deleteExpiredTokens`: drop the records whose validity lies before now. */
  function DeleteExpired(tokens: seq<Authtoken>, now: int): (r: seq<Authtoken>)
    ensures forall t :: t in r <==> t in tokens && t.validity >= now
    ensures |r| <= |tokens|
  {
    if |tokens| == 0 then []
    else
      var rest := DeleteExpired(tokens[1..], now);
      assert forall t :: t in tokens <==> t == tokens[0] || t in tokens[1..];
      if tokens[0].validity >= now then [tokens[0]] + rest else rest
  }

  /** No record has expired: what `deleteExpiredTokens` leaves behind. */
  predicate AllCurrent(tokens: seq<Authtoken>, now: int) {
    forall t :: t in tokens ==> t.validity >= now
  }

  predicate TokenMatches(t: Authtoken, cookie: string, ip: string, agent: string) {
    t.token == cookie && t.ip == ip && t.useragent == agent
  }

  predicate UserTokenMatches(t: Authtoken, username: string, ip: string, agent: string) {
    t.username == username && t.ip == ip && t.useragent == agent
  }

  /** `AuthtokenRepository::getToken`: the first record for this cookie, IP and user agent. */
  function GetToken(tokens: seq<Authtoken>, cookie: string, ip: string, agent: string): (r: Option<nat>)
    ensures r.Some? ==> r.value < |tokens| && TokenMatches(tokens[r.value], cookie, ip, agent)
    ensures r.None? <==> forall j :: 0 <= j < |tokens| ==> !TokenMatches(tokens[j], cookie, ip, agent)
  {
    FirstIndex(tokens, (t: Authtoken) => TokenMatches(t, cookie, ip, agent))
  }

  /** `AuthtokenRepository::getUserToken`: the first record for this user, IP and user agent. */
  function GetUserToken(tokens: seq<Authtoken>, username: string, ip: string, agent: string): (r: Option<nat>)
    ensures r.Some? ==> r.value < |tokens| && UserTokenMatches(tokens[r.value], username, ip, agent)
    ensures r.Some? ==> forall j :: 0 <= j < r.value ==> !UserTokenMatches(tokens[j], username, ip, agent)
    ensures r.None? <==> forall j :: 0 <= j < |tokens| ==> !UserTokenMatches(tokens[j], username, ip, agent)
  {
    FirstIndex(tokens, (t: Authtoken) => UserTokenMatches(t, username, ip, agent))
  }

  /** `getUserEntity`: the user for `name` if it exists and is enabled; otherwise an error is flashed. */
  function GetUserEntity(st: AuthState, name: string): (r: Lookup)
    ensures r.user.Some? <==> GetUser(st.users, name).Some? && st.users[GetUser(st.users, name).value].enabled
    ensures r.user.Some? ==> r.user == GetUser(st.users, name) && r.state == st
    ensures r.user.None? ==> r.state == Logged(st, [FlashError(AccountDisabled)])
  {
    match GetUser(st.users, name)
    case None => Lookup(Logged(st, [FlashError(AccountDisabled)]), None)
    case Some(i) =>
      if !st.users[i].enabled then Lookup(Logged(st, [FlashError(AccountDisabled)]), None)
      else Lookup(st, Some(i))
  }

  /** The user record after a successful logon: seen now from this address, counter and throttle reset. */
  function Touched(u: User, env: Env): User {
    u.(lastseen := Some(env.now), lastip := Some(env.remoteIP),
       failedlogins := 0, throttleduntil := ThrottleUntil(0, env.now))
  }

  /**
    `updateUserLogin`. The password is unset before the save, so the stored
    password is left alone; the result is whether the save succeeded.
   */
  function UpdateUserLogin(st: AuthState, env: Env, i: nat): (r: Outcome)
    requires i < |st.users|
    ensures r.ok == env.saveOk
    ensures !r.ok ==> r.state == st
    ensures r.ok ==> |r.state.users| == |st.users|
    ensures r.ok ==> forall j :: 0 <= j < |st.users| && j != i ==> r.state.users[j] == st.users[j]
    ensures r.ok ==> var u := r.state.users[i];
      && u.failedlogins == 0 && u.throttleduntil.None?
      && u.lastseen == Some(env.now) && u.lastip == Some(env.remoteIP)
      && u.password == st.users[i].password
      && u.username == st.users[i].username
    ensures r.ok ==> r.state.users[i] == st.users[i].(lastseen := Some(env.now), lastip := Some(env.remoteIP),
                                                      failedlogins := 0, throttleduntil := None)
    ensures r.ok ==> r.state.log == st.log + [FlashSuccess(LoggedOn)]
    ensures r.state.tokens == st.tokens && r.state.session == st.session
  {
    if env.saveOk then
      Outcome(Logged(st.(users := st.users[i := Touched(st.users[i], env)]), [FlashSuccess(LoggedOn)]), true)
    else Outcome(st, false)
  }

  /** `updateAuthToken`: the record written for this user, address and agent, valid for the cookie lifetime. */
  function NewAuthtoken(username: string, env: Env): (t: Authtoken)
    ensures t.username == username && t.salt == env.salt && t.token == env.authToken(username, env.salt)
    ensures t.validity - env.now == env.cookieLifetime && t.lastseen == env.now
    ensures UserTokenMatches(t, username, env.remoteIP, env.userAgent)
  {
    Authtoken(username, env.authToken(username, env.salt), env.salt,
              env.now + env.cookieLifetime, env.remoteIP, env.now, env.userAgent)
  }

  /**
    `updateAuthToken`: the existing record for this user, IP and user agent
    is overwritten; without one a new record is added.
   */
  function UpdateAuthToken(tokens: seq<Authtoken>, env: Env, username: string): (r: seq<Authtoken>)
    ensures GetUserToken(tokens, username, env.remoteIP, env.userAgent).Some? ==> |r| == |tokens|
    ensures GetUserToken(tokens, username, env.remoteIP, env.userAgent).None? ==> r == tokens + [NewAuthtoken(username, env)]
    ensures forall j :: 0 <= j < |tokens| && !UserTokenMatches(tokens[j], username, env.remoteIP, env.userAgent) ==>
      r[j] == tokens[j]
    ensures NewAuthtoken(username, env) in r
    ensures forall t :: t in r ==> t in tokens || t == NewAuthtoken(username, env)
  {
    match GetUserToken(tokens, username, env.remoteIP, env.userAgent)
    case Some(k) =>
      var r := tokens[k := NewAuthtoken(username, env)];
      assert r[k] == NewAuthtoken(username, env);
      r
    case None => tokens + [NewAuthtoken(username, env)]
  }

  /** After `updateAuthToken`, looking the user's token up again finds exactly the record just written. */
  lemma UpdatedTokenIsFound(tokens: seq<Authtoken>, env: Env, username: string)
    ensures var r := UpdateAuthToken(tokens, env, username);
      var k := GetUserToken(r, username, env.remoteIP, env.userAgent);
      k.Some? && r[k.value] == NewAuthtoken(username, env)
  {
    var r := UpdateAuthToken(tokens, env, username);
    var k := GetUserToken(tokens, username, env.remoteIP, env.userAgent);
    var at := if k.Some? then k.value else |tokens|;
    assert at < |r| && r[at] == NewAuthtoken(username, env);
    assert forall j :: 0 <= j < at ==> r[j] == tokens[j];
    var found := GetUserToken(r, username, env.remoteIP, env.userAgent);
    assert found.Some? by {
      assert UserTokenMatches(r[at], username, env.remoteIP, env.userAgent);
    }
    assert found.value == at;
  }

  /**
    `loginFinish`: nothing else happens when the user record cannot be
    saved; otherwise the auth token is refreshed and the user, with its
    password masked, goes into the session.
   */
  function LoginFinish(st: AuthState, env: Env, i: nat): (r: Outcome)
    requires i < |st.users|
    ensures r.ok == env.saveOk
    ensures !r.ok ==> r.state == st
    ensures r.ok ==> (r.state.session.Some?
      && r.state.session.value.user.password == MaskedPassword
      && r.state.session.value.user.username == st.users[i].username
      && r.state.session.value.token == NewAuthtoken(st.users[i].username, env)
      && r.state.session.value.token in r.state.tokens)
    ensures r.ok ==> r.state.users == UpdateUserLogin(st, env, i).state.users
    ensures r.ok ==> r.state.tokens == UpdateAuthToken(st.tokens, env, st.users[i].username)
    ensures AllCurrent(st.tokens, env.now) && env.cookieLifetime >= 0 ==> AllCurrent(r.state.tokens, env.now)
  {
    var up := UpdateUserLogin(st, env, i);
    if !up.ok then Outcome(up.state, false)
    else
      var username := st.users[i].username;
      var user := Touched(st.users[i], env).(password := MaskedPassword);
      var tokens := UpdateAuthToken(st.tokens, env, username);
      Outcome(up.state.(tokens := tokens, session := Some(Session(user, NewAuthtoken(username, env)))), true)
  }

  /**
    `loginFailed`: an error for the visitor, a line in the system log, the
    counter one higher, and a throttle computed from the NEW count plus
    one (the counter is re-read after it has been incremented).
   */
  function LoginFailed(st: AuthState, env: Env, i: nat): (r: AuthState)
    requires i < |st.users|
    ensures |r.users| == |st.users|
    ensures forall j :: 0 <= j < |st.users| && j != i ==> r.users[j] == st.users[j]
    ensures env.saveOk ==> r.users[i] == st.users[i].(
      failedlogins := st.users[i].failedlogins + 1,
      throttleduntil := ThrottleUntil(st.users[i].failedlogins + 2, env.now))
    ensures !env.saveOk ==> r.users == st.users
    ensures r.log == st.log + [FlashError(WrongCredentials),
      SystemInfo("Failed login attempt for '" + st.users[i].displayname + "'.")]
    ensures r.tokens == st.tokens && r.session == st.session
  {
    var u := st.users[i];
    var logged := Logged(st, [FlashError(WrongCredentials),
      SystemInfo("Failed login attempt for '" + u.displayname + "'.")]);
    var failed := u.(failedlogins := u.failedlogins + 1);
    var throttled := failed.(throttleduntil := ThrottleUntil(failed.failedlogins + 1, env.now));
    if env.saveOk then logged.(users := st.users[i := throttled]) else logged
  }

  /** Because of the re-read, the fourth consecutive failure is already throttled by one second. */
  lemma FourthFailureIsThrottled(st: AuthState, env: Env, i: nat)
    requires i < |st.users| && st.users[i].failedlogins == 3 && env.saveOk
    ensures LoginFailed(st, env, i).users[i].failedlogins == 4
    ensures LoginFailed(st, env, i).users[i].throttleduntil == Some(env.now + 1)
    ensures ThrottleUntil(4, env.now).None?
  {
  }

  /** The same users, each with the stored password hash it had. */
  predicate PasswordsKept(before: seq<User>, after: seq<User>) {
    |after| == |before| && forall j :: 0 <= j < |before| ==> after[j].password == before[j].password
  }

  /** `loginCheckPassword`: look the user up, check the password, and record a failure or finish the logon. */
  function LoginCheckPassword(st: AuthState, env: Env, name: string, password: string): (r: Outcome)
    ensures r.ok <==> && GetUser(st.users, name).Some?
                      && st.users[GetUser(st.users, name).value].enabled
                      && env.checkPassword(password, st.users[GetUser(st.users, name).value].password)
                      && env.saveOk
    ensures !r.ok ==> r.state.session == st.session && r.state.tokens == st.tokens
    ensures AllCurrent(st.tokens, env.now) && env.cookieLifetime >= 0 ==> AllCurrent(r.state.tokens, env.now)
    ensures r.ok ==> (r.state.session.Some?
      && r.state.session.value.user.username == st.users[GetUser(st.users, name).value].username)
    ensures PasswordsKept(st.users, r.state.users)
    ensures r.ok ==> r.state.tokens == UpdateAuthToken(st.tokens, env, r.state.session.value.user.username)
  {
    var look := GetUserEntity(st, name);
    match look.user
    case None => Outcome(look.state, false)
    case Some(i) =>
      if !env.checkPassword(password, st.users[i].password) then Outcome(LoginFailed(st, env, i), false)
      else LoginFinish(st, env, i)
  }

  /**
    `loginCheckAuthtoken`: the cookie must name a record for this IP and
    user agent whose token is `getAuthToken(username, salt)`, and that
    user must exist and be enabled.
   */
  function LoginCheckAuthtoken(st: AuthState, env: Env, cookie: string): (r: Outcome)
    ensures r.ok ==> exists k :: (0 <= k < |st.tokens|
      && TokenMatches(st.tokens[k], cookie, env.remoteIP, env.userAgent)
      && env.authToken(st.tokens[k].username, st.tokens[k].salt) == st.tokens[k].token
      && GetUserEntity(st, st.tokens[k].username).user.Some?)
    ensures GetToken(st.tokens, cookie, env.remoteIP, env.userAgent).None? ==>
      !r.ok && r.state == Logged(st, [FlashError(InvalidLoginParameters)])
    ensures !r.ok ==> r.state.session == st.session && r.state.tokens == st.tokens
    ensures AllCurrent(st.tokens, env.now) && env.cookieLifetime >= 0 ==> AllCurrent(r.state.tokens, env.now)
    ensures PasswordsKept(st.users, r.state.users)
    ensures r.ok ==> (r.state.session.Some?
      && r.state.tokens == UpdateAuthToken(st.tokens, env, r.state.session.value.user.username))
  {
    match GetToken(st.tokens, cookie, env.remoteIP, env.userAgent)
    case None => Outcome(Logged(st, [FlashError(InvalidLoginParameters)]), false)
    case Some(k) =>
      var t := st.tokens[k];
      if env.authToken(t.username, t.salt) != t.token then Outcome(st, false)
      else
        var look := GetUserEntity(st, t.username);
        match look.user
        case None => Outcome(look.state, false)
        case Some(i) => LoginFinish(Logged(st, [FlashSuccess(SessionResumed)]), env, i)
  }

  /**
    `login`: expired tokens are removed first; then the password path when
    both username and password are given, otherwise the cookie path when a
    cookie is given, otherwise an error and `false`.
   */
  function Login(st: AuthState, env: Env, userName: Option<string>, password: Option<string>,
                 authCookie: Option<string>): (r: Outcome)
    ensures env.cookieLifetime >= 0 ==> AllCurrent(r.state.tokens, env.now)
    ensures (userName.None? || password.None?) && authCookie.None? ==>
      !r.ok && r.state == st.(tokens := DeleteExpired(st.tokens, env.now), log := st.log + [FlashError(InvalidLoginParameters)])
    ensures userName.Some? && password.Some? ==>
      (r.ok <==> && GetUser(st.users, userName.value).Some?
                 && st.users[GetUser(st.users, userName.value).value].enabled
                 && env.checkPassword(password.value, st.users[GetUser(st.users, userName.value).value].password)
                 && env.saveOk)
    ensures (userName.None? || password.None?) && r.ok ==>
      authCookie.Some? && exists t :: (t in st.tokens && t.validity >= env.now
        && TokenMatches(t, authCookie.value, env.remoteIP, env.userAgent)
        && env.authToken(t.username, t.salt) == t.token)
    ensures r.ok ==> r.state.session.Some? && r.state.session.value.user.password == MaskedPassword
    ensures !r.ok ==> r.state.session == st.session
    ensures !r.ok ==> r.state.tokens == DeleteExpired(st.tokens, env.now)
    ensures r.ok ==> r.state.tokens == UpdateAuthToken(DeleteExpired(st.tokens, env.now), env, r.state.session.value.user.username)
  {
    var pruned := st.(tokens := DeleteExpired(st.tokens, env.now));
    if userName.Some? && password.Some? then LoginCheckPassword(pruned, env, userName.value, password.value)
    else if authCookie.Some? then
      LoginCheckAuthtoken(pruned, env, authCookie.value)
    else Outcome(Logged(pruned, [FlashError(InvalidLoginParameters)]), false)
  }

  /** No way of logging on changes a stored password: it is unset before the save and masked only in the session. */
  lemma LoginKeepsStoredPasswords(st: AuthState, env: Env, userName: Option<string>, password: Option<string>,
                                  authCookie: Option<string>)
    ensures var r := Login(st, env, userName, password, authCookie);
      && |r.state.users| == |st.users|
      && forall j :: 0 <= j < |st.users| ==> r.state.users[j].password == st.users[j].password
  {
  }

  /** A wrong password for an enabled user counts exactly one more failure and logs nobody on. */
  lemma WrongPasswordCountsOneFailure(st: AuthState, env: Env, name: string, password: string)
    requires GetUser(st.users, name).Some?
    requires st.users[GetUser(st.users, name).value].enabled
    requires !env.checkPassword(password, st.users[GetUser(st.users, name).value].password)
    requires env.saveOk
    ensures var i := GetUser(st.users, name).value;
      var r := Login(st, env, Some(name), Some(password), None);
      && !r.ok
      && r.state.users[i].failedlogins == st.users[i].failedlogins + 1
      && r.state.users[i].throttleduntil == ThrottleUntil(st.users[i].failedlogins + 2, env.now)
      && r.state.session == st.session
  {
  }

  /** A successful password logon clears the failure counter and the throttle and records the visit. */
  lemma GoodPasswordResetsCounter(st: AuthState, env: Env, name: string, password: string)
    requires Login(st, env, Some(name), Some(password), None).ok
    ensures GetUser(st.users, name).Some?
    ensures var i := GetUser(st.users, name).value;
      var r := Login(st, env, Some(name), Some(password), None);
      && r.state.users[i].failedlogins == 0
      && r.state.users[i].throttleduntil.None?
      && r.state.users[i].lastseen == Some(env.now)
      && r.state.users[i].lastip == Some(env.remoteIP)
      && r.state.session.value.user.username == st.users[i].username
  {
  }
}
