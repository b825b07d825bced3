/**
  `Password`: setting a random password from the command line, and the
  two-step reset (a request stores a shadow password, a shadow token and
  a validity; a confirmation from the same address before the validity
  runs out promotes the shadow password). The random generator, phpass
  hashing and the clock are parameters; the reset mail is not modelled.
 */
module Password {
  import opened Common
  import opened Strings
  import opened Users

  /** The least hash strength `setRandomPassword` hashes with. */
  const MinHashStrength: int := 8
  /** `PT2H`: a reset request stays valid for two hours. */
  const ResetWindow: int := 7200

  const ResetSuccessful: string :=
    "Password reset successful! You can now log on with the password that was sent to you via email."
  const ResetFailed: string :=
    "Password reset not successful! Either the token was incorrect, or you were too late, or you tried to reset the password from a different IP-address."
  const InvalidTokenUsed: string := "Somebody tried to reset a password with an invalid token."

  /** The users repository and the log. */
  datatype PasswordState = PasswordState(users: seq<User>, log: seq<Event>)

  /**
    The request: the clock, the caller's IP address, the hash strength the
    reset request hashes with, and phpass `HashPassword` for a strength.
   */
  datatype PasswordEnv = PasswordEnv(
    now: int,
    remoteIP: string,
    hashStrength: int,
    hash: (int, string) -> string
  )

  /** `setRandomPassword`'s new state and its result: the new password, or PHP `false`. */
  datatype RandomReset = RandomReset(state: PasswordState, password: Option<string>)

  /** A reset request's new state and its boolean result. */
  datatype RequestOutcome = RequestOutcome(state: PasswordState, ok: bool)

  /** `max(general/hash_strength, 8)`, where an unset option is `null` and loses to 8. */
  function HashStrength(configured: Option<int>): (r: int)
    ensures r >= MinHashStrength
    ensures configured.Some? ==> r >= configured.value
    ensures r == MinHashStrength || (configured.Some? && r == configured.value)
  {
    match configured
    case None => MinHashStrength
    case Some(c) => if c > MinHashStrength then c else MinHashStrength
  }

  /** The user with every shadow field cleared, as after a completed or superseded reset. */
  function ShadowCleared(u: User): (r: User)
    ensures r.shadowpassword == "" && r.shadowtoken == "" && r.shadowvalidity.None?
    ensures r.(shadowpassword := u.shadowpassword, shadowtoken := u.shadowtoken,
               shadowvalidity := u.shadowvalidity) == u
  {
    u.(shadowpassword := "", shadowtoken := "", shadowvalidity := None)
  }

  /**
    `setRandomPassword`. `generated` is the 12-character string the
    random generator returns; it is hashed with strength at least 8, and
    the shadow fields are cleared. Without a matching user nothing
    changes and the result is `false`.
   */
  function SetRandomPassword(st: PasswordState, name: string, configured: Option<int>,
                             generated: string, hash: (int, string) -> string): (r: RandomReset)
    ensures r.password.None? <==> GetUser(st.users, name).None?
    ensures r.password.None? ==> r.state == st
    ensures r.password.Some? ==> r.password.value == generated
    ensures |r.state.users| == |st.users|
    ensures GetUser(st.users, name).Some? ==> var i := GetUser(st.users, name).value;
      && r.state.users[i] == ShadowCleared(st.users[i]).(password := hash(HashStrength(configured), generated))
      && (forall j :: 0 <= j < |st.users| && j != i ==> r.state.users[j] == st.users[j])
      && r.state.log == st.log + [SystemInfo("Password for user '" + st.users[i].username + "' was reset via Nut.")]
  {
    match GetUser(st.users, name)
    case None => RandomReset(st, None)
    case Some(i) =>
      var u := ShadowCleared(st.users[i]).(password := hash(HashStrength(configured), generated));
      var logged := st.log + [SystemInfo("Password for user '" + st.users[i].username + "' was reset via Nut.")];
      RandomReset(PasswordState(st.users[i := u], logged), Some(generated))
  }

  /** The suffix both reset steps append to a token: a dash and the IP address with its dots turned into dashes. */
  function ShadowSuffix(ip: string): (r: string)
    ensures |r| == |ip| + 1 && r[0] == '-'
    ensures forall k :: 0 < k < |r| ==> r[k] == (if ip[k - 1] == '.' then '-' else ip[k - 1])
    ensures '.' !in r
  {
    ReplaceCharIsMapChar(ip, '.', '-');
    "-" + ReplaceAll(ip, ".", "-")
  }

  /**
    `UsersRepository::getUserShadowAuth`: the first user holding this
    shadow token whose shadow validity has not yet passed.
   */
  predicate ShadowMatches(u: User, token: string, now: int) {
    u.shadowtoken == token && u.shadowvalidity.Some? && u.shadowvalidity.value > now
  }

  function GetUserShadowAuth(users: seq<User>, token: string, now: int): (r: Option<nat>)
    ensures r.Some? ==> r.value < |users| && ShadowMatches(users[r.value], token, now)
    ensures r.Some? ==> forall j :: 0 <= j < r.value ==> !ShadowMatches(users[j], token, now)
    ensures r.None? <==> forall j :: 0 <= j < |users| ==> !ShadowMatches(users[j], token, now)
  {
    FirstIndex(users, (u: User) => ShadowMatches(u, token, now))
  }

  /**
    `resetPasswordRequest`. An unknown user gets the "link has been sent"
    message and `false`, and nothing is stored. A known user gets the hash
    of the new shadow password, the 32-character shadow token with the
    caller's address appended, and a validity two hours from now.
   */
  function ResetPasswordRequest(st: PasswordState, env: PasswordEnv, name: string,
                                shadowPassword: string, shadowToken: string): (r: RequestOutcome)
    ensures r.ok <==> GetUser(st.users, name).Some?
    ensures !r.ok ==> r.state == st.(log := st.log + [FlashInfo("A password reset link has been sent to '" + name + "'.")])
    ensures r.ok ==> var i := GetUser(st.users, name).value;
      && |r.state.users| == |st.users|
      && (forall j :: 0 <= j < |st.users| && j != i ==> r.state.users[j] == st.users[j])
      && r.state.users[i] == st.users[i].(
           shadowpassword := env.hash(env.hashStrength, shadowPassword),
           shadowtoken := shadowToken + ShadowSuffix(env.remoteIP),
           shadowvalidity := Some(env.now + ResetWindow))
      && r.state.log == st.log
  {
    match GetUser(st.users, name)
    case None =>
      RequestOutcome(st.(log := st.log + [FlashInfo("A password reset link has been sent to '" + name + "'.")]), false)
    case Some(i) =>
      var u := st.users[i].(
        shadowpassword := env.hash(env.hashStrength, shadowPassword),
        shadowtoken := shadowToken + ShadowSuffix(env.remoteIP),
        shadowvalidity := Some(env.now + ResetWindow));
      RequestOutcome(st.(users := st.users[i := u]), true)
  }

  /**
    `resetPasswordConfirm`: the caller's address is appended to the token
    and the user holding it, still valid, gets the shadow password as its
    password with the shadow fields cleared. Otherwise nothing is stored
    and both logs get an error.
   */
  function ResetPasswordConfirm(st: PasswordState, env: PasswordEnv, token: string): (r: PasswordState)
    ensures |r.users| == |st.users|
    ensures GetUserShadowAuth(st.users, token + ShadowSuffix(env.remoteIP), env.now).None? ==>
      r == st.(log := st.log + [SystemError(InvalidTokenUsed), FlashError(ResetFailed)])
    ensures GetUserShadowAuth(st.users, token + ShadowSuffix(env.remoteIP), env.now).Some? ==>
      var i := GetUserShadowAuth(st.users, token + ShadowSuffix(env.remoteIP), env.now).value;
      && r.users[i] == ShadowCleared(st.users[i]).(password := st.users[i].shadowpassword)
      && (forall j :: 0 <= j < |st.users| && j != i ==> r.users[j] == st.users[j])
      && r.log == st.log + [FlashSuccess(ResetSuccessful)]
  {
    match GetUserShadowAuth(st.users, token + ShadowSuffix(env.remoteIP), env.now)
    case None => st.(log := st.log + [SystemError(InvalidTokenUsed), FlashError(ResetFailed)])
    case Some(i) =>
      var u := ShadowCleared(st.users[i]).(password := st.users[i].shadowpassword);
      PasswordState(st.users[i := u], st.log + [FlashSuccess(ResetSuccessful)])
  }

  /**
    The round trip: a request followed, from the same address and within
    two hours, by a confirmation with the token from the mail gives the
    user the hash of the mailed shadow password and clears the reset.
    The stored shadow token must belong to this user alone.
   */
  lemma RequestThenConfirm(st: PasswordState, env: PasswordEnv, later: PasswordEnv, name: string,
                           shadowPassword: string, shadowToken: string)
    requires GetUser(st.users, name).Some?
    requires later.remoteIP == env.remoteIP && env.now <= later.now < env.now + ResetWindow
    requires forall j :: 0 <= j < |st.users| && j != GetUser(st.users, name).value ==>
      st.users[j].shadowtoken != shadowToken + ShadowSuffix(env.remoteIP)
    ensures var i := GetUser(st.users, name).value;
      var req := ResetPasswordRequest(st, env, name, shadowPassword, shadowToken);
      var done := ResetPasswordConfirm(req.state, later, shadowToken);
      && req.ok
      && done.users[i] == ShadowCleared(st.users[i]).(password := env.hash(env.hashStrength, shadowPassword))
      && (forall j :: 0 <= j < |st.users| && j != i ==> done.users[j] == st.users[j])
      && done.log == st.log + [FlashSuccess(ResetSuccessful)]
  {
    var i := GetUser(st.users, name).value;
    var req := ResetPasswordRequest(st, env, name, shadowPassword, shadowToken);
    var full := shadowToken + ShadowSuffix(later.remoteIP);
    assert ShadowMatches(req.state.users[i], full, later.now);
    assert forall j :: 0 <= j < |st.users| && j != i ==> !ShadowMatches(req.state.users[j], full, later.now);
    var found := GetUserShadowAuth(req.state.users, full, later.now);
    assert found == Some(i);
  }

  /** A confirmation two hours or more after the request finds nothing to confirm and stores nothing. */
  lemma LateConfirmFails(st: PasswordState, env: PasswordEnv, later: PasswordEnv, name: string,
                         shadowPassword: string, shadowToken: string, token: string)
    requires GetUser(st.users, name).Some?
    requires later.now >= env.now + ResetWindow
    requires forall j :: 0 <= j < |st.users| && j != GetUser(st.users, name).value ==>
      !ShadowMatches(st.users[j], token + ShadowSuffix(later.remoteIP), later.now)
    ensures var req := ResetPasswordRequest(st, env, name, shadowPassword, shadowToken);
      ResetPasswordConfirm(req.state, later, token).users == req.state.users
  {
    var i := GetUser(st.users, name).value;
    var req := ResetPasswordRequest(st, env, name, shadowPassword, shadowToken);
    var full := token + ShadowSuffix(later.remoteIP);
    assert !ShadowMatches(req.state.users[i], full, later.now);
    assert GetUserShadowAuth(req.state.users, full, later.now).None?;
  }

  /** Setting a random password revokes any pending reset: no later confirmation can select that user. */
  lemma RandomPasswordRevokesReset(st: PasswordState, name: string, configured: Option<int>,
                                   generated: string, hash: (int, string) -> string, token: string, now: int)
    requires GetUser(st.users, name).Some?
    ensures var r := SetRandomPassword(st, name, configured, generated, hash);
      GetUserShadowAuth(r.state.users, token, now) != Some(GetUser(st.users, name).value)
  {
  }
}
