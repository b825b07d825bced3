/**
  User records and the users repository as the access-control code sees
  them: a sequence of records addressed by position, looked up by
  username or email (first match), plus the append-only log of flash and
  system messages the code emits.
 */
module Users {
  import opened Common

  /** `Entity\Users`, reduced to the fields login and password reset touch. Times are integer seconds. */
  datatype User = User(
    username: string,
    email: string,
    displayname: string,
    password: string,
    enabled: bool,
    failedlogins: int,
    throttleduntil: Option<int>,
    lastseen: Option<int>,
    lastip: Option<string>,
    shadowpassword: string,
    shadowtoken: string,
    shadowvalidity: Option<int>
  )

  /** A message to the flash logger (shown to the visitor) or to the system log. */
  datatype Event =
    | FlashError(text: string)
    | FlashSuccess(text: string)
    | FlashInfo(text: string)
    | SystemInfo(text: string)
    | SystemError(text: string)

  /** The position of the first element satisfying `p`. */
  function FirstIndex<T>(s: seq<T>, p: T -> bool): (r: Option<nat>)
    ensures r.Some? ==> r.value < |s| && p(s[r.value])
    ensures r.Some? ==> forall j :: 0 <= j < r.value ==> !p(s[j])
    ensures r.None? <==> forall j :: 0 <= j < |s| ==> !p(s[j])
  {
    if |s| == 0 then None
    else if p(s[0]) then Some(0)
    else
      match FirstIndex(s[1..], p)
      case None => None
      case Some(k) => Some(k + 1)
  }

  /** `name` identifies `u`: it is the username or the email address. */
  predicate Identifies(u: User, name: string) {
    u.username == name || u.email == name
  }

  /** `UsersRepository::getUser`: the first user identified by `name`, or none. */
  function GetUser(users: seq<User>, name: string): (r: Option<nat>)
    ensures r.Some? ==> r.value < |users| && Identifies(users[r.value], name)
    ensures r.Some? ==> forall j :: 0 <= j < r.value ==> !Identifies(users[j], name)
    ensures r.None? <==> forall j :: 0 <= j < |users| ==> !Identifies(users[j], name)
  {
    FirstIndex(users, (u: User) => Identifies(u, name))
  }
}
