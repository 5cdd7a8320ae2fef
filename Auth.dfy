/** The PIN login of the till (`api_login`): which submitted credentials open a
    session, and for whom. */
module Auth {
  import opened Text
  import opened Schema

  /** What the session remembers about the user who logged in. */
  datatype SessionUser = SessionUser(id: int, username: string, isAdmin: bool)

  /** Some user is called `name` and has the PIN `pin`. */
  predicate Registered(users: map<int, User>, name: string, pin: string) {
    exists id :: id in users && users[id].username == name && users[id].pin == pin
  }

  /** The answer to a login with the submitted `username` and `pin` (an absent
      field arrives as the empty string, see `TextOr`). Both are stripped
      first; a blank one is refused outright. The user is looked up by name,
      and the session is opened only when the stored PIN is exactly the
      stripped PIN; an unknown name and a wrong PIN get the same refusal. */
  function Login(users: map<int, User>, username: string, pin: string): (r: Result<SessionUser>)
    requires UniqueUsernames(users)
    ensures r.Err? && r.error == MissingCredentials <==> Blank(username) || Blank(pin)
    ensures r.Err? ==> r.error == MissingCredentials || r.error == WrongPin
    ensures r.Ok? <==>
      !Blank(username) && !Blank(pin) &&
      Registered(users, Strip(username), Strip(pin))
    ensures r.Ok? ==>
      && r.value.id in users
      && users[r.value.id].username == Strip(username) == r.value.username
      && users[r.value.id].pin == Strip(pin)
      && users[r.value.id].isAdmin == r.value.isAdmin
  {
    var name := Strip(username);
    var p := Strip(pin);
    if name == [] || p == [] then Err(MissingCredentials)
    else if exists id :: id in users && users[id].username == name then
      var id :| id in users && users[id].username == name;
      if users[id].pin != p then Err(WrongPin)
      else Ok(SessionUser(id, users[id].username, users[id].isAdmin))
    else Err(WrongPin)
  }

  /** A user whose stored name and PIN are non-empty and stripped (as every
      user `users_create` stores is) can log in with exactly them, and the
      session is theirs. */
  lemma LoginAcceptsStoredCredentials(users: map<int, User>, id: int)
    requires UniqueUsernames(users)
    requires id in users
    requires users[id].username != [] && Trimmed(users[id].username)
    requires users[id].pin != [] && Trimmed(users[id].pin)
    ensures Login(users, users[id].username, users[id].pin)
      == Ok(SessionUser(id, users[id].username, users[id].isAdmin))
  {
    var u := users[id];
    StripUntrimmed(u.username);
    StripUntrimmed(u.pin);
    assert !Blank(u.username) && !Blank(u.pin) by {
      assert Strip(u.username) != [] && Strip(u.pin) != [];
    }
    assert Registered(users, Strip(u.username), Strip(u.pin));
  }

  /** A user whose stored PIN is empty can never log in: `users_update` stores a
      PIN made only of whitespace as the empty string, and the login refuses
      every blank PIN before it looks at the table. */
  lemma EmptyPinLocksOut(users: map<int, User>, id: int, username: string, pin: string)
    requires UniqueUsernames(users)
    requires id in users && users[id].pin == []
    ensures var r := Login(users, username, pin); r.Ok? ==> r.value.id != id
  {
    var r := Login(users, username, pin);
    if r.Ok? {
      assert Strip(pin) != [];
    }
  }
}
