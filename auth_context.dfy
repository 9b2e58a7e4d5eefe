/** The identity store: a user directory that registration appends to, the
    signed-in user, and the browser slot that remembers that user. */
module AuthContext {
  import opened Types

  /** The only password `login` accepts, whoever signs in. */
  const DemoPassword: string := "password"

  const AvatarPrefix: string := "https://api.dicebear.com/7.x/avataaars/svg?seed="

  /** The directory the store starts with. */
  const MockUsers: seq<User> := [
    User(1, "John Student", "student@campus.edu", Student, Some(AvatarPrefix + "John")),
    User(2, "Admin User", "admin@campus.edu", Admin, Some(AvatarPrefix + "Admin"))
  ]

  ghost predicate EmailsUnique(users: seq<User>) {
    forall i, j :: 0 <= i < j < |users| ==> users[i].email != users[j].email
  }

  ghost predicate UserIdsSequential(users: seq<User>) {
    forall i :: 0 <= i < |users| ==> users[i].id == i + 1
  }

  /** `users.find(u => u.email === email)`: the first user with that email. */
  function FindByEmail(users: seq<User>, email: string): (r: Option<User>)
    ensures r.None? <==> forall i :: 0 <= i < |users| ==> users[i].email != email
    ensures r.Some? ==> r.value in users && r.value.email == email
    ensures r.Some? ==> exists i :: 0 <= i < |users| && users[i] == r.value
                                    && forall j :: 0 <= j < i ==> users[j].email != email
  {
    if users == [] then None
    else if users[0].email == email then Some(users[0])
    else
      var r := FindByEmail(users[1..], email);
      assert forall i :: 1 <= i < |users| ==> users[i] == users[1..][i - 1];
      r
  }

  /** What `login` answers: the directory entry for the email, provided the
      password is the demo password. */
  function LoginResult(users: seq<User>, email: string, password: string): (r: Result<User>)
    ensures r.Ok? <==> (exists i :: 0 <= i < |users| && users[i].email == email) && password == DemoPassword
    ensures r.Ok? ==> r.value in users && r.value.email == email
    ensures r.Err? ==> r.error == InvalidCredentials
  {
    match FindByEmail(users, email)
    case Some(u) => if password == DemoPassword then Ok(u) else Err(InvalidCredentials)
    case None => Err(InvalidCredentials)
  }

  /** What `register` answers: a new user numbered after the directory,
      unless the email is taken. The password is not an input: it is not kept. */
  function RegisterResult(users: seq<User>, name: string, email: string, role: UserRole): (r: Result<User>)
    ensures r.Err? <==> exists i :: 0 <= i < |users| && users[i].email == email
    ensures r.Err? ==> r.error == UserExists
    ensures r.Ok? ==> r.value == User(|users| + 1, name, email, role, Some(AvatarPrefix + name))
  {
    if exists i :: 0 <= i < |users| && users[i].email == email then Err(UserExists)
    else Ok(User(|users| + 1, name, email, role, Some(AvatarPrefix + name)))
  }

  /** A successful registration keeps the emails unique and the ids 1..n. */
  lemma RegisterKeepsDirectoryWellFormed(users: seq<User>, name: string, email: string, role: UserRole)
    requires EmailsUnique(users) && UserIdsSequential(users)
    requires RegisterResult(users, name, email, role).Ok?
    ensures EmailsUnique(users + [RegisterResult(users, name, email, role).value])
    ensures UserIdsSequential(users + [RegisterResult(users, name, email, role).value])
  {
    var u := RegisterResult(users, name, email, role).value;
    var s := users + [u];
    forall i, j | 0 <= i < j < |s| ensures s[i].email != s[j].email {
      if j == |users| {
        assert s[i] == users[i];
      }
    }
  }

  /** The password given at registration is thrown away: the new account
      signs in with the demo password and with nothing else. */
  lemma RegisteredUserLogsInWithDemoPasswordOnly(users: seq<User>, name: string, email: string, role: UserRole, password: string)
    requires RegisterResult(users, name, email, role).Ok?
    ensures var u := RegisterResult(users, name, email, role).value;
            LoginResult(users + [u], email, password) == if password == DemoPassword then Ok(u) else Err(InvalidCredentials)
  {
    var u := RegisterResult(users, name, email, role).value;
    var s := users + [u];
    assert s[|users|].email == email;
    var f := FindByEmail(s, email);
    var k :| 0 <= k < |s| && s[k] == f.value && forall j :: 0 <= j < k ==> s[j].email != email;
    assert k == |users|;
  }

  /** Once an email is registered, registering it again fails. */
  lemma SecondRegistrationFails(users: seq<User>, name: string, email: string, role: UserRole,
                                name2: string, role2: UserRole)
    requires RegisterResult(users, name, email, role).Ok?
    ensures var u := RegisterResult(users, name, email, role).value;
            RegisterResult(users + [u], name2, email, role2) == Err(UserExists)
  {
    var u := RegisterResult(users, name, email, role).value;
    assert (users + [u])[|users|].email == email;
  }

  /** The demo accounts: the student signs in with the demo password and not
      with another one, and a newly registered student does not sign in with
      the password they registered with. */
  lemma DemoAccounts()
    ensures LoginResult(MockUsers, "student@campus.edu", DemoPassword) == Ok(MockUsers[0])
    ensures LoginResult(MockUsers, "student@campus.edu", "wrong") == Err(InvalidCredentials)
    ensures var jane := RegisterResult(MockUsers, "Jane", "jane@campus.edu", Student);
            && jane.Ok? && jane.value.role == Student
            && LoginResult(MockUsers + [jane.value], "jane@campus.edu", DemoPassword) == jane
            && LoginResult(MockUsers + [jane.value], "jane@campus.edu", "pw") == Err(InvalidCredentials)
  {
    assert MockUsers[0].email == "student@campus.edu";
    assert MockUsers[1].email != "jane@campus.edu";
    RegisteredUserLogsInWithDemoPasswordOnly(MockUsers, "Jane", "jane@campus.edu", Student, DemoPassword);
    RegisteredUserLogsInWithDemoPasswordOnly(MockUsers, "Jane", "jane@campus.edu", Student, "pw");
  }

  class AuthStore {
    /** The directory; registration appends to it. */
    var users: seq<User>
    /** The signed-in user. */
    var user: Option<User>
    /** The browser slot that keeps the signed-in user across reloads. */
    var saved: Option<User>

    ghost predicate Valid()
      reads this
    {
      EmailsUnique(users) && UserIdsSequential(users)
    }

    /** On start the signed-in user is whatever the slot held. */
    constructor (slot: Option<User>)
      ensures Valid()
      ensures users == MockUsers && user == slot && saved == slot
    {
      users := MockUsers;
      user := slot;
      saved := slot;
    }

    method Login(email: string, password: string) returns (r: Result<User>)
      requires Valid()
      modifies this
      ensures Valid()
      ensures users == old(users)
      ensures r == LoginResult(users, email, password)
      ensures r.Ok? ==> user == Some(r.value) && saved == Some(r.value)
      ensures r.Err? ==> user == old(user) && saved == old(saved)
    {
      r := LoginResult(users, email, password);
      if r.Ok? {
        user := Some(r.value);
        saved := Some(r.value);
      }
    }

    /** The password argument is accepted and ignored. */
    method Register(name: string, email: string, password: string, role: UserRole) returns (r: Result<User>)
      requires Valid()
      modifies this
      ensures Valid()
      ensures r == RegisterResult(old(users), name, email, role)
      ensures r.Err? ==> users == old(users) && user == old(user) && saved == old(saved)
      ensures r.Ok? ==> users == old(users) + [r.value] && user == Some(r.value) && saved == Some(r.value)
    {
      r := RegisterResult(users, name, email, role);
      if r.Ok? {
        RegisterKeepsDirectoryWellFormed(users, name, email, role);
        users := users + [r.value];
        user := Some(r.value);
        saved := Some(r.value);
      }
    }

    method Logout()
      modifies this
      ensures users == old(users) && user == None && saved == None
    {
      user := None;
      saved := None;
    }
  }
}
