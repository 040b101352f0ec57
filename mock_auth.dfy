/** The mock authentication service: a process-wide list of users and a
    single "current user" slot. Passwords are accepted and never consulted.
    The service's promises settle synchronously, so each operation changes
    the state at the moment it is called and reports failure as an `Err`. */
module MockAuth {
  import opened Types
  import opened Text
  import opened Seqs

  datatype AuthError = InvalidCredentials | UserAlreadyExists

  datatype Result<+T> = Ok(value: T) | Err(error: AuthError)

  /** The message each rejection carries. */
  function ErrorMessage(e: AuthError): string {
    match e
    case InvalidCredentials => "Invalid email or password"
    case UserAlreadyExists => "User already exists"
  }

  /** The id given to the n-th user: `user-<n>`. */
  function UserId(n: nat): string {
    "user-" + NatToString(n)
  }

  lemma UserIdInjective(n: nat, m: nat)
    requires UserId(n) == UserId(m)
    ensures n == m
  {
    assert NatToString(n) == UserId(n)[5..] == UserId(m)[5..] == NatToString(m);
    NatToStringInjective(n, m);
  }

  /** The seeded users; the first one is also the initially logged-in user. */
  function SeedUsers(loadTime: Timestamp): seq<User> {
    [ User("user-1", "John Doe", "john.doe@campus.edu", Student, loadTime),
      User("user-2", "Jane Smith", "jane.smith@campus.edu", Staff, loadTime - 7 * 24 * 60 * 60 * 1000),
      User("user-3", "Admin User", "admin@campus.edu", Admin, loadTime - 30 * 24 * 60 * 60 * 1000) ]
  }

  /** Position of a role in the hierarchy. */
  function Rank(r: Role): nat {
    match r
    case Student => 0
    case Staff => 1
    case Admin => 2
  }

  /** The cascade of hasPermission: admin passes everything, staff everything
      but admin, student only student; nobody logged in passes nothing. */
  function Permits(current: Option<User>, required: Role): (ok: bool)
    ensures current.None? ==> !ok
    ensures current.Some? ==> (ok <==> Rank(current.value.role) >= Rank(required))
  {
    if current.None? then false
    else if current.value.role == Admin then true
    else if current.value.role == Staff && required != Admin then true
    else if current.value.role == Student && required == Student then true
    else false
  }

  /** Each capability set contains the ones below it: whatever a lower role may do, a higher one may too. */
  lemma PermitsIsMonotone(u: User, v: User, required: Role)
    requires Rank(u.role) <= Rank(v.role)
    ensures Permits(Some(u), required) ==> Permits(Some(v), required)
  {
  }

  /** Whether some user has this email (`users.some(u => u.email === email)`). */
  predicate EmailTaken(users: seq<User>, email: string)
    ensures EmailTaken(users, email) <==> exists u :: u in users && u.email == email
  {
    exists i :: 0 <= i < |users| && users[i].email == email
  }

  /** Index of the first user with this email (`users.find(...)`), if any. */
  function FirstWithEmail(users: seq<User>, email: string): (r: Option<nat>)
    ensures r.None? <==> !EmailTaken(users, email)
    ensures r.Some? ==> r.value < |users| && users[r.value].email == email
    ensures r.Some? ==> forall j :: 0 <= j < r.value ==> users[j].email != email
  {
    FindIndex(users, (u: User) => u.email == email)
  }

  predicate DistinctEmails(users: seq<User>) {
    forall i, j :: 0 <= i < j < |users| ==> users[i].email != users[j].email
  }

  /** Every user's id is `user-<position + 1>`, as register assigns them. */
  predicate SequentialIds(users: seq<User>) {
    forall i :: 0 <= i < |users| ==> users[i].id == UserId(i + 1)
  }

  /** Sequentially numbered users have pairwise distinct ids. */
  lemma SequentialIdsAreUnique(users: seq<User>)
    requires SequentialIds(users)
    ensures forall i, j :: 0 <= i < j < |users| ==> users[i].id != users[j].id
  {
    forall i, j | 0 <= i < j < |users| ensures users[i].id != users[j].id {
      if users[i].id == users[j].id {
        UserIdInjective(i + 1, j + 1);
      }
    }
  }

  /** The record register builds for the next user. */
  function NewUser(users: seq<User>, name: string, email: string, role: Role, now: Timestamp): (u: User)
    ensures u.id == UserId(|users| + 1)
    ensures u.name == name && u.email == email && u.role == role && u.createdAt == now
  {
    User(UserId(|users| + 1), name, email, role, now)
  }

  /** Appending a user with a fresh email and the next id keeps emails distinct and ids sequential. */
  lemma AppendKeepsInvariant(users: seq<User>, u: User)
    requires DistinctEmails(users) && SequentialIds(users)
    requires !EmailTaken(users, u.email) && u.id == UserId(|users| + 1)
    ensures DistinctEmails(users + [u]) && SequentialIds(users + [u])
  {
    var us := users + [u];
    forall i, j | 0 <= i < j < |us| ensures us[i].email != us[j].email {
      if j == |users| {
        assert users[i].email != u.email;
      }
    }
  }

  /** After a user with a fresh email is appended, looking that email up finds exactly that user. */
  lemma {:induction false} AppendedUserIsFound(users: seq<User>, u: User)
    requires !EmailTaken(users, u.email)
    ensures FirstWithEmail(users + [u], u.email) == Some(|users|)
  {
    var us := users + [u];
    assert us[|users|].email == u.email;
    var r := FirstWithEmail(us, u.email);
    assert r.Some?;
    if r.value < |users| {
      assert false;
    }
  }

  lemma SeedUsersAreWellFormed(loadTime: Timestamp)
    ensures DistinctEmails(SeedUsers(loadTime)) && SequentialIds(SeedUsers(loadTime))
  {
    assert UserId(1) == "user-1" && UserId(2) == "user-2" && UserId(3) == "user-3";
  }

  class AuthService {
    var users: seq<User>
    var current: Option<User>

    /** Emails are unique (they are the login key), ids follow the order of
        registration, and the current user, if any, is one of the users. */
    ghost predicate Valid()
      reads this
    {
      DistinctEmails(users) && SequentialIds(users) && (current.Some? ==> current.value in users)
    }

    /** The module's initial state: the seeded users, John Doe logged in. */
    constructor (loadTime: Timestamp)
      ensures Valid()
      ensures users == SeedUsers(loadTime) && current == Some(SeedUsers(loadTime)[0])
    {
      users := SeedUsers(loadTime);
      current := Some(SeedUsers(loadTime)[0]);
      SeedUsersAreWellFormed(loadTime);
    }

    method GetCurrentUser() returns (u: Option<User>)
      requires Valid()
      ensures u == current
      ensures u.Some? ==> u.value in users
    {
      u := current;
    }

    function HasPermission(required: Role): (ok: bool)
      reads this
      ensures ok <==> current.Some? && Rank(current.value.role) >= Rank(required)
    {
      Permits(current, required)
    }

    /** Log in by email alone: the first user with that email becomes current. */
    method Login(email: string, password: string) returns (r: Result<User>)
      requires Valid()
      modifies this
      ensures Valid() && users == old(users)
      ensures EmailTaken(users, email) ==>
        var i := FirstWithEmail(users, email).value;
        r == Ok(users[i]) && current == Some(users[i])
      ensures !EmailTaken(users, email) ==> r == Err(InvalidCredentials) && current == old(current)
      ensures r.Err? ==> ErrorMessage(r.error) == "Invalid email or password"
    {
      var found := FirstWithEmail(users, email);
      if found.Some? {
        current := Some(users[found.value]);
        r := Ok(users[found.value]);
      } else {
        r := Err(InvalidCredentials);
      }
    }

    method Logout()
      requires Valid()
      modifies this
      ensures Valid()
      ensures current == None && users == old(users)
    {
      current := None;
    }

    /** Register a new user with the next id and log them in; an email already in use is refused. */
    method Register(name: string, email: string, password: string, now: Timestamp, role: Role := Student)
      returns (r: Result<User>)
      requires Valid()
      modifies this
      ensures Valid()
      ensures old(EmailTaken(users, email)) ==>
        r == Err(UserAlreadyExists) && users == old(users) && current == old(current)
      ensures !old(EmailTaken(users, email)) ==>
        var u := NewUser(old(users), name, email, role, now);
        r == Ok(u) && users == old(users) + [u] && current == Some(u)
      ensures r.Err? ==> ErrorMessage(r.error) == "User already exists"
    {
      if EmailTaken(users, email) {
        r := Err(UserAlreadyExists);
      } else {
        var u := NewUser(users, name, email, role, now);
        AppendKeepsInvariant(users, u);
        users := users + [u];
        current := Some(u);
        r := Ok(u);
      }
    }

    /** A successful registration followed by a login with the same email yields the registered user. */
    method RegisterThenLogin(name: string, email: string, password: string, now: Timestamp, role: Role)
      returns (registered: Result<User>, loggedIn: Result<User>)
      requires Valid() && !EmailTaken(users, email)
      modifies this
      ensures Valid()
      ensures registered.Ok? && loggedIn == registered && current == Some(registered.value)
      ensures registered.value.email == email && registered.value.name == name && registered.value.role == role
    {
      ghost var before := users;
      registered := Register(name, email, password, now, role);
      AppendedUserIsFound(before, registered.value);
      loggedIn := Login(email, password);
    }
  }

  /** The seeded scenario: Jane logs in; an unknown email leaves her logged in; logout is idempotent. */
  method SeededSession(loadTime: Timestamp) {
    var auth := new AuthService(loadTime);
    var r := auth.Login("jane.smith@campus.edu", "whatever");
    assert EmailTaken(auth.users, "jane.smith@campus.edu") by {
      assert auth.users[1].email == "jane.smith@campus.edu";
    }
    assert r.Ok? && r.value.name == "Jane Smith" && auth.HasPermission(Staff) && !auth.HasPermission(Admin);
    var bad := auth.Login("nobody@campus.edu", "");
    assert bad == Err(InvalidCredentials);
    assert auth.current == Some(r.value);
    auth.Logout();
    auth.Logout();
    assert auth.current == None && !auth.HasPermission(Student);
  }
}
