/**
 * The accounts of models/user.py: registration into the `users` table,
 * login into the session, and the administrator check.
 */
module Users {
  import opened Wrappers
  import opened Text
  import opened BookForms

  /** A row of the `users` table; the password is stored only as its hash. */
  datatype User = User(id: nat, username: string, passwordHash: string, role: string)

  /** `bcrypt.hashpw(password, bcrypt.gensalt())`: hashing and its salt are not part of this model. */
  type Hasher = string -> string

  /** `bcrypt.checkpw(password, stored_hash)`. */
  type Checker = (string, string) -> bool

  const MinPasswordLength: nat := 8
  const UserRole: string := "user"
  const AdminRole: string := "admin"

  /** The `users` table and the id the next insert receives. */
  datatype Accounts = Accounts(users: seq<User>, nextId: nat)

  /** No two users share a username (the `UNIQUE` constraint), and every id is below the next one. */
  predicate ValidAccounts(a: Accounts) {
    && (forall i, j :: 0 <= i < j < |a.users| ==> a.users[i].username != a.users[j].username)
    && (forall i :: 0 <= i < |a.users| ==> a.users[i].id < a.nextId)
  }

  /** `SELECT ... FROM users WHERE username = ?` and `fetchone()`: the first user with that name. */
  function FirstNamed(users: seq<User>, name: string): Option<User> {
    if users == [] then None
    else if users[0].username == name then Some(users[0])
    else FirstNamed(users[1..], name)
  }

  /** The lookup finds a user exactly when one has the name, and what it finds is a stored user with it. */
  lemma {:induction false} FirstNamedFinds(users: seq<User>, name: string)
    ensures FirstNamed(users, name).Some? <==> exists i :: 0 <= i < |users| && users[i].username == name
    ensures FirstNamed(users, name).Some? ==>
              FirstNamed(users, name).value in users && FirstNamed(users, name).value.username == name
  {
    if users != [] && users[0].username != name {
      FirstNamedFinds(users[1..], name);
      if exists i :: 0 <= i < |users| && users[i].username == name {
        var i :| 0 <= i < |users| && users[i].username == name;
        assert users[1..][i - 1] == users[i];
      }
      if exists i :: 0 <= i < |users[1..]| && users[1..][i].username == name {
        var i :| 0 <= i < |users[1..]| && users[1..][i].username == name;
        assert users[i + 1] == users[1..][i];
      }
    }
  }

  /** What `register_user` reports. */
  datatype Registration = Registered | CredentialsRequired | PasswordTooShort | UsernameTaken

  /**
   * `register_user`: both stripped fields are required, the password needs at
   * least eight characters, the username must be free; then a user with the
   * role `user` and the hashed password is inserted.
   */
  function Register(a: Accounts, form: Form, hash: Hasher): (Accounts, Registration) {
    var name := Strip(FormText(form, "username"));
    var password := Strip(FormText(form, "password"));
    if name == [] || password == [] then (a, CredentialsRequired)
    else if |password| < MinPasswordLength then (a, PasswordTooShort)
    else if FirstNamed(a.users, name).Some? then (a, UsernameTaken)
    else (Accounts(a.users + [User(a.nextId, name, hash(password), UserRole)], a.nextId + 1), Registered)
  }

  /**
   * The checks come in order: missing fields first, then the password length,
   * then the username; every refusal leaves the table as it was.
   */
  lemma RegisterRefusals(a: Accounts, form: Form, hash: Hasher)
    ensures Register(a, form, hash).1 != Registered ==> Register(a, form, hash).0 == a
    ensures IsBlank(FormText(form, "username")) || IsBlank(FormText(form, "password")) ==>
              Register(a, form, hash).1 == CredentialsRequired
    ensures !IsBlank(FormText(form, "username")) && !IsBlank(FormText(form, "password")) &&
            |Strip(FormText(form, "password"))| < MinPasswordLength ==>
              Register(a, form, hash).1 == PasswordTooShort
  {
  }

  /** Registration succeeds exactly when both fields are filled, the password is long enough and the name is free. */
  lemma RegisterSucceeds(a: Accounts, form: Form, hash: Hasher)
    ensures Register(a, form, hash).1 == Registered <==>
              && !IsBlank(FormText(form, "username"))
              && |Strip(FormText(form, "password"))| >= MinPasswordLength
              && forall i :: 0 <= i < |a.users| ==> a.users[i].username != Strip(FormText(form, "username"))
  {
    FirstNamedFinds(a.users, Strip(FormText(form, "username")));
  }

  /** A registration adds exactly one user after the others: the stripped name, the hash of the stripped password, role `user`. */
  lemma RegisterAddsOneUser(a: Accounts, form: Form, hash: Hasher)
    requires Register(a, form, hash).1 == Registered
    ensures Register(a, form, hash).0.users ==
              a.users + [User(a.nextId, Strip(FormText(form, "username")), hash(Strip(FormText(form, "password"))), UserRole)]
    ensures Register(a, form, hash).0.nextId == a.nextId + 1
  {
  }

  /** Usernames stay unique and ids stay below the next one. */
  lemma RegisterKeepsValid(a: Accounts, form: Form, hash: Hasher)
    requires ValidAccounts(a)
    ensures ValidAccounts(Register(a, form, hash).0)
  {
    var name := Strip(FormText(form, "username"));
    if Register(a, form, hash).1 == Registered {
      FirstNamedFinds(a.users, name);
      RegisterAddsOneUser(a, form, hash);
      FreshNameKeepsValid(a, User(a.nextId, name, hash(Strip(FormText(form, "password"))), UserRole));
    }
  }

  lemma FreshNameKeepsValid(a: Accounts, added: User)
    requires ValidAccounts(a) && added.id == a.nextId
    requires forall i :: 0 <= i < |a.users| ==> a.users[i].username != added.username
    ensures ValidAccounts(Accounts(a.users + [added], a.nextId + 1))
  {
    var users := a.users + [added];
    forall i, j | 0 <= i < j < |users| ensures users[i].username != users[j].username {
      assert users[i] == a.users[i];
      if j < |a.users| {
        assert users[j] == a.users[j];
      }
    }
  }

  /** No registration creates an administrator: every administrator afterwards was there before. */
  lemma RegistrationAddsNoAdmin(a: Accounts, form: Form, hash: Hasher)
    ensures forall u :: u in Register(a, form, hash).0.users && u.role == AdminRole ==> u in a.users
  {
    if Register(a, form, hash).1 == Registered {
      RegisterAddsOneUser(a, form, hash);
      PlainUserAdded(a.users, User(a.nextId, Strip(FormText(form, "username")), hash(Strip(FormText(form, "password"))), UserRole));
    }
  }

  lemma PlainUserAdded(users: seq<User>, added: User)
    requires added.role == UserRole
    ensures forall u :: u in users + [added] && u.role == AdminRole ==> u in users
  {
    assert UserRole != AdminRole;
  }

  /**
   * `login_user`: the user with the stripped username, when there is one and
   * the stripped password checks against its hash.
   */
  function LoginMatch(users: seq<User>, form: Form, check: Checker): Option<User> {
    var name := Strip(FormText(form, "username"));
    var password := Strip(FormText(form, "password"));
    match FirstNamed(users, name)
    case None => None
    case Some(u) => if check(password, u.passwordHash) then Some(u) else None
  }

  /** Login lets in a stored user only, under its own name and only when its password checks. */
  lemma LoginNeedsUserAndPassword(users: seq<User>, form: Form, check: Checker)
    ensures LoginMatch(users, form, check).Some? ==>
              && LoginMatch(users, form, check).value in users
              && LoginMatch(users, form, check).value.username == Strip(FormText(form, "username"))
              && check(Strip(FormText(form, "password")), LoginMatch(users, form, check).value.passwordHash)
  {
    FirstNamedFinds(users, Strip(FormText(form, "username")));
  }

  /** With unique usernames, a stored user whose password checks is always let in. */
  lemma {:induction false} LoginFindsUser(users: seq<User>, form: Form, check: Checker, i: nat)
    requires forall j, k :: 0 <= j < k < |users| ==> users[j].username != users[k].username
    requires i < |users| && users[i].username == Strip(FormText(form, "username"))
    requires check(Strip(FormText(form, "password")), users[i].passwordHash)
    ensures LoginMatch(users, form, check) == Some(users[i])
  {
    FirstNamedAt(users, i);
  }

  lemma {:induction false} FirstNamedAt(users: seq<User>, i: nat)
    requires forall j, k :: 0 <= j < k < |users| ==> users[j].username != users[k].username
    requires i < |users|
    ensures FirstNamed(users, users[i].username) == Some(users[i])
  {
    if i > 0 {
      assert users[0].username != users[i].username;
      assert users[1..][i - 1] == users[i];
      FirstNamedAt(users[1..], i - 1);
    }
  }

  /**
   * Someone who has just registered can log in with the same form, as a
   * plain user, provided the check accepts a password against its own hash.
   */
  lemma RegisteredUserLogsIn(a: Accounts, form: Form, hash: Hasher, check: Checker)
    requires ValidAccounts(a) && Register(a, form, hash).1 == Registered
    requires check(Strip(FormText(form, "password")), hash(Strip(FormText(form, "password"))))
    ensures LoginMatch(Register(a, form, hash).0.users, form, check).Some?
    ensures LoginMatch(Register(a, form, hash).0.users, form, check).value.id == a.nextId
    ensures LoginMatch(Register(a, form, hash).0.users, form, check).value.role == UserRole
  {
    RegisterKeepsValid(a, form, hash);
    RegisterAddsOneUser(a, form, hash);
    var users := Register(a, form, hash).0.users;
    LoginFindsUser(users, form, check, |a.users|);
  }

  // ---------------------------------------------------------------------------
  // The seeded administrator

  const SeedName: string := "admin"
  const SeedPassword: string := "admin123"

  /**
   * The end of `init_db` in models/database.py: unless some user is named
   * `admin`, one is inserted with the hash of `admin123` and the role `admin`.
   */
  function Seeded(a: Accounts, hash: Hasher): Accounts {
    if FirstNamed(a.users, SeedName).Some? then a
    else Accounts(a.users + [User(a.nextId, SeedName, hash(SeedPassword), AdminRole)], a.nextId + 1)
  }

  /** Only a user named `admin` has the role `admin`. */
  predicate OnlySeedIsAdmin(a: Accounts) {
    forall i :: 0 <= i < |a.users| && a.users[i].role == AdminRole ==> a.users[i].username == SeedName
  }

  /** Seeding keeps the table valid, leaves a user named `admin`, and adds no other administrator. */
  lemma SeedingKeepsValid(a: Accounts, hash: Hasher)
    requires ValidAccounts(a)
    ensures ValidAccounts(Seeded(a, hash))
    ensures FirstNamed(Seeded(a, hash).users, SeedName).Some?
    ensures OnlySeedIsAdmin(a) ==> OnlySeedIsAdmin(Seeded(a, hash))
  {
    FirstNamedFinds(a.users, SeedName);
    if FirstNamed(a.users, SeedName).None? {
      var added := User(a.nextId, SeedName, hash(SeedPassword), AdminRole);
      FreshNameKeepsValid(a, added);
      var users := a.users + [added];
      assert users[|a.users|].username == SeedName;
      FirstNamedFinds(users, SeedName);
    }
  }

  /** On a fresh database the administrator is the only user, and `admin123` logs in as it. */
  lemma SeededAdminLogsIn(hash: Hasher, check: Checker)
    requires check(SeedPassword, hash(SeedPassword))
    ensures |Seeded(Accounts([], 1), hash).users| == 1
    ensures LoginMatch(Seeded(Accounts([], 1), hash).users, map["username" := SeedName, "password" := SeedPassword], check)
            == Some(User(1, SeedName, hash(SeedPassword), AdminRole))
  {
    SeedFormFields();
  }

  lemma SeedFormFields()
    ensures Strip(FormText(map["username" := SeedName, "password" := SeedPassword], "username")) == SeedName
    ensures Strip(FormText(map["username" := SeedName, "password" := SeedPassword], "password")) == SeedPassword
  {
    StripTrimmed(SeedName);
    StripTrimmed(SeedPassword);
  }

  /** Registration adds no administrator, so it keeps the seed the only possible one. */
  lemma RegistrationKeepsSeedOnlyAdmin(a: Accounts, form: Form, hash: Hasher)
    requires OnlySeedIsAdmin(a)
    ensures OnlySeedIsAdmin(Register(a, form, hash).0)
  {
    if Register(a, form, hash).1 == Registered {
      RegisterAddsOneUser(a, form, hash);
    }
  }

  /** With unique usernames, a table where only the seed is an administrator has at most one. */
  lemma AtMostOneAdmin(a: Accounts, i: nat, j: nat)
    requires ValidAccounts(a) && OnlySeedIsAdmin(a)
    requires i < |a.users| && j < |a.users| && a.users[i].role == AdminRole && a.users[j].role == AdminRole
    ensures i == j
  {
  }

  /** The `users` table, which `register_user` inserts into. */
  class UserTable {
    var users: seq<User>
    var nextId: nat

    /** The `UNIQUE` usernames, and the seeded `admin` as the only possible administrator. */
    ghost predicate Valid()
      reads this
    {
      ValidAccounts(State()) && OnlySeedIsAdmin(State())
    }

    /** The table `init_db` of models/database.py leaves in a fresh database. */
    constructor (hash: Hasher)
      ensures Valid() && State() == Seeded(Accounts([], 1), hash)
    {
      users := [User(1, SeedName, hash(SeedPassword), AdminRole)];
      nextId := 2;
    }

    function State(): Accounts
      reads this
    {
      Accounts(users, nextId)
    }

    /** `register_user` of models/user.py. */
    method RegisterUser(form: Form, hash: Hasher) returns (outcome: Registration)
      requires Valid()
      modifies this
      ensures Valid()
      ensures (State(), outcome) == Register(old(State()), form, hash)
    {
      ghost var a := State();
      var name := Strip(FormText(form, "username"));
      var password := Strip(FormText(form, "password"));
      if name == [] || password == [] {
        assert Register(a, form, hash) == (a, CredentialsRequired);
        return CredentialsRequired;
      }
      if |password| < MinPasswordLength {
        assert Register(a, form, hash) == (a, PasswordTooShort);
        return PasswordTooShort;
      }
      if FirstNamed(users, name).Some? {
        assert Register(a, form, hash) == (a, UsernameTaken);
        return UsernameTaken;
      }
      var added := User(nextId, name, hash(password), UserRole);
      assert Register(a, form, hash) == (Accounts(users + [added], nextId + 1), Registered);
      RegisterKeepsValid(a, form, hash);
      RegistrationKeepsSeedOnlyAdmin(a, form, hash);
      users := users + [added];
      nextId := nextId + 1;
      return Registered;
    }
  }

  /** The three keys `login_user` writes into the Flask session; `None` while a key is absent. */
  class Session {
    var userId: Option<nat>
    var username: Option<string>
    var role: Option<string>

    /** An empty session. */
    constructor ()
      ensures userId == None && username == None && role == None
    {
      userId, username, role := None, None, None;
    }

    /** `is_admin`: the session's role is `admin`. */
    predicate IsAdmin()
      reads this
    {
      role == Some(AdminRole)
    }

    /** `login_user` of models/user.py: a successful login stores the user's id, name and role. */
    method Login(users: seq<User>, form: Form, check: Checker) returns (ok: bool)
      modifies this
      ensures ok == LoginMatch(users, form, check).Some?
      ensures ok ==> var u := LoginMatch(users, form, check).value;
                     userId == Some(u.id) && username == Some(u.username) && role == Some(u.role) &&
                     (IsAdmin() <==> u.role == AdminRole)
      ensures !ok ==> userId == old(userId) && username == old(username) && role == old(role)
    {
      var found := FirstNamed(users, Strip(FormText(form, "username")));
      if found.Some? && check(Strip(FormText(form, "password")), found.value.passwordHash) {
        userId := Some(found.value.id);
        username := Some(found.value.username);
        role := Some(found.value.role);
        return true;
      }
      return false;
    }
  }
}
