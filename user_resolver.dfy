/**
 The user resolver: `changePassword`, `forgotPassword`, `me`, `register` and
 `login`, as steps over three pieces of state: the `user` table, the
 password-reset token store (Redis, key to user id) and the user id held by
 the request's session. Hashing, password verification, the email test and
 the generated token and id are parameters.
 */
module UserResolver {
  import opened Wrappers
  import opened Entities
  import opened RegisterValidation

  const PasswordTooShortForChange := "Your password must be at least 6 characters long"
  const TokenExpired := "Token expired"
  const UserNoLongerExists := "User no longer exists"
  const UsernameTaken := "This username has already been taken."
  const UnknownUser := "That username does not exist"
  const IncorrectPassword := "Incorrect Password"

  /** A mutation's answer: a list of field errors, or the user. */
  datatype UserResponse = Errors(errors: seq<FieldError>) | WithUser(user: User)

  // ---------------------------------------------------------------------------
  // The user table

  /** The `where` of a `User.findOne` call. */
  datatype Where = ById(id: int) | ByEmail(email: string) | ByUsername(username: string)

  predicate Matches(u: User, w: Where)
  {
    match w
    case ById(id) => u.id == id
    case ByEmail(email) => u.email == email
    case ByUsername(username) => u.username == username
  }

  /** `User.findOne(where)`: a row that matches, or `None` when no row does. */
  function FindOne(rows: seq<User>, w: Where): (r: Option<User>)
    ensures r.None? <==> forall u :: u in rows ==> !Matches(u, w)
    ensures r.Some? ==> r.value in rows && Matches(r.value, w)
  {
    if rows == [] then None
    else if Matches(rows[0], w) then Some(rows[0])
    else
      assert rows == [rows[0]] + rows[1..];
      FindOne(rows[1..], w)
  }

  /** The primary key and the two unique columns of the `user` table. */
  ghost predicate UniqueColumns(rows: seq<User>)
  {
    forall i, j :: 0 <= i < j < |rows| ==>
      rows[i].id != rows[j].id && rows[i].username != rows[j].username && rows[i].email != rows[j].email
  }

  /** Whether inserting `row` violates the primary key or a unique column. */
  predicate InsertConflicts(rows: seq<User>, row: User)
  {
    exists u :: u in rows && (u.id == row.id || u.username == row.username || u.email == row.email)
  }

  /** `User.update({ id }, { password })`. */
  function SetPassword(rows: seq<User>, id: int, password: string): (r: seq<User>)
    ensures |r| == |rows|
    ensures forall i :: 0 <= i < |rows| ==>
      && r[i].id == rows[i].id && r[i].username == rows[i].username && r[i].email == rows[i].email
      && r[i].password == (if rows[i].id == id then password else rows[i].password)
  {
    seq(|rows|, i requires 0 <= i < |rows| => if rows[i].id == id then rows[i].(password := password) else rows[i])
  }

  /** With unique ids, `findOne` by id finds the only row with that id. */
  lemma FindByIdIsUnique(rows: seq<User>, id: int, i: int)
    requires UniqueColumns(rows) && 0 <= i < |rows| && rows[i].id == id
    ensures FindOne(rows, ById(id)) == Some(rows[i])
  {
    assert Matches(rows[i], ById(id));
    var r := FindOne(rows, ById(id));
    var j :| 0 <= j < |rows| && rows[j] == r.value;
    if j != i {
      assert false;
    }
  }

  // ---------------------------------------------------------------------------
  // The resolver's state

  class AccountStore {
    /** The `user` table. */
    var users: seq<User>
    /** The Redis store of password-reset tokens: key to user id. */
    var tokens: map<string, int>
    /** `req.session.userId`. */
    var sessionUserId: Option<int>
    /** `FORGET_PASSWORD_PREFIX`, the key prefix of reset tokens. */
    const forgetPasswordPrefix: string

    ghost predicate Valid()
      reads this
    {
      UniqueColumns(users)
    }

    constructor (forgetPasswordPrefix: string)
      ensures Valid()
      ensures this.forgetPasswordPrefix == forgetPasswordPrefix
      ensures users == [] && tokens == map[] && sessionUserId == None
    {
      this.forgetPasswordPrefix := forgetPasswordPrefix;
      users := [];
      tokens := map[];
      sessionUserId := None;
    }

    /**
     `changePassword`: a new password of at least 6 characters, a live
     token and an existing user are needed; then that user's password is
     replaced by its hash, the user is logged in and the token is deleted.
     The user returned is the row read before the update.
     */
    method ChangePassword(token: string, newPassword: string, hash: string -> string) returns (resp: UserResponse)
      requires Valid()
      modifies this
      ensures Valid()
      ensures |newPassword| < 6 ==>
        resp == Errors(ReturnErrors("newPassword", PasswordTooShortForChange))
      ensures |newPassword| >= 6 && forgetPasswordPrefix + token !in old(tokens) ==>
        resp == Errors(ReturnErrors("token", TokenExpired))
      ensures |newPassword| >= 6 && forgetPasswordPrefix + token in old(tokens)
              && FindOne(old(users), ById(old(tokens)[forgetPasswordPrefix + token])).None? ==>
        resp == Errors(ReturnErrors("token", UserNoLongerExists))
      ensures |newPassword| >= 6 && forgetPasswordPrefix + token in old(tokens)
              && FindOne(old(users), ById(old(tokens)[forgetPasswordPrefix + token])).Some? ==>
        resp.WithUser?
      ensures resp.Errors? ==>
        users == old(users) && tokens == old(tokens) && sessionUserId == old(sessionUserId)
      ensures resp.WithUser? ==>
        && |newPassword| >= 6
        && forgetPasswordPrefix + token in old(tokens)
        && FindOne(old(users), ById(old(tokens)[forgetPasswordPrefix + token])) == Some(resp.user)
        && users == SetPassword(old(users), resp.user.id, hash(newPassword))
        && sessionUserId == Some(resp.user.id)
        && tokens == old(tokens) - {forgetPasswordPrefix + token}
    {
      if |newPassword| < 6 {
        return Errors(ReturnErrors("newPassword", PasswordTooShortForChange));
      }
      var key := forgetPasswordPrefix + token;
      if key !in tokens {
        return Errors(ReturnErrors("token", TokenExpired));
      }
      var userId := tokens[key];
      var found := FindOne(users, ById(userId));
      if found.None? {
        return Errors(ReturnErrors("token", UserNoLongerExists));
      }
      var user := found.value;
      users := SetPassword(users, userId, hash(newPassword));
      sessionUserId := Some(user.id);
      tokens := tokens - {key};
      resp := WithUser(user);
    }

    /**
     `forgotPassword`: for a known email, stores `prefix + token` with the
     user's id; for an unknown email, does nothing. The answer is always true.
     */
    method ForgotPassword(email: string, token: string) returns (ok: bool)
      requires Valid()
      modifies this
      ensures Valid()
      ensures ok
      ensures users == old(users) && sessionUserId == old(sessionUserId)
      ensures FindOne(old(users), ByEmail(email)).None? ==> tokens == old(tokens)
      ensures FindOne(old(users), ByEmail(email)).Some? ==>
        tokens == old(tokens)[forgetPasswordPrefix + token := FindOne(old(users), ByEmail(email)).value.id]
    {
      var user := FindOne(users, ByEmail(email));
      if user.None? {
        return true;
      }
      tokens := tokens[forgetPasswordPrefix + token := user.value.id];
      ok := true;
    }

    /**
     `me`: the logged-in user. A session without a user id, or with the
     falsy id 0, is not logged in.
     */
    method Me() returns (r: Option<User>)
      requires Valid()
      ensures r.Some? ==> r.value in users && sessionUserId == Some(r.value.id) && r.value.id != 0
      ensures r.None? <==>
        sessionUserId.None? || sessionUserId.value == 0 || forall u :: u in users ==> u.id != sessionUserId.value
    {
      if sessionUserId.None? || sessionUserId.value == 0 {
        return None;
      }
      r := FindOne(users, ById(sessionUserId.value));
    }

    /**
     `register`: validation errors come first and change nothing. Then the
     row is inserted with the hashed password and the id the database hands
     out; whatever makes the insert fail is reported as a taken username.
     On success the new user is logged in.
     */
    method Register(options: UsernamePasswordInput, isValidEmail: string -> bool, hash: string -> string, newId: int)
      returns (resp: UserResponse)
      requires Valid()
      modifies this
      ensures Valid()
      ensures tokens == old(tokens)
      ensures ValidateRegister(options, isValidEmail).Some? ==>
        resp == Errors(ValidateRegister(options, isValidEmail).value)
      ensures ValidateRegister(options, isValidEmail).None?
              && InsertConflicts(old(users), User(newId, options.username, options.email, hash(options.password))) ==>
        resp == Errors([FieldError("username", UsernameTaken)])
      ensures ValidateRegister(options, isValidEmail).None?
              && !InsertConflicts(old(users), User(newId, options.username, options.email, hash(options.password))) ==>
        resp.WithUser?
      ensures resp.Errors? ==> users == old(users) && sessionUserId == old(sessionUserId)
      ensures resp.WithUser? ==>
        && ValidateRegister(options, isValidEmail).None?
        && resp.user == User(newId, options.username, options.email, hash(options.password))
        && !InsertConflicts(old(users), resp.user)
        && users == old(users) + [resp.user]
        && sessionUserId == Some(newId)
    {
      var errors := ValidateRegister(options, isValidEmail);
      if errors.Some? {
        return Errors(errors.value);
      }
      var hashedPassword := hash(options.password);
      var row := User(newId, options.username, options.email, hashedPassword);
      if InsertConflicts(users, row) {
        return Errors([FieldError("username", UsernameTaken)]);
      }
      users := users + [row];
      sessionUserId := Some(row.id);
      resp := WithUser(row);
    }

    /**
     `login`: an identifier with '@' is an email, any other a username. An
     unknown user and a wrong password give their own errors; only success
     sets the session.
     */
    method Login(usernameOrEmail: string, password: string, verify: (string, string) -> bool)
      returns (resp: UserResponse)
      requires Valid()
      modifies this
      ensures Valid()
      ensures users == old(users) && tokens == old(tokens)
      ensures FindOne(users, LoginWhere(usernameOrEmail)).None? ==>
        resp == Errors([FieldError("usernameOrEmail", UnknownUser)])
      ensures FindOne(users, LoginWhere(usernameOrEmail)).Some?
              && !verify(FindOne(users, LoginWhere(usernameOrEmail)).value.password, password) ==>
        resp == Errors([FieldError("password", IncorrectPassword)])
      ensures FindOne(users, LoginWhere(usernameOrEmail)).Some?
              && verify(FindOne(users, LoginWhere(usernameOrEmail)).value.password, password) ==>
        resp.WithUser?
      ensures resp.Errors? ==> sessionUserId == old(sessionUserId)
      ensures resp.WithUser? ==>
        && FindOne(users, LoginWhere(usernameOrEmail)) == Some(resp.user)
        && verify(resp.user.password, password)
        && sessionUserId == Some(resp.user.id)
    {
      var user := FindOne(users, LoginWhere(usernameOrEmail));
      if user.None? {
        return Errors([FieldError("usernameOrEmail", UnknownUser)]);
      }
      var validPwd := verify(user.value.password, password);
      if !validPwd {
        return Errors([FieldError("password", IncorrectPassword)]);
      }
      sessionUserId := Some(user.value.id);
      resp := WithUser(user.value);
    }
  }

  /** How `login` looks a user up. */
  function LoginWhere(usernameOrEmail: string): (w: Where)
    ensures w.ByEmail? <==> '@' in usernameOrEmail
    ensures w.ByEmail? ==> w.email == usernameOrEmail
    ensures w.ByUsername? ==> w.username == usernameOrEmail
  {
    if '@' in usernameOrEmail then ByEmail(usernameOrEmail) else ByUsername(usernameOrEmail)
  }

  /** A reset token works once: replaying it after a successful change finds it expired. */
  method ResetTokenIsSingleUse(store: AccountStore, token: string, newPassword: string, hash: string -> string)
    returns (first: UserResponse, second: UserResponse)
    requires store.Valid()
    modifies store
    ensures store.Valid()
    ensures first.WithUser? ==> second == Errors(ReturnErrors("token", TokenExpired))
    ensures first.WithUser? ==> store.users == SetPassword(old(store.users), first.user.id, hash(newPassword))
  {
    first := store.ChangePassword(token, newPassword, hash);
    second := store.ChangePassword(token, newPassword, hash);
  }
}
