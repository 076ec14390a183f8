/** `AuthManager::registerUser` and `AuthManager::authenticate`
    (src/auth/AuthManager.cpp) over the `users` table. */
module AuthManager {
  import opened Base
  import opened Primitives
  import opened PasswordUtils

  /** One row of `users`. `passwordHash` is the self-describing string
      `crypto_pwhash_str` produced; `salt` is a column the registration
      leaves empty. */
  datatype UserRow = UserRow(id: int, login: string, role: string, passwordHash: string,
                             salt: string, active: bool)

  /** Logins are unique and case-sensitive. */
  ghost predicate UniqueLogins(rows: seq<UserRow>) {
    forall i, j :: 0 <= i < j < |rows| ==> rows[i].login != rows[j].login
  }

  predicate HasLogin(rows: seq<UserRow>, login: string) {
    exists i :: 0 <= i < |rows| && rows[i].login == login
  }

  /** `SELECT id, password_hash, role FROM users WHERE login = ? AND active =
      true`, first row: exact login match among active users only. */
  function Lookup(rows: seq<UserRow>, login: string): (r: Option<UserRow>)
    ensures r.Some? ==> r.value in rows && r.value.login == login && r.value.active
    ensures r.None? ==> forall i :: 0 <= i < |rows| ==> !(rows[i].login == login && rows[i].active)
  {
    if rows == [] then None
    else if rows[0].login == login && rows[0].active then Some(rows[0])
    else Lookup(rows[1..], login)
  }

  /** A row appended for a login nobody has yet is what a lookup of that
      login finds. */
  lemma {:induction false} LookupAfterAppend(rows: seq<UserRow>, row: UserRow)
    requires !HasLogin(rows, row.login) && row.active
    ensures Lookup(rows + [row], row.login) == Some(row)
  {
    if rows != [] {
      assert (rows + [row])[1..] == rows[1..] + [row];
      assert !HasLogin(rows[1..], row.login) by {
        forall i | 0 <= i < |rows[1..]| ensures rows[1..][i].login != row.login {
          assert rows[1..][i] == rows[i + 1];
        }
      }
      LookupAfterAppend(rows[1..], row);
    }
  }

  /** The `users` table. The database decides, outside this model, whether
      an insert goes through (`accepts`); a login already present never
      does, the table being taken to hold a unique constraint on `login`. */
  class UsersTable {
    var rows: seq<UserRow>
    var nextId: int

    ghost predicate Valid()
      reads this
    {
      && UniqueLogins(rows)
      && forall i :: 0 <= i < |rows| ==> rows[i].id < nextId
    }

    constructor ()
      ensures Valid() && rows == [] && nextId == 1
    {
      rows := [];
      nextId := 1;
    }

    /** `INSERT INTO users (login, role, password_hash, salt, created_at,
        active) VALUES (...)`: `q.exec()` succeeds when the database accepts
        and the login is new; the row gets the next id. */
    method Insert(accepts: bool, login: string, role: string, passwordHash: string,
                  salt: string, active: bool) returns (ok: bool)
      requires Valid()
      modifies this
      ensures Valid()
      ensures ok == (accepts && !HasLogin(old(rows), login))
      ensures ok ==> rows == old(rows) + [UserRow(old(nextId), login, role, passwordHash, salt, active)]
                     && nextId == old(nextId) + 1
      ensures !ok ==> rows == old(rows) && nextId == old(nextId)
    {
      ok := accepts && !HasLogin(rows, login);
      if ok {
        rows := rows + [UserRow(nextId, login, role, passwordHash, salt, active)];
        nextId := nextId + 1;
      }
    }
  }

  /** `registerUser(login, role, password)`: the rules first, then the hash,
      then one insert of an active row with an empty salt. The result is the
      insert's success, in both directions; every failure leaves the table
      as it was. A
      registered user is what a lookup of the login now finds, and the
      stored hash verifies against the password. */
  method RegisterUser(users: UsersTable, ph: Pwhash, accepts: bool,
                      login: string, role: string, password: Bytes) returns (ok: bool)
    requires users.Valid()
    modifies users
    ensures users.Valid()
    ensures !Acceptable(password) ==> !ok
    // the insert's success is the result: an acceptable password whose hash
    // can be made under every salt is registered when the insert goes through
    ensures (&& Acceptable(password) && accepts && !HasLogin(old(users.rows), login)
             && forall salt :: |salt| == PwhashSaltBytes ==> ph.str(password, salt).Some?) ==> ok
    ensures ok ==> Acceptable(password) && accepts && !HasLogin(old(users.rows), login)
    ensures ok ==> |users.rows| == |old(users.rows)| + 1
                   && users.rows[..|old(users.rows)|] == old(users.rows)
                   && var row := users.rows[|old(users.rows)|];
                      row.id == old(users.nextId) && row.login == login && row.role == role
                      && row.salt == "" && row.active
                      && VerifyPassword(ph, password, row.passwordHash)
                      && Lookup(users.rows, login) == Some(row)
    ensures !ok ==> users.rows == old(users.rows) && users.nextId == old(users.nextId)
  {
    var verdict := ValidatePasswordRules(password, "");
    if !verdict.ok {
      return false;
    }
    var hashed := HashPassword(ph, password);
    if hashed.Threw? {
      return false;
    }
    ok := users.Insert(accepts, login, role, hashed.hash, "", true);
    if ok {
      var row := UserRow(old(users.nextId), login, role, hashed.hash, "", true);
      LookupAfterAppend(old(users.rows), row);
      assert users.rows[..|old(users.rows)|] == old(users.rows);
    }
  }

  /** Whether `authenticate(login, password, ...)` succeeds against `rows`. */
  predicate Authenticates(ph: Pwhash, rows: seq<UserRow>, login: string, password: Bytes) {
    Lookup(rows, login).Some? && VerifyPassword(ph, password, Lookup(rows, login).value.passwordHash)
  }

  /** `authenticate(login, password, outUserId, outRole)`: a failed query, an
      unknown or inactive login and a wrong password all give the same plain
      `false` and leave the out-parameters as they were; success hands out
      the id and role of the matching row. */
  method Authenticate(users: UsersTable, ph: Pwhash, queryOk: bool, login: string,
                      password: Bytes, outUserId: int, outRole: string)
    returns (ok: bool, userId: int, role: string)
    ensures ok <==> queryOk && Authenticates(ph, users.rows, login, password)
    ensures ok ==> userId == Lookup(users.rows, login).value.id
                   && role == Lookup(users.rows, login).value.role
    ensures !ok ==> userId == outUserId && role == outRole
  {
    userId, role := outUserId, outRole;
    if !queryOk {
      return false, userId, role;
    }
    var found := Lookup(users.rows, login);
    if found.None? {
      return false, userId, role;
    }
    var verified := VerifyPassword(ph, password, found.value.passwordHash);
    if !verified {
      return false, userId, role;
    }
    ok, userId, role := true, found.value.id, found.value.role;
  }

  /** Registration then login: after a successful `registerUser`, the same
      login and password authenticate (when the query runs) and yield the
      new row's id and role. */
  method RegisterThenAuthenticate(users: UsersTable, ph: Pwhash, accepts: bool,
                                  login: string, role: string, password: Bytes)
    returns (registered: bool, ok: bool, userId: int, gotRole: string)
    requires users.Valid()
    modifies users
    ensures registered ==> ok && gotRole == role && userId == old(users.nextId)
  {
    registered := RegisterUser(users, ph, accepts, login, role, password);
    ok, userId, gotRole := Authenticate(users, ph, true, login, password, -1, "");
  }
}
