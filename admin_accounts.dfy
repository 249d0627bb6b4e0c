/** The `admin_users` table and the cryptography the backend calls. bcrypt and
    JSON Web Tokens are oracles: the model only fixes which values go in and
    what kind of answer comes back, not the algorithms. */
module AdminAccounts {
  import opened Wrappers

  /** What `bcrypt.compare` can end in: an answer, or an exception (for
      instance when the stored value is not a bcrypt hash at all). */
  datatype Comparison = Answer(same: bool) | CompareThrew

  /** The payload the login routes sign: exactly these three claims. */
  datatype Claims = Claims(id: nat, username: string, role: string)

  /** The cryptographic calls, as functions of everything they read.
      `hash(password, salt)` is `bcrypt.hash` with the random salt made a
      parameter; `sign(claims, secret, expiresIn, now)` and
      `verify(token, secret, now)` are `jwt.sign` and `jwt.verify`, with the
      clock made a parameter; `verify` gives the decoded payload or nothing
      when the signature is bad or the token has expired. */
  datatype Crypto = Crypto(
    hash: (string, nat) -> string,
    compare: (string, string) -> Comparison,
    sign: (Claims, string, string, int) -> string,
    verify: (string, string, int) -> Option<Claims>)

  /** A row of `admin_users`. */
  datatype Admin = Admin(id: nat, username: string, passwordHash: string, email: Option<string>,
                         role: string, createdAt: int)

  /** The usernames are unique: the constraint whose violation is error
      23505. */
  predicate UniqueUsernames(rows: seq<Admin>) {
    forall i, j :: 0 <= i < j < |rows| ==> rows[i].username != rows[j].username
  }

  /** The number of rows with a username. */
  function CountUser(rows: seq<Admin>, u: string): (n: nat)
    ensures n <= |rows|
    ensures n == 0 <==> forall i :: 0 <= i < |rows| ==> rows[i].username != u
  {
    if rows == [] then 0
    else (if rows[0].username == u then 1 else 0) + CountUser(rows[1..], u)
  }

  /** With unique usernames, a username is held by at most one row. */
  lemma {:induction false} UniqueCountsAtMostOne(rows: seq<Admin>, u: string)
    requires UniqueUsernames(rows)
    ensures CountUser(rows, u) <= 1
  {
    if rows != [] {
      var tail := rows[1..];
      assert UniqueUsernames(tail) by {
        assert forall i :: 0 <= i < |tail| ==> tail[i] == rows[i + 1];
      }
      UniqueCountsAtMostOne(tail, u);
      if rows[0].username == u {
        assert forall i :: 0 <= i < |tail| ==> tail[i] == rows[i + 1];
        assert CountUser(tail, u) == 0;
      }
    }
  }

  /** `SELECT * FROM admin_users WHERE username = $1`, first row. */
  function FindUser(rows: seq<Admin>, u: string): (r: Option<Admin>)
    ensures r.Some? ==> r.value in rows && r.value.username == u
    ensures r.None? <==> CountUser(rows, u) == 0
  {
    if rows == [] then None
    else if rows[0].username == u then Some(rows[0])
    else FindUser(rows[1..], u)
  }

  /** The outcome of an `INSERT`: the new row, or the error the statement
      raised. */
  datatype Inserted = Stored(row: Admin) | Raised(error: DbError)

  /** An insert into `admin_users`: refused with a unique violation when the
      username is taken, appended otherwise. */
  function AddUser(rows: seq<Admin>, row: Admin): (r: (seq<Admin>, Inserted))
    ensures FindUser(rows, row.username).Some? ==> r == (rows, Raised(UniqueViolation))
    ensures FindUser(rows, row.username).None? ==> r == (rows + [row], Stored(row))
  {
    if FindUser(rows, row.username).Some? then (rows, Raised(UniqueViolation)) else (rows + [row], Stored(row))
  }

  /** An insert keeps the usernames unique, and afterwards exactly one row
      has the inserted username, whether the insert went through or not. */
  lemma AddUserKeepsUnique(rows: seq<Admin>, row: Admin)
    requires UniqueUsernames(rows)
    ensures UniqueUsernames(AddUser(rows, row).0)
    ensures CountUser(AddUser(rows, row).0, row.username) == 1
  {
    var after := AddUser(rows, row).0;
    if FindUser(rows, row.username).None? {
      CountAppend(rows, row, row.username);
    } else {
      UniqueCountsAtMostOne(rows, row.username);
    }
  }

  lemma {:induction false} CountAppend(rows: seq<Admin>, row: Admin, u: string)
    ensures CountUser(rows + [row], u) == CountUser(rows, u) + (if row.username == u then 1 else 0)
  {
    if rows != [] {
      assert (rows + [row])[1..] == rows[1..] + [row];
      CountAppend(rows[1..], row, u);
    } else {
      assert [] + [row] == [row];
    }
  }

  /** The admin table. The serial column's counter moves on every insert
      attempt, also one the unique constraint refuses, as a PostgreSQL
      sequence does. */
  class AdminTable {
    var rows: seq<Admin>
    var nextId: nat

    ghost predicate Valid()
      reads this
    {
      && UniqueUsernames(rows)
      && forall i :: 0 <= i < |rows| ==> rows[i].id < nextId
    }

    constructor ()
      ensures Valid() && rows == [] && nextId == 1
    {
      rows := [];
      nextId := 1;
    }

    /** `INSERT INTO admin_users (...) VALUES (...)`. */
    method Insert(username: string, passwordHash: string, email: Option<string>, role: string, now: int)
      returns (r: Inserted)
      requires Valid()
      modifies this
      ensures Valid() && nextId == old(nextId) + 1
      ensures (rows, r) == AddUser(old(rows), Admin(old(nextId), username, passwordHash, email, role, now))
    {
      var row := Admin(nextId, username, passwordHash, email, role, now);
      AddUserKeepsUnique(rows, row);
      var step := AddUser(rows, row);
      rows, r := step.0, step.1;
      nextId := nextId + 1;
    }

    /** `SELECT ... FROM admin_users WHERE username = $1`. */
    function Lookup(u: string): (r: Option<Admin>)
      reads this
      ensures r.Some? ==> r.value in rows && r.value.username == u
      ensures r.None? ==> forall x :: x in rows ==> x.username != u
    {
      FindUser(rows, u)
    }
  }
}
