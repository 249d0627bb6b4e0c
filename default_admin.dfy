/** The two start-up routines that seed `admin_users`: the one in the server,
    which looks for `'admin1'` but inserts `'admin'`, and the stand-alone
    utility, which inserts `'zoola'` without looking. Both swallow every
    error. */
module DefaultAdmin {
  import opened Wrappers
  import opened AdminAccounts

  const ServerSeedPassword := "admin1234"
  const UtilitySeedPassword := "zoola123"

  /** The row the server's routine inserts. */
  function ServerSeed(id: nat, hash: string, now: int): Admin {
    Admin(id, "admin", hash, Some("admin@feetinfra.com"), "admin", now)
  }

  /** The row the utility inserts. */
  function UtilitySeed(id: nat, hash: string, now: int): Admin {
    Admin(id, "zoola", hash, Some("zoola@feetinfra.com"), "admin", now)
  }

  /** The table after the server's routine: nothing when `'admin1'` exists,
      otherwise one insert of `'admin'`, whose failure leaves the table as it
      was. */
  function ServerBootstrap(rows: seq<Admin>, id: nat, hash: string, now: int): seq<Admin> {
    if FindUser(rows, "admin1").Some? then rows else AddUser(rows, ServerSeed(id, hash, now)).0
  }

  /** The table after the utility: one insert of `'zoola'`, whose failure
      leaves the table as it was. */
  function UtilityBootstrap(rows: seq<Admin>, id: nat, hash: string, now: int): seq<Admin> {
    AddUser(rows, UtilitySeed(id, hash, now)).0
  }

  /** `createDefaultAdmin` of the server. `outage` is a database that fails
      the statements; the error is caught and start-up goes on. */
  method CreateDefaultAdminServer(t: AdminTable, crypto: Crypto, salt: nat, now: int, outage: bool)
    requires t.Valid()
    modifies t
    ensures t.Valid()
    ensures outage ==> t.rows == old(t.rows) && t.nextId == old(t.nextId)
    ensures !outage ==>
      t.rows == ServerBootstrap(old(t.rows), old(t.nextId), crypto.hash(ServerSeedPassword, salt), now)
    ensures !outage ==>
      t.nextId == if FindUser(old(t.rows), "admin1").Some? then old(t.nextId) else old(t.nextId) + 1
  {
    if outage {
      return;
    }
    var existing := t.Lookup("admin1");
    if existing.None? {
      var hashed := crypto.hash(ServerSeedPassword, salt);
      var _ := t.Insert("admin", hashed, Some("admin@feetinfra.com"), "admin", now);
    }
  }

  /** `createDefaultAdmin` of the utility: the hash of `'zoola123'` and one
      insert, no look-up first. */
  method CreateDefaultAdminUtility(t: AdminTable, crypto: Crypto, salt: nat, now: int, outage: bool)
    requires t.Valid()
    modifies t
    ensures t.Valid()
    ensures outage ==> t.rows == old(t.rows) && t.nextId == old(t.nextId)
    ensures !outage ==>
      t.rows == UtilityBootstrap(old(t.rows), old(t.nextId), crypto.hash(UtilitySeedPassword, salt), now)
      && t.nextId == old(t.nextId) + 1
  {
    if outage {
      return;
    }
    var hashed := crypto.hash(UtilitySeedPassword, salt);
    var _ := t.Insert("zoola", hashed, Some("zoola@feetinfra.com"), "admin", now);
  }

  /** The server's routine does nothing once `'admin1'` exists, and it never
      creates `'admin1'` itself: as long as nobody else does, every start-up
      tries the insert of `'admin'` again. When `'admin'` is already there the
      retry is refused and the table stays as it was. */
  lemma ServerBootstrapMismatch(rows: seq<Admin>, id: nat, hash: string, now: int)
    requires UniqueUsernames(rows)
    ensures FindUser(rows, "admin1").Some? ==> ServerBootstrap(rows, id, hash, now) == rows
    ensures FindUser(rows, "admin1").None? ==> FindUser(ServerBootstrap(rows, id, hash, now), "admin1").None?
    ensures FindUser(rows, "admin1").None? && FindUser(rows, "admin").Some? ==>
      ServerBootstrap(rows, id, hash, now) == rows
    ensures FindUser(rows, "admin1").None? ==> CountUser(ServerBootstrap(rows, id, hash, now), "admin") == 1
  {
    if FindUser(rows, "admin1").None? {
      var seed := ServerSeed(id, hash, now);
      AddUserKeepsUnique(rows, seed);
      if FindUser(rows, "admin").None? {
        CountAppend(rows, seed, "admin1");
      }
    }
  }

  /** The utility on a table with unique usernames leaves exactly one
      `'zoola'` row, and so does running it twice: the second insert is
      refused and its failure swallowed. The stored value is the hash of the
      seed password. */
  lemma UtilityTwiceOneRow(rows: seq<Admin>, id1: nat, id2: nat, h1: string, h2: string, now1: int, now2: int)
    requires UniqueUsernames(rows)
    ensures var once := UtilityBootstrap(rows, id1, h1, now1);
      && UniqueUsernames(once)
      && CountUser(once, "zoola") == 1
      && UtilityBootstrap(once, id2, h2, now2) == once
      && (FindUser(rows, "zoola").None? ==> FindUser(once, "zoola") == Some(UtilitySeed(id1, h1, now1)))
  {
    var once := UtilityBootstrap(rows, id1, h1, now1);
    AddUserKeepsUnique(rows, UtilitySeed(id1, h1, now1));
    if FindUser(rows, "zoola").None? {
      FindAppended(rows, UtilitySeed(id1, h1, now1));
    }
  }

  /** After appending a row whose username was free, looking that username
      up finds the new row. */
  lemma {:induction false} FindAppended(rows: seq<Admin>, row: Admin)
    requires FindUser(rows, row.username).None?
    ensures FindUser(rows + [row], row.username) == Some(row)
  {
    if rows != [] {
      assert (rows + [row])[1..] == rows[1..] + [row];
      assert rows[0].username != row.username;
      FindAppended(rows[1..], row);
    } else {
      assert [] + [row] == [row];
    }
  }
}
