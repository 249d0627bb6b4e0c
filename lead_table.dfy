/** The `contact_requests` table: its rows, and the statements the backend runs
    on it, each as one atomic step. Ids come from a counter (the table's serial
    column), `CURRENT_TIMESTAMP` is the parameter `now`, a new row's `status`
    is `'new'` and its `updated_at` starts equal to its `created_at`. */
module LeadTable {
  import opened Wrappers

  /** The five values of the `status` column. */
  datatype Status = New | InProgress | Contacted | Completed | Cancelled

  /** The text of a status, as stored and as sent in JSON. */
  function StatusName(s: Status): string {
    match s
    case New => "new"
    case InProgress => "in_progress"
    case Contacted => "contacted"
    case Completed => "completed"
    case Cancelled => "cancelled"
  }

  /** `validStatuses.includes(t)` of the status route, giving the status named. */
  function ParseStatus(t: string): (r: Option<Status>)
    ensures r.Some? ==> StatusName(r.value) == t
  {
    if t == "new" then Some(New)
    else if t == "in_progress" then Some(InProgress)
    else if t == "contacted" then Some(Contacted)
    else if t == "completed" then Some(Completed)
    else if t == "cancelled" then Some(Cancelled)
    else None
  }

  /** Exactly the five status names parse, each back to its own status. */
  lemma ParseStatusExact(t: string, s: Status)
    ensures ParseStatus(StatusName(s)) == Some(s)
    ensures ParseStatus(t).None? ==> StatusName(s) != t
  {
  }

  /** The eight columns the intake route inserts. */
  datatype LeadInput = LeadInput(
    name: string, email: string, phone: string, company: Option<string>,
    service: string, budget: Option<string>, timeline: Option<string>, message: string)

  /** A row of `contact_requests`. */
  datatype Lead = Lead(id: nat, fields: LeadInput, status: Status, createdAt: int, updatedAt: int)

  /** The columns `id, name, service, status, created_at` the statistics
      route selects for its recent list. */
  datatype LeadSummary = LeadSummary(id: nat, name: string, service: string, status: Status, createdAt: int)

  function Summary(x: Lead): LeadSummary {
    LeadSummary(x.id, x.fields.name, x.fields.service, x.status, x.createdAt)
  }

  /** Ids rise along the table: the serial column hands them out in order. */
  predicate IncreasingIds(rows: seq<Lead>) {
    forall i, j :: 0 <= i < j < |rows| ==> rows[i].id < rows[j].id
  }

  // ---- WHERE id = $1 ----

  /** The row with the given id, if there is one. */
  function Find(rows: seq<Lead>, id: int): (r: Option<Lead>)
    ensures r.Some? ==> r.value in rows && r.value.id == id
    ensures r.None? <==> forall i :: 0 <= i < |rows| ==> rows[i].id != id
  {
    if rows == [] then None
    else if rows[0].id == id then Some(rows[0])
    else Find(rows[1..], id)
  }

  /** `UPDATE ... SET status = $1, updated_at = now WHERE id = $2`. */
  function SetStatus(rows: seq<Lead>, id: int, st: Status, now: int): (r: seq<Lead>)
    ensures |r| == |rows|
    ensures forall i :: 0 <= i < |rows| ==> r[i].id == rows[i].id && r[i].createdAt == rows[i].createdAt
  {
    if rows == [] then []
    else
      var first := if rows[0].id == id then rows[0].(status := st, updatedAt := now) else rows[0];
      [first] + SetStatus(rows[1..], id, st, now)
  }

  /** A status update touches only the rows with that id, and of those only
      `status` and `updated_at`. */
  lemma {:induction false} SetStatusAt(rows: seq<Lead>, id: int, st: Status, now: int, i: nat)
    requires i < |rows|
    ensures SetStatus(rows, id, st, now)[i]
      == if rows[i].id == id then rows[i].(status := st, updatedAt := now) else rows[i]
  {
    if i > 0 {
      SetStatusAt(rows[1..], id, st, now, i - 1);
    }
  }

  /** `DELETE FROM contact_requests WHERE id = $1`. */
  function Remove(rows: seq<Lead>, id: int): (r: seq<Lead>)
    ensures forall x :: x in r <==> x in rows && x.id != id
    ensures IncreasingIds(rows) ==> IncreasingIds(r)
  {
    if rows == [] then []
    else if rows[0].id == id then Remove(rows[1..], id)
    else
      var rest := Remove(rows[1..], id);
      assert forall j :: 0 <= j < |rest| ==> rest[j] in rows[1..];
      [rows[0]] + rest
  }

  /** After a status update the row with that id has the new status and
      time stamp and all its other columns; a row with any other id reads as
      before. */
  lemma {:induction false} FindAfterSetStatus(rows: seq<Lead>, id: int, st: Status, now: int, other: int)
    ensures Find(SetStatus(rows, id, st, now), id) ==
      (match Find(rows, id)
       case Some(x) => Some(x.(status := st, updatedAt := now))
       case None => None)
    ensures other != id ==> Find(SetStatus(rows, id, st, now), other) == Find(rows, other)
  {
    if rows != [] {
      FindAfterSetStatus(rows[1..], id, st, now, other);
    }
  }

  /** After a delete no row has that id, and every other id reads as before. */
  lemma {:induction false} FindAfterRemove(rows: seq<Lead>, id: int, other: int)
    ensures Find(Remove(rows, id), id) == None
    ensures other != id ==> Find(Remove(rows, id), other) == Find(rows, other)
  {
    if rows != [] {
      FindAfterRemove(rows[1..], id, other);
    }
  }

  /** Deleting an id no row has leaves the table as it was. */
  lemma {:induction false} RemoveAbsent(rows: seq<Lead>, id: int)
    requires Find(rows, id).None?
    ensures Remove(rows, id) == rows
  {
    if rows != [] {
      RemoveAbsent(rows[1..], id);
      assert rows == [rows[0]] + rows[1..];
    }
  }

  /** With unique ids, deleting the id of the row at `k` removes that row and
      only that row, and keeps the others in their order. */
  lemma {:induction false} RemoveAt(rows: seq<Lead>, k: nat)
    requires IncreasingIds(rows) && k < |rows|
    ensures Remove(rows, rows[k].id) == rows[..k] + rows[k + 1..]
  {
    var id := rows[k].id;
    var tail := rows[1..];
    TailIncreasing(rows);
    if k == 0 {
      assert Find(tail, id).None? by {
        forall i | 0 <= i < |tail| ensures tail[i].id != id {
          assert tail[i] == rows[i + 1];
        }
      }
      RemoveAbsent(tail, id);
    } else {
      assert tail[k - 1] == rows[k];
      RemoveAt(tail, k - 1);
      assert Remove(rows, id) == [rows[0]] + Remove(tail, id);
      ConsAppend(rows[0], tail[..k - 1], tail[k..]);
      SliceOfTail(rows, k);
    }
  }

  lemma SliceOfTail<T>(s: seq<T>, k: nat)
    requires 0 < k < |s|
    ensures s[..k] == [s[0]] + s[1..][..k - 1] && s[k + 1..] == s[1..][k..]
  {
  }

  lemma TailIncreasing(rows: seq<Lead>)
    requires IncreasingIds(rows) && rows != []
    ensures IncreasingIds(rows[1..])
  {
    assert forall i :: 0 <= i < |rows| - 1 ==> rows[1..][i] == rows[i + 1];
  }

  /** Putting an element in front commutes with appending. */
  lemma ConsAppend<T>(x: T, p: seq<T>, q: seq<T>)
    ensures [x] + (p + q) == ([x] + p) + q
  {
  }

  // ---- ORDER BY created_at DESC ----

  /** Newest first: `created_at` never rises along the sequence. */
  predicate NewestFirst(s: seq<Lead>) {
    forall i, j :: 0 <= i < j < |s| ==> s[i].createdAt >= s[j].createdAt
  }

  /** Put `x` in front of the first row older than it. */
  function PlaceByDate(x: Lead, s: seq<Lead>): (r: seq<Lead>)
    requires NewestFirst(s)
    ensures NewestFirst(r)
    ensures multiset(r) == multiset(s) + multiset{x}
    ensures |r| == |s| + 1
    ensures r[0] == x || (s != [] && r[0] == s[0])
  {
    if s == [] || x.createdAt >= s[0].createdAt then
      NewestFirstCons(x, s);
      [x] + s
    else
      TailNewestFirst(s);
      var rest := PlaceByDate(x, s[1..]);
      assert s == [s[0]] + s[1..];
      NewestFirstCons(s[0], rest);
      [s[0]] + rest
  }

  lemma NewestFirstCons(y: Lead, t: seq<Lead>)
    requires NewestFirst(t) && (t == [] || t[0].createdAt <= y.createdAt)
    ensures NewestFirst([y] + t)
  {
    var r := [y] + t;
    forall i, j | 0 <= i < j < |r| ensures r[i].createdAt >= r[j].createdAt {
      if i == 0 {
        assert r[j] == t[j - 1];
      } else {
        assert r[i] == t[i - 1] && r[j] == t[j - 1];
      }
    }
  }

  lemma TailNewestFirst(s: seq<Lead>)
    requires NewestFirst(s) && s != []
    ensures NewestFirst(s[1..]) && forall j :: 0 <= j < |s| - 1 ==> s[1..][j].createdAt <= s[0].createdAt
  {
    assert forall j :: 0 <= j < |s| - 1 ==> s[1..][j] == s[j + 1];
  }

  /** The order of `ORDER BY created_at DESC`: the same rows, newest first.
      Rows with equal `created_at` keep their table order, one of the orders
      the database may choose. */
  function SortNewest(s: seq<Lead>): (r: seq<Lead>)
    ensures NewestFirst(r)
    ensures multiset(r) == multiset(s)
    ensures |r| == |s|
  {
    if s == [] then []
    else
      assert s == [s[0]] + s[1..];
      PlaceByDate(s[0], SortNewest(s[1..]))
  }

  // ---- SELECT COUNT(*) ... WHERE status = $1 ----

  /** The `status` column, row by row. */
  function Statuses(rows: seq<Lead>): (s: seq<Status>)
    ensures |s| == |rows| && forall i :: 0 <= i < |rows| ==> s[i] == rows[i].status
  {
    seq(|rows|, i requires 0 <= i < |rows| => rows[i].status)
  }

  /** The count of one status: how often it occurs in the column. */
  function CountStatus(rows: seq<Lead>, st: Status): (n: nat)
    ensures n <= |rows|
    ensures n == multiset(Statuses(rows))[st]
  {
    if rows == [] then 0
    else
      assert Statuses(rows) == [rows[0].status] + Statuses(rows[1..]);
      (if rows[0].status == st then 1 else 0) + CountStatus(rows[1..], st)
  }

  /** The five per-status counts add up to the number of rows. */
  lemma {:induction false} StatusCountsPartition(rows: seq<Lead>)
    ensures CountStatus(rows, New) + CountStatus(rows, InProgress) + CountStatus(rows, Contacted)
      + CountStatus(rows, Completed) + CountStatus(rows, Cancelled) == |rows|
  {
    if rows != [] {
      StatusCountsPartition(rows[1..]);
    }
  }

  // ---- SELECT id, name, service, status, created_at ... ORDER BY created_at DESC LIMIT n ----

  function Newest(rows: seq<Lead>, n: nat): (r: seq<LeadSummary>)
    ensures |r| == if |rows| < n then |rows| else n
  {
    var sorted := SortNewest(rows);
    var k := if |sorted| < n then |sorted| else n;
    seq(k, i requires 0 <= i < k => Summary(sorted[i]))
  }

  /** The recent list really holds the newest rows: each entry is the
      summary of a row of the table, and every row of the table either is in
      the list or is no newer than any entry of it. */
  lemma NewestAreNewest(rows: seq<Lead>, n: nat)
    ensures forall i :: 0 <= i < |Newest(rows, n)| ==>
      exists x :: x in rows && Summary(x) == Newest(rows, n)[i]
    ensures forall x, i :: x in rows && 0 <= i < |Newest(rows, n)| ==>
      Summary(x) in Newest(rows, n) || x.createdAt <= Newest(rows, n)[i].createdAt
  {
    var sorted := SortNewest(rows);
    var r := Newest(rows, n);
    SortedSameRows(rows);
    forall i | 0 <= i < |r| ensures exists x :: x in rows && Summary(x) == r[i] {
      NewestEntry(rows, n, i);
      assert sorted[i] in rows;
    }
    assert forall i :: 0 <= i < |r| ==> exists x :: x in rows && Summary(x) == r[i];
    forall x, i | x in rows && 0 <= i < |r|
      ensures Summary(x) in r || x.createdAt <= r[i].createdAt
    {
      var j :| 0 <= j < |sorted| && sorted[j] == x;
      NewestEntry(rows, n, i);
      if j < |r| {
        NewestEntry(rows, n, j);
      }
    }
  }

  lemma NewestEntry(rows: seq<Lead>, n: nat, i: nat)
    requires i < |Newest(rows, n)|
    ensures i < |SortNewest(rows)| && Newest(rows, n)[i] == Summary(SortNewest(rows)[i])
  {
  }

  /** Sorting keeps exactly the rows it was given. */
  lemma SortedSameRows(rows: seq<Lead>)
    ensures forall x :: x in SortNewest(rows) <==> x in rows
  {
    var sorted := SortNewest(rows);
    assert forall x :: x in sorted <==> x in multiset(sorted);
    assert forall x :: x in rows <==> x in multiset(rows);
  }

  class Table {
    var rows: seq<Lead>
    var nextId: nat

    ghost predicate Valid()
      reads this
    {
      && IncreasingIds(rows)
      && forall i :: 0 <= i < |rows| ==> rows[i].id < nextId
    }

    /** An empty table whose serial column starts at 1. */
    constructor ()
      ensures Valid() && rows == [] && nextId == 1
    {
      rows := [];
      nextId := 1;
    }

    /** `INSERT INTO contact_requests (...) VALUES (...) RETURNING id, created_at`:
        one new row with the next id, status `'new'` and time stamp `now`. */
    method Insert(fields: LeadInput, now: int) returns (row: Lead)
      requires Valid()
      modifies this
      ensures Valid()
      ensures row == Lead(old(nextId), fields, New, now, now)
      ensures rows == old(rows) + [row] && nextId == old(nextId) + 1
    {
      row := Lead(nextId, fields, New, now, now);
      rows := rows + [row];
      nextId := nextId + 1;
    }

    /** `UPDATE ... RETURNING *`: the rows with that id get the status and
        `updated_at = now`; the updated row comes back. */
    method UpdateStatus(id: int, st: Status, now: int) returns (updated: Option<Lead>)
      requires Valid()
      modifies this
      ensures Valid() && nextId == old(nextId)
      ensures rows == SetStatus(old(rows), id, st, now)
      ensures updated == Find(rows, id)
    {
      rows := SetStatus(rows, id, st, now);
      updated := Find(rows, id);
    }

    /** `DELETE ... WHERE id = $1 RETURNING id`: reports whether a row went. */
    method DeleteById(id: int) returns (deleted: bool)
      requires Valid()
      modifies this
      ensures Valid() && nextId == old(nextId)
      ensures rows == Remove(old(rows), id)
      ensures deleted <==> Find(old(rows), id).Some?
    {
      deleted := Find(rows, id).Some?;
      rows := Remove(rows, id);
    }
  }
}
