/** The admin dashboard's handlers over the lead table: the paginated listing,
    fetch by id, status update, delete and the statistics. Each handler runs
    as one atomic step on the table; a statement PostgreSQL refuses, or a
    failure of the database itself (the `fault` of each handler), ends the
    handler with `Threw` and the table as it was, which the server turns into
    a 500. */
module AdminRoutes {
  import opened Wrappers
  import opened JsText
  import opened LeadTable
  import opened ListQuery

  // ---- GET /requests ----

  /** The query string of the listing: every value may be absent. */
  datatype ListParams = ListParams(page: Option<string>, limit: Option<string>, status: Option<string>, search: Option<string>)

  datatype Pagination = Pagination(currentPage: int, totalPages: nat, totalRequests: nat, limit: int)

  datatype Listing = Listing(requests: seq<Lead>, pagination: Pagination)

  /** `parseInt(v) || d`: the parsed number, or `d` when the value is absent,
      does not start with a number, or is zero. */
  function IntParam(v: Option<string>, d: int): (r: int)
    ensures d != 0 ==> r != 0
    ensures v.None? ==> r == d
  {
    match v
    case None => d
    case Some(s) =>
      match ParseInt(s)
      case None => d
      case Some(m) => if m == 0 then d else m
  }

  /** The default applies exactly to a value that is absent, that `parseInt`
      reads as nothing or as zero, or that is the default itself. */
  lemma IntParamDefaults(v: Option<string>, d: int)
    ensures IntParam(v, d) == d <==>
      v.None? || ParseInt(v.value).None? || ParseInt(v.value) == Some(0) || ParseInt(v.value) == Some(d)
  {
  }

  /** A positive number written in decimal is taken as it is, also with
      text after it (`'2abc'` is page 2). */
  lemma IntParamReads(n: nat, rest: string, d: int)
    requires n >= 1
    requires rest == [] || (!IsDigit(rest[0]) && rest[0] != 'x' && rest[0] != 'X')
    ensures IntParam(Some(Dec(n) + rest), d) == n
  {
    ParseIntDec(n, rest);
  }

  function PageOf(q: ListParams): int {
    IntParam(q.page, 1)
  }

  function LimitOf(q: ListParams): int {
    IntParam(q.limit, 10)
  }

  /** `offset = (page - 1) * limit`. */
  function OffsetOf(q: ListParams): int {
    (PageOf(q) - 1) * LimitOf(q)
  }

  /** `Math.ceil(a / b)` for a count and a positive divisor. */
  function CeilDiv(a: nat, b: nat): (r: nat)
    requires b > 0
  {
    (a + b - 1) / b
  }

  /** The number of pages is the least that holds every matching row. */
  lemma CeilDivBounds(a: nat, b: nat)
    requires b > 0
    ensures a <= CeilDiv(a, b) * b
    ensures CeilDiv(a, b) > 0 ==> (CeilDiv(a, b) - 1) * b < a
    ensures CeilDiv(a, b) == 0 <==> a == 0
  {
    var r := CeilDiv(a, b);
    var m := (a + b - 1) % b;
    assert a + b - 1 == r * b + m;
    if r > 0 {
      assert (r - 1) * b == r * b - b;
    }
  }

  /** The listing: the page query and the count query of the builder, run
      with their parameter lists over the table. */
  function GetRequests(rows: seq<Lead>, q: ListParams, fault: Option<StoreFault>): (o: Outcome<Listing>)
  {
    if fault.Some? then Threw(fault.value)
    else
    var page := PageOf(q);
    var limit := LimitOf(q);
    var offset := OffsetOf(q);
    var f := FiltersOf(q.status, q.search);
    var n := |f.params|;
    var qp := f.params + [Int(limit), Int(offset)];
    match ExecPage(rows, f.conds, qp, n + 1, n + 2)
    case None => Threw(Rejected)
    case Some(requests) =>
      assert qp[n] == Int(limit);
      var total := |Select(rows, f.conds, f.params)|;
      Replied(Ok(200, Listing(requests, Pagination(page, CeilDiv(total, limit), total, limit))))
  }

  /** A failing database fails the listing. Otherwise the listing fails
      exactly when `limit` or `offset` comes out negative (a negative `page`
      or `limit` in the query) or beyond `bigint`, and else answers 200 with
      the newest-first matching rows from `offset` on, at most `limit` of
      them, the number of matches, the page count and the echoed `page` and
      `limit`. */
  lemma GetRequestsMeaning(rows: seq<Lead>, q: ListParams, fault: Option<StoreFault>)
    requires q.search.Some? ==> NoWildcards(q.search.value)
    ensures fault.Some? ==> GetRequests(rows, q, fault) == Threw(fault.value)
    ensures fault.None? ==>
      (GetRequests(rows, q, fault).Threw? <==> !(0 <= LimitOf(q) <= MaxBigint && 0 <= OffsetOf(q) <= MaxBigint))
    ensures fault.None? && GetRequests(rows, q, fault).Threw? ==> GetRequests(rows, q, fault).cause == Rejected
    ensures fault.None? && 0 < LimitOf(q) <= MaxBigint && 0 <= OffsetOf(q) <= MaxBigint ==>
      var m := Matching(rows, q.status, q.search);
      GetRequests(rows, q, fault) == Replied(Ok(200, Listing(
        Window(SortNewest(m), OffsetOf(q), LimitOf(q)),
        Pagination(PageOf(q), CeilDiv(|m|, LimitOf(q)), |m|, LimitOf(q)))))
  {
    var f := FiltersOf(q.status, q.search);
    var n := |f.params|;
    var qp := f.params + [Int(LimitOf(q)), Int(OffsetOf(q))];
    assert qp[n] == Int(LimitOf(q)) && qp[n + 1] == Int(OffsetOf(q));
    SelectIsMatching(rows, q.status, q.search, [Int(LimitOf(q)), Int(OffsetOf(q))]);
    SelectIsMatching(rows, q.status, q.search, []);
    assert f.params + [] == f.params;
  }

  /** A page far enough out makes `offset` overflow `bigint`, and the
      listing fails: `page=1000000000000&limit=10000000` is one such query. */
  lemma OffsetBeyondBigint(rows: seq<Lead>, page: nat, limit: nat)
    requires page >= 1 && 1 <= limit && (page - 1) * limit > MaxBigint
    ensures GetRequests(rows, ListParams(Some(Dec(page)), Some(Dec(limit)), None, None), None) == Threw(Rejected)
  {
    var q := ListParams(Some(Dec(page)), Some(Dec(limit)), None, None);
    DecimalParams(page, limit);
    assert OffsetOf(q) == (page - 1) * limit;
    GetRequestsMeaning(rows, q, None);
  }

  /** A query with a decimal page and limit reads as those two numbers. */
  lemma DecimalParams(page: nat, limit: nat)
    requires page >= 1 && limit >= 1
    ensures PageOf(ListParams(Some(Dec(page)), Some(Dec(limit)), None, None)) == page
    ensures LimitOf(ListParams(Some(Dec(page)), Some(Dec(limit)), None, None)) == limit
  {
    assert Dec(page) + [] == Dec(page) && Dec(limit) + [] == Dec(limit);
    IntParamReads(page, [], 1);
    IntParamReads(limit, [], 10);
  }

  /** What the dashboard sees on a page: rows of the table that pass the
      filter, newest first, at most `limit` of them. */
  lemma GetRequestsRowsMatch(rows: seq<Lead>, q: ListParams, fault: Option<StoreFault>)
    requires q.search.Some? ==> NoWildcards(q.search.value)
    requires GetRequests(rows, q, fault).Replied?
    ensures GetRequests(rows, q, fault).reply.Ok?
    ensures var page := GetRequests(rows, q, fault).reply.body.requests;
      && |page| <= LimitOf(q)
      && NewestFirst(page)
      && forall j :: 0 <= j < |page| ==> page[j] in rows && MatchesFilter(q.status, q.search, page[j])
  {
    GetRequestsMeaning(rows, q, fault);
    WindowOfSorted(Matching(rows, q.status, q.search), OffsetOf(q), LimitOf(q));
  }

  /** A window of the newest-first arrangement of `m` holds rows of `m`,
      newest first. */
  lemma WindowOfSorted(m: seq<Lead>, offset: nat, limit: nat)
    ensures var page := Window(SortNewest(m), offset, limit);
      && NewestFirst(page)
      && forall j :: 0 <= j < |page| ==> page[j] in m
  {
    var s := SortNewest(m);
    var page := Window(s, offset, limit);
    forall j | 0 <= j < |page| ensures page[j] in m {
      assert page[j] == s[offset + j];
      assert page[j] in multiset(s);
    }
    forall i, j | 0 <= i < j < |page| ensures page[i].createdAt >= page[j].createdAt {
      assert page[i] == s[offset + i] && page[j] == s[offset + j];
    }
  }

  /** Pages partition the result: the row at position `j` of the full
      newest-first result is on page `j / limit + 1`, at position
      `j % limit`. */
  lemma PagePartition(s: seq<Lead>, limit: nat, j: nat)
    requires limit > 0 && j < |s|
    ensures var w := Window(s, (j / limit) * limit, limit);
      j % limit < |w| && w[j % limit] == s[j]
  {
    var o := (j / limit) * limit;
    assert o + j % limit == j;
  }

  // ---- GET /requests/:id ----

  /** How PostgreSQL reads the text of `$1` as the integer `id` column: an
      optional sign and one or more decimal digits, within 32 bits; anything
      else is an error. */
  function PgInt(s: string): (r: Option<int>)
    ensures r.Some? ==> -0x8000_0000 <= r.value < 0x8000_0000
  {
    var negative := |s| > 0 && s[0] == '-';
    var digits := if |s| > 0 && (s[0] == '-' || s[0] == '+') then s[1..] else s;
    if digits == [] || !AllDigits(digits) then None
    else
      var m: int := RadixValue(digits, 10);
      var v := if negative then -m else m;
      if -0x8000_0000 <= v < 0x8000_0000 then Some(v) else None
  }

  /** The decimal text of an id reads back as that id. */
  lemma PgIntDec(n: nat)
    requires n < 0x8000_0000
    ensures PgInt(Dec(n)) == Some(n)
  {
    DecRoundTrip(n);
    assert Dec(n)[0] != '-' && Dec(n)[0] != '+';
  }

  /** `SELECT * FROM contact_requests WHERE id = $1`: 404 when no row has the
      id, the row otherwise; an id that is not an integer makes the
      statement fail, and so does a failing database. */
  function GetRequest(rows: seq<Lead>, idText: string, fault: Option<StoreFault>): (o: Outcome<Lead>)
    ensures PgInt(idText).None? ==> o == Threw(Rejected)
    ensures PgInt(idText).Some? && fault.Some? ==> o == Threw(fault.value)
    ensures o.Replied? <==> PgInt(idText).Some? && fault.None?
    ensures o.Replied? ==> (o.reply.Ok? <==> Find(rows, PgInt(idText).value).Some?)
    ensures o.Replied? && o.reply.Ok? ==>
      o.reply.code == 200 && o.reply.body in rows && o.reply.body.id == PgInt(idText).value
    ensures o.Replied? && o.reply.Fail? ==> o.reply == Fail(404, "Request not found")
  {
    match PgInt(idText)
    case None => Threw(Rejected)
    case Some(id) =>
      if fault.Some? then Threw(fault.value)
      else
      match Find(rows, id)
      case None => Replied(Fail(404, "Request not found"))
      case Some(x) => Replied(Ok(200, x))
  }

  // ---- PATCH /requests/:id/status ----

  /** `validStatuses.includes(status)` on a body field that may be absent. */
  function RequestedStatus(status: Option<string>): (r: Option<Status>)
    ensures r.Some? <==> status.Some? && ParseStatus(status.value).Some?
    ensures r.Some? ==> StatusName(r.value) == status.value
  {
    match status
    case None => None
    case Some(t) => ParseStatus(t)
  }

  datatype StatusUpdated = StatusUpdated(success: bool, message: string, request: Lead)

  /** The status route: a status outside the five gives 400 with the table
      untouched; a valid status goes to the `UPDATE`, which fails on an id
      that is not an integer or on a failing database, leaving the table as
      it was, answers 404 when no row has the id, and otherwise returns the
      updated row. */
  method PatchStatus(t: Table, idText: string, status: Option<string>, now: int, fault: Option<StoreFault>)
    returns (o: Outcome<StatusUpdated>)
    requires t.Valid()
    modifies t
    ensures t.Valid() && t.nextId == old(t.nextId)
    ensures RequestedStatus(status).None? ==>
      o == Replied(Fail(400, "Invalid status provided")) && t.rows == old(t.rows)
    ensures RequestedStatus(status).Some? && PgInt(idText).None? ==>
      o == Threw(Rejected) && t.rows == old(t.rows)
    ensures RequestedStatus(status).Some? && PgInt(idText).Some? && fault.Some? ==>
      o == Threw(fault.value) && t.rows == old(t.rows)
    ensures RequestedStatus(status).Some? && PgInt(idText).Some? && fault.None? ==>
      var st := RequestedStatus(status).value;
      var id := PgInt(idText).value;
      && t.rows == SetStatus(old(t.rows), id, st, now)
      && o == match Find(old(t.rows), id)
              case None => Replied(Fail(404, "Request not found"))
              case Some(x) => Replied(Ok(200, StatusUpdated(true, "Status updated successfully",
                                                             x.(status := st, updatedAt := now))))
  {
    var st := RequestedStatus(status);
    if st.None? {
      return Replied(Fail(400, "Invalid status provided"));
    }
    var id := PgInt(idText);
    if id.None? {
      return Threw(Rejected);
    }
    if fault.Some? {
      return Threw(fault.value);
    }
    FindAfterSetStatus(t.rows, id.value, st.value, now, id.value);
    var updated := t.UpdateStatus(id.value, st.value, now);
    if updated.None? {
      return Replied(Fail(404, "Request not found"));
    }
    o := Replied(Ok(200, StatusUpdated(true, "Status updated successfully", updated.value)));
  }

  // ---- DELETE /requests/:id ----

  datatype Confirmation = Confirmation(success: bool, message: string)

  /** The delete route: 404 when no row has the id, otherwise that row is
      gone; an id that is not an integer and a failing database make the
      statement fail and leave the table as it was. */
  method DeleteRequest(t: Table, idText: string, fault: Option<StoreFault>) returns (o: Outcome<Confirmation>)
    requires t.Valid()
    modifies t
    ensures t.Valid() && t.nextId == old(t.nextId)
    ensures PgInt(idText).None? ==> o == Threw(Rejected) && t.rows == old(t.rows)
    ensures PgInt(idText).Some? && fault.Some? ==> o == Threw(fault.value) && t.rows == old(t.rows)
    ensures PgInt(idText).Some? && fault.None? ==>
      var id := PgInt(idText).value;
      && t.rows == Remove(old(t.rows), id)
      && o == if Find(old(t.rows), id).None? then Replied(Fail(404, "Request not found"))
              else Replied(Ok(200, Confirmation(true, "Request deleted successfully")))
  {
    var id := PgInt(idText);
    if id.None? {
      return Threw(Rejected);
    }
    if fault.Some? {
      return Threw(fault.value);
    }
    var deleted := t.DeleteById(id.value);
    if !deleted {
      return Replied(Fail(404, "Request not found"));
    }
    o := Replied(Ok(200, Confirmation(true, "Request deleted successfully")));
  }

  /** After a delete, fetching the same id gives 404, and a 404 delete left
      the table as it was. */
  lemma DeleteThenGet(rows: seq<Lead>, idText: string)
    requires PgInt(idText).Some?
    ensures GetRequest(Remove(rows, PgInt(idText).value), idText, None) == Replied(Fail(404, "Request not found"))
    ensures Find(rows, PgInt(idText).value).None? ==> Remove(rows, PgInt(idText).value) == rows
  {
    var id := PgInt(idText).value;
    FindAfterRemove(rows, id, id);
    if Find(rows, id).None? {
      RemoveAbsent(rows, id);
    }
  }

  /** A delete on the row at `k` removes exactly that row and keeps the
      others, in order. */
  lemma DeleteRemovesOne(rows: seq<Lead>, k: nat)
    requires IncreasingIds(rows) && k < |rows| && rows[k].id < 0x8000_0000
    ensures PgInt(Dec(rows[k].id)) == Some(rows[k].id)
    ensures Remove(rows, rows[k].id) == rows[..k] + rows[k + 1..]
  {
    PgIntDec(rows[k].id);
    RemoveAt(rows, k);
  }

  // ---- GET /stats ----

  datatype Stats = Stats(totalRequests: nat, newRequests: nat, inProgressRequests: nat,
                         completedRequests: nat, recentRequests: seq<LeadSummary>)

  /** The five statistics queries: the row count, the counts of three of the
      five statuses, and the five newest rows' summaries; a failing database
      fails them. */
  function GetStats(rows: seq<Lead>, fault: Option<StoreFault>): (o: Outcome<Stats>)
    ensures fault.Some? ==> o == Threw(fault.value)
    ensures fault.None? ==> o.Replied? && o.reply.Ok? && o.reply.code == 200
    ensures fault.None? ==> o.reply.body.totalRequests == |rows|
    ensures fault.None? ==> |o.reply.body.recentRequests| <= 5
    ensures fault.None? ==>
      && o.reply.body.newRequests == multiset(Statuses(rows))[New]
      && o.reply.body.inProgressRequests == multiset(Statuses(rows))[InProgress]
      && o.reply.body.completedRequests == multiset(Statuses(rows))[Completed]
      && o.reply.body.recentRequests == Newest(rows, 5)
  {
    if fault.Some? then Threw(fault.value)
    else Replied(Ok(200, Stats(|rows|, CountStatus(rows, New), CountStatus(rows, InProgress),
                          CountStatus(rows, Completed), Newest(rows, 5))))
  }

  /** The three counted statuses never add up to more than the total: the
      gap is exactly the contacted and cancelled rows. The recent list holds
      the newest rows of the table. */
  lemma StatsBounds(rows: seq<Lead>)
    ensures var s := GetStats(rows, None).reply.body;
      && s.newRequests + s.inProgressRequests + s.completedRequests
         == s.totalRequests - CountStatus(rows, Contacted) - CountStatus(rows, Cancelled)
      && s.newRequests + s.inProgressRequests + s.completedRequests <= s.totalRequests
      && |s.recentRequests| == (if |rows| < 5 then |rows| else 5)
      && forall x, i :: x in rows && 0 <= i < |s.recentRequests| ==>
           Summary(x) in s.recentRequests || x.createdAt <= s.recentRequests[i].createdAt
  {
    StatusCountsPartition(rows);
    NewestAreNewest(rows, 5);
  }
}
