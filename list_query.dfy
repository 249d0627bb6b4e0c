/** The listing query of the admin dashboard: the SQL text and parameter list
    the handler builds, the placeholder numbering of that text, and what the
    database does with it over the lead table (WHERE, ORDER BY created_at
    DESC, LIMIT/OFFSET, COUNT). The WHERE conditions are kept both as values
    (`Cond`) and as the text they render to; the database reads the values. */
module ListQuery {
  import opened Wrappers
  import opened JsText
  import opened LeadTable

  /** A bound query parameter: the text of `status` or of the search pattern,
      or the numbers `limit` and `offset`. */
  datatype Param = Text(text: string) | Int(value: int)

  /** One entry of `conditions`; `slot` is the `$n` it refers to. */
  datatype Cond = StatusEq(slot: nat) | NameOrEmailLike(slot: nat)

  /** The text pushed onto `conditions` for a condition. */
  function Render(c: Cond): string {
    match c
    case StatusEq(k) => "status = " + ("$" + Dec(k))
    case NameOrEmailLike(k) => "(name ILIKE " + ("$" + Dec(k)) + (" OR email ILIKE " + ("$" + Dec(k)) + ")")
  }

  function Renders(cs: seq<Cond>): (r: seq<string>)
    ensures |r| == |cs|
  {
    if cs == [] then [] else [Render(cs[0])] + Renders(cs[1..])
  }

  /** `' WHERE ' + conditions.join(' AND ')`, or nothing when there are no
      conditions. */
  function WhereClause(cs: seq<Cond>): string {
    if cs == [] then [] else " WHERE " + Join(Renders(cs), " AND ")
  }

  /** The ORDER BY, LIMIT and OFFSET tail appended after `n` filter parameters. */
  function OrderClause(n: nat): string {
    " ORDER BY created_at DESC LIMIT " + ("$" + Dec(n + 1)) + (" OFFSET " + ("$" + Dec(n + 2)))
  }

  /** The fixed starts of the two queries. */
  const PageHead := "SELECT * FROM contact_requests"
  const CountHead := "SELECT COUNT(*) FROM contact_requests"

  /** The text of the page query for a WHERE clause and `n` filter parameters. */
  function PageSql(cs: seq<Cond>, n: nat): string {
    PageHead + WhereClause(cs) + OrderClause(n)
  }

  /** The text of the count query for a WHERE clause. */
  function CountSql(cs: seq<Cond>): string {
    CountHead + WhereClause(cs)
  }

  /** `status && status !== 'all'`: the status filter is in force. */
  predicate ActiveStatus(status: Option<string>) {
    Truthy(status) && status.value != "all"
  }

  /** The conditions and filter parameters built from the query string. */
  datatype Filters = Filters(conds: seq<Cond>, params: seq<Param>)

  /** What the two `if` blocks of the handler push, in order. */
  function FiltersOf(status: Option<string>, search: Option<string>): Filters {
    var s := if ActiveStatus(status) then Filters([StatusEq(1)], [Text(status.value)]) else Filters([], []);
    if Truthy(search) then
      Filters(s.conds + [NameOrEmailLike(|s.params| + 1)], s.params + [Text("%" + search.value + "%")])
    else s
  }

  /** The handler's builder, step by step: `conditions` and `params` grow by
      push, the two query strings by `+=`. */
  method BuildQuery(status: Option<string>, search: Option<string>, limit: int, offset: int)
    returns (query: string, countQuery: string, conds: seq<Cond>, params: seq<Param>, queryParams: seq<Param>)
    ensures conds == FiltersOf(status, search).conds && params == FiltersOf(status, search).params
    ensures query == PageSql(conds, |params|) && countQuery == CountSql(conds)
    ensures queryParams == params + [Int(limit), Int(offset)]
  {
    query := PageHead;
    countQuery := CountHead;
    params := [];
    conds := [];
    if ActiveStatus(status) {
      conds := conds + [StatusEq(|params| + 1)];
      params := params + [Text(status.value)];
    }
    if Truthy(search) {
      conds := conds + [NameOrEmailLike(|params| + 1)];
      params := params + [Text("%" + search.value + "%")];
    }
    if |conds| > 0 {
      var whereClause := WhereClause(conds);
      query := query + whereClause;
      countQuery := countQuery + whereClause;
    } else {
      assert query + [] == query && countQuery + [] == countQuery;
    }
    query := query + OrderClause(|params|);
    queryParams := params + [Int(limit), Int(offset)];
  }

  // ---- placeholder numbering of the SQL text ----

  /** The numbers of the `$n` placeholders of a text, left to right: each `$`
      followed by a run of digits, the longest such run. */
  function Placeholders(s: string): seq<nat>
    decreases |s|
  {
    if s == [] then []
    else if s[0] == '$' && DigitPrefix(s[1..], 10) != [] then
      var d := DigitPrefix(s[1..], 10);
      [RadixValue(d, 10)] + Placeholders(s[1 + |d|..])
    else Placeholders(s[1..])
  }

  /** The slots a condition's text refers to, in order. */
  function CondSlots(c: Cond): seq<nat> {
    match c
    case StatusEq(k) => [k]
    case NameOrEmailLike(k) => [k, k]
  }

  function Slots(cs: seq<Cond>): seq<nat> {
    if cs == [] then [] else CondSlots(cs[0]) + Slots(cs[1..])
  }

  lemma {:induction false} DigitPrefixAppend(x: string, y: string)
    requires y == [] || !IsDigit(y[0])
    ensures DigitPrefix(x + y, 10) == DigitPrefix(x, 10)
    decreases |x|
  {
    if x == [] {
      assert x + y == y;
    } else {
      assert (x + y)[0] == x[0];
      assert (x + y)[1..] == x[1..] + y;
      DigitPrefixAppend(x[1..], y);
    }
  }

  /** Appending text that does not start with a digit cannot extend a
      placeholder: the numbers of the two parts are simply joined. */
  lemma {:induction false} PlaceholdersAppend(a: string, b: string)
    requires b == [] || !IsDigit(b[0])
    ensures Placeholders(a + b) == Placeholders(a) + Placeholders(b)
    decreases |a|
  {
    if a == [] {
      assert a + b == b;
    } else {
      DropAppend(a, b, 1);
      DigitPrefixAppend(a[1..], b);
      var d := DigitPrefix(a[1..], 10);
      if a[0] == '$' && d != [] {
        DropAppend(a, b, 1 + |d|);
        PlaceholdersAppend(a[1 + |d|..], b);
        ConsAppend(RadixValue(d, 10), Placeholders(a[1 + |d|..]), Placeholders(b));
      } else {
        PlaceholdersAppend(a[1..], b);
      }
    }
  }

  /** Dropping a prefix of the first part of a concatenation. */
  lemma DropAppend(a: string, b: string, k: nat)
    requires 0 < k <= |a|
    ensures (a + b)[0] == a[0] && (a + b)[k..] == a[k..] + b
  {
  }

  /** Text without `$` contributes no placeholder, whatever follows it. */
  lemma {:induction false} PlaceholdersSkip(a: string, b: string)
    requires '$' !in a
    ensures Placeholders(a + b) == Placeholders(b)
    decreases |a|
  {
    if a != [] {
      assert (a + b)[0] == a[0];
      assert (a + b)[1..] == a[1..] + b;
      PlaceholdersSkip(a[1..], b);
    } else {
      assert a + b == b;
    }
  }

  /** Text without `$` has no placeholder. */
  lemma {:induction false} NoPlaceholders(a: string)
    requires '$' !in a
    ensures Placeholders(a) == []
    decreases |a|
  {
    if a != [] {
      NoPlaceholders(a[1..]);
    }
  }

  /** `$` followed by the decimal text of `n` is the placeholder `n`. */
  lemma PlaceholderDec(n: nat)
    ensures Placeholders("$" + Dec(n)) == [n]
  {
    var s := "$" + Dec(n);
    assert s[1..] == Dec(n) && s[1..] == Dec(n) + [];
    DigitPrefixOfDigits(Dec(n), []);
    DecRoundTrip(n);
    assert s[1 + |Dec(n)|..] == [];
  }

  /** Fixed text without `$`, then the placeholder `n`. */
  lemma LabelledPlaceholder(a: string, n: nat)
    requires '$' !in a
    ensures Placeholders(a + ("$" + Dec(n))) == [n]
  {
    PlaceholdersSkip(a, "$" + Dec(n));
    PlaceholderDec(n);
  }

  lemma RenderSlots(c: Cond)
    ensures Placeholders(Render(c)) == CondSlots(c)
    ensures Render(c) != [] && !IsDigit(Render(c)[0])
  {
    match c
    case StatusEq(k) =>
      LabelledPlaceholder("status = ", k);
    case NameOrEmailLike(k) =>
      var head := "(name ILIKE " + ("$" + Dec(k));
      var second := " OR email ILIKE " + ("$" + Dec(k));
      LabelledPlaceholder("(name ILIKE ", k);
      LabelledPlaceholder(" OR email ILIKE ", k);
      NoPlaceholders(")");
      PlaceholdersAppend(second, ")");
      PlaceholdersAppend(head, second + ")");
  }

  /** The conditions joined with `' AND '` name exactly their slots, in order. */
  lemma {:induction false} JoinSlots(cs: seq<Cond>)
    requires cs != []
    ensures Placeholders(Join(Renders(cs), " AND ")) == Slots(cs)
    ensures !IsDigit(Join(Renders(cs), " AND ")[0])
  {
    RenderSlots(cs[0]);
    var parts := Renders(cs);
    if |cs| == 1 {
      assert Slots(cs) == CondSlots(cs[0]) + Slots(cs[1..]);
      assert Slots(cs[1..]) == [];
    } else {
      assert parts[1..] == Renders(cs[1..]);
      JoinSlots(cs[1..]);
      var rest := Join(parts[1..], " AND ");
      var r0 := Render(cs[0]);
      NoPlaceholders(" AND ");
      PlaceholdersAppend(r0, " AND ");
      assert Placeholders(r0 + " AND ") == CondSlots(cs[0]) by {
        assert CondSlots(cs[0]) + [] == CondSlots(cs[0]);
      }
      PlaceholdersAppend(r0 + " AND ", rest);
      assert Slots(cs) == CondSlots(cs[0]) + Slots(cs[1..]);
      assert Join(parts, " AND ") == r0 + " AND " + rest;
      assert Join(parts, " AND ")[0] == r0[0];
    }
  }

  lemma WhereSlots(cs: seq<Cond>)
    ensures Placeholders(WhereClause(cs)) == Slots(cs)
    ensures WhereClause(cs) == [] || !IsDigit(WhereClause(cs)[0])
  {
    if cs != [] {
      JoinSlots(cs);
      PlaceholdersSkip(" WHERE ", Join(Renders(cs), " AND "));
    }
  }

  lemma OrderSlots(n: nat)
    ensures Placeholders(OrderClause(n)) == [n + 1, n + 2]
    ensures OrderClause(n)[0] == ' '
  {
    var limitPart := " ORDER BY created_at DESC LIMIT " + ("$" + Dec(n + 1));
    var offsetPart := " OFFSET " + ("$" + Dec(n + 2));
    LabelledPlaceholder(" ORDER BY created_at DESC LIMIT ", n + 1);
    LabelledPlaceholder(" OFFSET ", n + 2);
    PlaceholdersAppend(limitPart, offsetPart);
  }

  /** The page query refers to the WHERE clause's slots and then to `n + 1`
      (LIMIT) and `n + 2` (OFFSET). */
  lemma PageSqlSlots(cs: seq<Cond>, n: nat)
    ensures Placeholders(PageSql(cs, n)) == Slots(cs) + [n + 1, n + 2]
  {
    WhereSlots(cs);
    OrderSlots(n);
    HeadSkip(WhereClause(cs));
    PlaceholdersAppend(PageHead + WhereClause(cs), OrderClause(n));
  }

  /** The count query refers to the WHERE clause's slots only. */
  lemma CountSqlSlots(cs: seq<Cond>)
    ensures Placeholders(CountSql(cs)) == Slots(cs)
  {
    WhereSlots(cs);
    HeadSkip(WhereClause(cs));
  }

  /** The fixed starts of the queries hold no placeholder. */
  lemma HeadSkip(rest: string)
    ensures Placeholders(PageHead + rest) == Placeholders(rest)
    ensures Placeholders(CountHead + rest) == Placeholders(rest)
  {
    PlaceholdersSkip(PageHead, rest);
    PlaceholdersSkip(CountHead, rest);
  }

  /** The numbering of the handler: the status gets `$1`, the search pattern
      the next number, used twice, and LIMIT and OFFSET the two numbers after
      the filter parameters; every placeholder names a parameter the query is
      given, and each filter parameter holds what its condition compares. */
  lemma Numbering(status: Option<string>, search: Option<string>)
    ensures |FiltersOf(status, search).params| == (if ActiveStatus(status) then 1 else 0) + (if Truthy(search) then 1 else 0)
    ensures Placeholders(CountSql(FiltersOf(status, search).conds))
      == ExpectedSlots(status, search, |FiltersOf(status, search).params|)
    ensures Placeholders(PageSql(FiltersOf(status, search).conds, |FiltersOf(status, search).params|))
      == ExpectedSlots(status, search, |FiltersOf(status, search).params|)
         + [|FiltersOf(status, search).params| + 1, |FiltersOf(status, search).params| + 2]
    ensures ActiveStatus(status) ==> FiltersOf(status, search).params[0] == Text(status.value)
    ensures Truthy(search) ==>
      FiltersOf(status, search).params[|FiltersOf(status, search).params| - 1] == Text("%" + search.value + "%")
  {
    var f := FiltersOf(status, search);
    FiltersSlots(status, search);
    PageSqlSlots(f.conds, |f.params|);
    CountSqlSlots(f.conds);
  }

  /** Slot 1 for an active status, then the search slot twice. */
  function ExpectedSlots(status: Option<string>, search: Option<string>, n: nat): seq<nat> {
    (if ActiveStatus(status) then [1] else []) + (if Truthy(search) then [n, n] else [])
  }

  /** The slots the built conditions refer to, and the parameters pushed. */
  lemma FiltersSlots(status: Option<string>, search: Option<string>)
    ensures var f := FiltersOf(status, search);
      var n := |f.params|;
      && n == (if ActiveStatus(status) then 1 else 0) + (if Truthy(search) then 1 else 0)
      && Slots(f.conds) == ExpectedSlots(status, search, n)
      && (ActiveStatus(status) ==> f.params[0] == Text(status.value))
      && (Truthy(search) ==> f.params[n - 1] == Text("%" + search.value + "%"))
  {
    var cs := FiltersOf(status, search).conds;
    if |cs| == 1 {
      assert Slots(cs) == CondSlots(cs[0]) + Slots(cs[1..]);
    } else if |cs| == 2 {
      assert Slots(cs) == CondSlots(cs[0]) + Slots(cs[1..]);
      assert Slots(cs[1..]) == CondSlots(cs[1]) + Slots(cs[2..]);
    }
  }

  // ---- ILIKE ----

  /** SQL `LIKE` with its default escape `\`: `%` matches any run of
      characters, `_` any one character, `\` followed by a character that
      character alone, and every other character itself. A pattern ending
      in a lone `\` is an error in PostgreSQL and matches nothing here; the
      listing's patterns end in `%` and never reach that case. */
  function LikeMatch(t: string, p: string): bool
    decreases |t| + |p|
  {
    if p == [] then t == []
    else if p[0] == '%' then LikeMatch(t, p[1..]) || (t != [] && LikeMatch(t[1..], p))
    else if p[0] == '\\' then |p| >= 2 && t != [] && t[0] == p[1] && LikeMatch(t[1..], p[2..])
    else t != [] && (p[0] == '_' || t[0] == p[0]) && LikeMatch(t[1..], p[1..])
  }

  /** An escaped wildcard stands for itself: the search text `a\%b` lists
      a lead named `a%b` and not one named `axb`. */
  lemma EscapedWildcard()
    ensures LikeMatch("a%b", "%a\\%b%") && !LikeMatch("axb", "%a\\%b%")
  {
    PercentMatchesAll("");
    assert LikeMatch("a%b", "a\\%b%");
    assert !LikeMatch("xb", "\\%b%");
    assert !LikeMatch("b", "a\\%b%");
    assert !LikeMatch("", "a\\%b%");
  }

  /** `t ILIKE p`: `LIKE` after lowercasing both sides. */
  predicate ILike(t: string, p: string) {
    LikeMatch(Lower(t), Lower(p))
  }

  /** Text with no `LIKE` wildcard and no `\` (the default escape). */
  predicate NoWildcards(x: string) {
    forall i :: 0 <= i < |x| ==> x[i] != '%' && x[i] != '_' && x[i] != '\\'
  }

  /** `x` occurs somewhere in `t`. */
  predicate Contains(t: string, x: string) {
    exists i :: 0 <= i <= |t| && x <= t[i..]
  }

  /** Case-insensitive substring, the meaning of the search box. */
  predicate ContainsIgnoringCase(t: string, x: string) {
    Contains(Lower(t), Lower(x))
  }

  lemma {:induction false} PercentMatchesAll(t: string)
    ensures LikeMatch(t, "%")
    decreases |t|
  {
    if t != [] {
      PercentMatchesAll(t[1..]);
    }
  }

  lemma {:induction false} LikePrefix(t: string, x: string)
    requires NoWildcards(x)
    ensures LikeMatch(t, x + "%") <==> x <= t
    decreases |x|
  {
    if x == [] {
      assert x + "%" == "%";
      PercentMatchesAll(t);
    } else {
      var p := x + "%";
      assert p[0] == x[0] && p[1..] == x[1..] + "%";
      LikePrefix(if t == [] then t else t[1..], x[1..]);
      if t != [] {
        assert x <= t <==> t[0] == x[0] && x[1..] <= t[1..];
      }
    }
  }

  lemma {:induction false} LikeLeadingPercent(t: string, q: string)
    ensures LikeMatch(t, "%" + q) <==> exists i :: 0 <= i <= |t| && LikeMatch(t[i..], q)
    decreases |t|
  {
    var p := "%" + q;
    assert p[0] == '%' && p[1..] == q;
    assert t[0..] == t;
    if t != [] {
      LikeLeadingPercent(t[1..], q);
      if exists i :: 0 <= i <= |t| && LikeMatch(t[i..], q) {
        var i :| 0 <= i <= |t| && LikeMatch(t[i..], q);
        if i > 0 {
          assert t[1..][i - 1..] == t[i..];
        }
      }
      if LikeMatch(t[1..], p) {
        var i :| 0 <= i <= |t[1..]| && LikeMatch(t[1..][i..], q);
        assert t[1..][i..] == t[i + 1..];
      }
    }
  }

  /** With no wildcard in the search text, `ILIKE '%' || x || '%'` is exactly
      case-insensitive substring. */
  lemma SearchMeaning(t: string, x: string)
    requires NoWildcards(x)
    ensures ILike(t, "%" + x + "%") <==> ContainsIgnoringCase(t, x)
  {
    var lx := Lower(x);
    assert NoWildcards(lx);
    assert Lower("%" + x + "%") == "%" + (lx + "%");
    LikeLeadingPercent(Lower(t), lx + "%");
    forall i | 0 <= i <= |Lower(t)|
      ensures LikeMatch(Lower(t)[i..], lx + "%") <==> lx <= Lower(t)[i..]
    {
      LikePrefix(Lower(t)[i..], lx);
    }
  }

  // ---- what the database does with the query ----

  /** A condition holds of a row under the bound parameters. A slot with no
      parameter, or a parameter of the wrong kind, matches nothing. */
  predicate EvalCond(c: Cond, params: seq<Param>, x: Lead) {
    1 <= c.slot <= |params| && params[c.slot - 1].Text? &&
    var p := params[c.slot - 1].text;
    match c
    case StatusEq(_) => StatusName(x.status) == p
    case NameOrEmailLike(_) => ILike(x.fields.name, p) || ILike(x.fields.email, p)
  }

  /** The WHERE clause: all conditions hold. */
  predicate EvalWhere(cs: seq<Cond>, params: seq<Param>, x: Lead) {
    forall i :: 0 <= i < |cs| ==> EvalCond(cs[i], params, x)
  }

  /** The rows the WHERE clause keeps, in table order. */
  function Select(rows: seq<Lead>, cs: seq<Cond>, params: seq<Param>): (r: seq<Lead>)
    ensures |r| <= |rows|
    ensures forall x :: x in r <==> x in rows && EvalWhere(cs, params, x)
  {
    if rows == [] then []
    else (if EvalWhere(cs, params, rows[0]) then [rows[0]] else []) + Select(rows[1..], cs, params)
  }

  /** `LIMIT limit OFFSET offset` on an ordered result. */
  function Window(s: seq<Lead>, offset: nat, limit: nat): (r: seq<Lead>)
    ensures |r| <= limit
    ensures forall j :: 0 <= j < |r| ==> offset + j < |s| && r[j] == s[offset + j]
  {
    if offset >= |s| then []
    else if offset + limit <= |s| then s[offset..offset + limit]
    else s[offset..]
  }

  /** The largest `bigint`, the type PostgreSQL reads LIMIT and OFFSET as. */
  const MaxBigint := 0x7FFF_FFFF_FFFF_FFFF

  /** A LIMIT or OFFSET PostgreSQL takes: an integer from 0 to the largest
      `bigint`. */
  predicate RowCount(p: Param) {
    p.Int? && 0 <= p.value <= MaxBigint
  }

  /** The page query run with its parameters: LIMIT and OFFSET are read from
      their slots, and PostgreSQL refuses a negative value for either and a
      value outside `bigint` ("bigint out of range"). */
  function ExecPage(rows: seq<Lead>, cs: seq<Cond>, qp: seq<Param>, limitSlot: nat, offsetSlot: nat): (r: Option<seq<Lead>>)
    requires 1 <= limitSlot <= |qp| && 1 <= offsetSlot <= |qp|
    ensures r.Some? <==> (&& qp[limitSlot - 1].Int? && 0 <= qp[limitSlot - 1].value <= MaxBigint
                          && qp[offsetSlot - 1].Int? && 0 <= qp[offsetSlot - 1].value <= MaxBigint)
    ensures r.Some? ==> |r.value| <= qp[limitSlot - 1].value
  {
    var l := qp[limitSlot - 1];
    var o := qp[offsetSlot - 1];
    if RowCount(l) && RowCount(o) then
      Some(Window(SortNewest(Select(rows, cs, qp)), o.value, l.value))
    else None
  }

  /** The filter the dashboard means: the status, unless absent, empty or
      `'all'`, and the search text in the name or the e-mail, ignoring case. */
  predicate MatchesFilter(status: Option<string>, search: Option<string>, x: Lead) {
    && (ActiveStatus(status) ==> StatusName(x.status) == status.value)
    && (Truthy(search) ==> (ContainsIgnoringCase(x.fields.name, search.value)
                            || ContainsIgnoringCase(x.fields.email, search.value)))
  }

  /** The built WHERE clause means that filter, under the filter parameters
      followed by anything (LIMIT and OFFSET for the page query, nothing for
      the count query), as long as the search text holds no wildcard. */
  lemma WhereMeansFilter(status: Option<string>, search: Option<string>, extra: seq<Param>, x: Lead)
    requires search.Some? ==> NoWildcards(search.value)
    ensures var f := FiltersOf(status, search);
      EvalWhere(f.conds, f.params + extra, x) <==> MatchesFilter(status, search, x)
  {
    var f := FiltersOf(status, search);
    var ps := f.params + extra;
    if Truthy(search) {
      SearchMeaning(x.fields.name, search.value);
      SearchMeaning(x.fields.email, search.value);
      var k := |f.params|;
      assert ps[k - 1] == f.params[k - 1];
      assert f.conds[|f.conds| - 1] == NameOrEmailLike(k);
    }
    if ActiveStatus(status) {
      assert ps[0] == f.params[0];
      assert f.conds[0] == StatusEq(1);
    }
    if EvalWhere(f.conds, ps, x) {
      if Truthy(search) {
        assert EvalCond(f.conds[|f.conds| - 1], ps, x);
      }
      if ActiveStatus(status) {
        assert EvalCond(f.conds[0], ps, x);
      }
    }
  }

  /** The filter over the whole table, in table order. */
  function Matching(rows: seq<Lead>, status: Option<string>, search: Option<string>): (r: seq<Lead>)
    ensures |r| <= |rows|
    ensures forall x :: x in r <==> x in rows && MatchesFilter(status, search, x)
  {
    if rows == [] then []
    else (if MatchesFilter(status, search, rows[0]) then [rows[0]] else []) + Matching(rows[1..], status, search)
  }

  /** The database's selection under the built WHERE clause is that filter. */
  lemma {:induction false} SelectIsMatching(rows: seq<Lead>, status: Option<string>, search: Option<string>, extra: seq<Param>)
    requires search.Some? ==> NoWildcards(search.value)
    ensures var f := FiltersOf(status, search);
      Select(rows, f.conds, f.params + extra) == Matching(rows, status, search)
  {
    if rows != [] {
      WhereMeansFilter(status, search, extra, rows[0]);
      SelectIsMatching(rows[1..], status, search, extra);
    }
  }
}
