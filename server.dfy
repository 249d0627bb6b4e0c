/** The monolithic server: the start-up checks, the route table with the
    token guard in front of the dashboard routes, `asyncHandler` with the
    global error handler, and the 404 fallback. Its route handlers are the
    ones of the route modules; the login signs tokens for 24 hours instead of
    10 minutes. */
module Server {
  import opened Wrappers
  import opened JsText
  import opened LeadTable
  import opened AdminAccounts
  import opened ContactRoute
  import opened AdminRoutes
  import opened AuthRoutes
  import opened AuthMiddleware
  import opened DefaultAdmin

  /** The token lifetime of the server's own login route. */
  const ServerExpiry := "24h"

  const InternalError := "An unexpected internal server error occurred."
  const RouteMissing := "The requested route does not exist."

  // ---- start-up ----

  datatype Boot = Exited(code: nat) | Listening

  /** `startServer` after the `JWT_SECRET` check at load time: exit 1 without
      a secret, before anything else; exit 1 when the connection test fails;
      otherwise the default admin routine, whose failures are swallowed, and
      the server listens. */
  method StartServer(admins: AdminTable, jwtSecret: Option<string>, connected: bool,
                     crypto: Crypto, salt: nat, now: int, bootstrapOutage: bool) returns (b: Boot)
    requires admins.Valid()
    modifies admins
    ensures admins.Valid()
    ensures !Truthy(jwtSecret) ==> b == Exited(1) && admins.rows == old(admins.rows) && admins.nextId == old(admins.nextId)
    ensures Truthy(jwtSecret) && !connected ==>
      b == Exited(1) && admins.rows == old(admins.rows) && admins.nextId == old(admins.nextId)
    ensures Truthy(jwtSecret) && connected ==> b == Listening
    ensures Truthy(jwtSecret) && connected && !bootstrapOutage ==>
      admins.rows == ServerBootstrap(old(admins.rows), old(admins.nextId), crypto.hash(ServerSeedPassword, salt), now)
  {
    if !Truthy(jwtSecret) {
      return Exited(1);
    }
    if !connected {
      return Exited(1);
    }
    CreateDefaultAdminServer(admins, crypto, salt, now, bootstrapOutage);
    b := Listening;
  }

  // ---- replies ----

  /** The JSON bodies the server sends. */
  datatype Body =
    | Error(error: string)
    | Submission(submitted: Submitted)
    | NewUser(created: Created)
    | Session(session: LoggedIn)
    | Page(listing: Listing)
    | Row(lead: Lead)
    | Updated(updated: StatusUpdated)
    | Deleted(confirmation: Confirmation)
    | Dashboard(stats: Stats)
    | Health(status: string, timestamp: int)

  datatype Response = Response(code: nat, body: Body)

  /** `asyncHandler` and the global error handler: a handler's reply goes out
      as written; a rejected promise becomes 500 with a fixed message, and
      nothing of the error reaches the client. */
  function Settle<T>(o: Outcome<T>, wrap: T -> Body): (r: Response)
    ensures o.Threw? ==> r == Response(500, Error(InternalError))
    ensures o.Replied? && o.reply.Fail? ==> r == Response(o.reply.code, Error(o.reply.error))
    ensures o.Replied? && o.reply.Ok? ==> r == Response(o.reply.code, wrap(o.reply.body))
  {
    match o
    case Threw(_) => Response(500, Error(InternalError))
    case Replied(Fail(code, e)) => Response(code, Error(e))
    case Replied(Ok(code, body)) => Response(code, wrap(body))
  }

  /** Every failure inside a handler looks the same from outside. */
  lemma SettleHidesCause<T>(e1: DbError, e2: DbError, wrap: T -> Body)
    ensures Settle(Threw(e1), wrap) == Settle(Threw(e2), wrap)
    ensures Settle(Threw(e1), wrap).code == 500
  {
  }

  /** The server's login and the router's login give the same answers, and
      differ only in the lifetime written into a successful token. */
  lemma LoginCopiesAgree(rows: seq<Admin>, b: LoginBody, crypto: Crypto, secret: string, now: int)
    ensures var r10 := LoginReply(rows, b, crypto, secret, RouterExpiry, now);
      var r24 := LoginReply(rows, b, crypto, secret, ServerExpiry, now);
      && r10.Replied? && r24.Replied?
      && (r10.reply.Fail? <==> r24.reply.Fail?)
      && (r10.reply.Fail? ==> r10 == r24)
      && (r10.reply.Ok? ==>
           var a := FindUser(rows, b.username.value).value;
           && r10.reply.body.admin == r24.reply.body.admin
           && r10.reply.body.token == crypto.sign(Claims(a.id, a.username, a.role), secret, "10min", now)
           && r24.reply.body.token == crypto.sign(Claims(a.id, a.username, a.role), secret, "24h", now))
  {
  }

  // ---- routing ----

  /** The routes of the server; `Undecodable` is a request whose path has
      the shape of an `:id` route with an `:id` that `decodeURIComponent`
      refuses. */
  datatype Route =
    | ContactSubmit | CreateAccount | AdminLogin | ListLeads | ShowLead(id: string)
    | ChangeStatus(id: string) | DeleteLead(id: string) | DashboardStats | HealthCheck
    | Undecodable

  /** The path without one trailing `/`: routing is not strict, so every
      route matches with or without it. */
  function Unslashed(path: string): (p: string)
    ensures p == path || path == p + "/"
  {
    if |path| > 0 && path[|path| - 1] == '/' then path[..|path| - 1] else path
  }

  /** What a route's literal text is compared with: routing ignores the case
      of letters and one trailing `/`. */
  function RoutePath(path: string): string {
    Lower(Unslashed(path))
  }

  const RequestsPrefix := "/api/admin/requests/"
  const StatusSuffix := "/status"

  /** The `:id` of `/api/admin/requests/:id` (`status` false) or of
      `/api/admin/requests/:id/status` (`status` true) in a path `p` that has
      lost its trailing `/`, the literal parts compared ignoring case: one
      non-empty piece without `/`, still percent-encoded and in its own case. */
  function RequestsId(p: string, status: bool): (r: Option<string>)
    ensures r.Some? ==> r.value != [] && '/' !in r.value && RequestsPrefix <= Lower(p)
  {
    if !(RequestsPrefix <= Lower(p)) then None
    else
      var tail := p[|RequestsPrefix|..];
      if status && !(|tail| >= |StatusSuffix| && Lower(tail[|tail| - |StatusSuffix|..]) == StatusSuffix) then None
      else
        var id := if status then tail[..|tail| - |StatusSuffix|] else tail;
        if id != [] && '/' !in id then Some(id) else None
  }

  /** The route for a method and a path. `HEAD` is served by the `GET`
      routes, and every route matches with or without a trailing `/`. */
  function RouteOf(verb: string, path: string): Option<Route> {
    MatchRoute(if verb == "HEAD" then "GET" else verb, Unslashed(path))
  }

  /** The routes in the order they are registered, tried on method `v` and
      on a path `p` without its trailing `/`. The `:id` of a path that has
      the shape of `/api/admin/requests/:id` is decoded when the first route
      with that shape is tried, whatever the method, and a failure there
      ends the request. */
  function MatchRoute(v: string, p: string): Option<Route> {
    var n := Lower(p);
    var one := RequestsId(p, false);
    var two := RequestsId(p, true);
    if v == "POST" && n == "/api/contact" then Some(ContactSubmit)
    else if v == "POST" && n == "/api/admin/create-user" then Some(CreateAccount)
    else if v == "POST" && n == "/api/admin/login" then Some(AdminLogin)
    else if v == "GET" && n == "/api/admin/requests" then Some(ListLeads)
    else if one.Some? && DecodeUriComponent(one.value).None? then Some(Undecodable)
    else if v == "GET" && one.Some? then Some(ShowLead(DecodeUriComponent(one.value).value))
    else if two.Some? && DecodeUriComponent(two.value).None? then Some(Undecodable)
    else if v == "PATCH" && two.Some? then Some(ChangeStatus(DecodeUriComponent(two.value).value))
    else if v == "DELETE" && one.Some? then Some(DeleteLead(DecodeUriComponent(one.value).value))
    else if v == "GET" && n == "/api/admin/stats" then Some(DashboardStats)
    else if v == "GET" && n == "/api/health" then Some(HealthCheck)
    else None
  }

  /** The routes registered with `authenticateToken` in front. */
  predicate Guarded(r: Route) {
    r.ListLeads? || r.ShowLead? || r.ChangeStatus? || r.DeleteLead? || r.DashboardStats?
  }

  /** The routes that need no token. */
  predicate Open(r: Route) {
    r.ContactSubmit? || r.CreateAccount? || r.AdminLogin? || r.HealthCheck?
  }

  /** A `HEAD` request goes where a `GET` request goes. */
  lemma HeadIsGet(path: string)
    ensures RouteOf("HEAD", path) == RouteOf("GET", path)
  {
  }

  /** A trailing `/` changes nothing. */
  lemma TrailingSlashIgnored(verb: string, path: string)
    requires path == [] || path[|path| - 1] != '/'
    ensures RouteOf(verb, path + "/") == RouteOf(verb, path)
  {
    assert Unslashed(path + "/") == path == Unslashed(path);
  }

  /** A path under `/api/admin/requests/` is none of the literal paths. */
  lemma IdPathNotLiteral(n: string)
    requires RequestsPrefix <= n
    ensures n != "/api/contact" && n != "/api/admin/create-user" && n != "/api/admin/login"
    ensures n != "/api/admin/requests" && n != "/api/admin/stats" && n != "/api/health"
  {
    assert n[11] == 'r';
  }

  /** On a path with an `:id` and no `/status`, the route is decided by the
      method and by whether the `:id` decodes. */
  lemma IdRoute(v: string, p: string, id: string)
    requires RequestsId(p, false) == Some(id) && RequestsId(p, true).None?
    ensures MatchRoute(v, p)
         == if DecodeUriComponent(id).None? then Some(Undecodable)
            else if v == "GET" then Some(ShowLead(DecodeUriComponent(id).value))
            else if v == "DELETE" then Some(DeleteLead(DecodeUriComponent(id).value))
            else None
  {
    IdPathNotLiteral(Lower(p));
  }

  /** Paths as a browser or a client may write them: a trailing `/`,
      capitals, an escaped id, and an escape that does not decode. */
  lemma LenientPaths()
    ensures RouteOf("GET", "/api/admin/stats/") == Some(DashboardStats)
    ensures RouteOf("GET", "/API/HEALTH") == Some(HealthCheck)
    ensures RouteOf("GET", "/api/admin/requests/") == Some(ListLeads)
    ensures RouteOf("GET", "/api/admin/requests/%31") == Some(ShowLead("1"))
    ensures RouteOf("DELETE", "/Api/Admin/Requests/7/") == Some(DeleteLead("7"))
    ensures RouteOf("POST", "/api/admin/requests/%zz") == Some(Undecodable)
  {
    StatsSlash();
    HealthCaps();
    ListSlash();
    EscapedId();
    CapitalId();
    BadEscape();
  }

  lemma StatsSlash()
    ensures RouteOf("GET", "/api/admin/stats/") == Some(DashboardStats)
  {
    var n := "/api/admin/stats";
    assert Unslashed(n + "/") == n;
    LowerNoCapitals(n);
    assert n != "/api/admin/login" by { assert n[11] != "/api/admin/login"[11]; }
  }

  lemma HealthCaps()
    ensures RouteOf("GET", "/API/HEALTH") == Some(HealthCheck)
  {
    var p := "/API/HEALTH";
    assert Unslashed(p) == p;
    assert Lower(p) == "/api/health";
  }

  lemma ListSlash()
    ensures RouteOf("GET", "/api/admin/requests/") == Some(ListLeads)
  {
    var n := "/api/admin/requests";
    assert Unslashed(n + "/") == n;
    LowerNoCapitals(n);
  }

  lemma EscapedId()
    ensures RouteOf("GET", "/api/admin/requests/%31") == Some(ShowLead("1"))
  {
    var p := "/api/admin/requests/%31";
    assert Unslashed(p) == p;
    LowerNoCapitals(p);
    assert p[|RequestsPrefix|..] == "%31";
    assert Escape('1') == "%31" by {
      assert HexChar(3) == '3' && HexChar(1) == '1';
    }
    DecodeEscapeFront('1', "");
    assert "%31" + "" == "%31" && DecodeUriComponent("") == Some("");
    assert ['1'] + "" == "1";
    assert DecodeUriComponent("%31") == Some("1");
    assert RequestsId(p, false) == Some("%31");
    assert RequestsId(p, true).None?;
    IdRoute("GET", p, "%31");
  }

  lemma CapitalId()
    ensures RouteOf("DELETE", "/Api/Admin/Requests/7/") == Some(DeleteLead("7"))
  {
    var p := "/Api/Admin/Requests/7";
    assert Unslashed(p + "/") == p;
    LowerOfCapitalId();
    assert p[|RequestsPrefix|..] == "7";
    assert RequestsId(p, false) == Some("7") && RequestsId(p, true).None?;
    assert DecodeUriComponent("7") == Some("7");
    IdRoute("DELETE", p, "7");
  }

  lemma LowerOfCapitalId()
    ensures Lower("/Api/Admin/Requests/7") == "/api/admin/requests/7"
  {
  }

  lemma BadEscape()
    ensures RouteOf("POST", "/api/admin/requests/%zz") == Some(Undecodable)
  {
    var p := "/api/admin/requests/%zz";
    assert Unslashed(p) == p;
    LowerNoCapitals(p);
    assert p[|RequestsPrefix|..] == "%zz";
    assert !IsRadixDigit('z', 16);
    IdRoute("POST", p, "%zz");
  }

  /** None of the open paths lies under `/api/admin/requests`. */
  lemma OpenPathsOutside(path: string)
    requires path in {"/api/contact", "/api/admin/create-user", "/api/admin/login", "/api/health"}
    ensures !("/api/admin/requests" <= path) && path != "/api/admin/stats"
  {
    var p := "/api/admin/requests";
    if path == "/api/admin/create-user" {
      assert path[11] == 'c' && p[11] == 'r';
    }
  }

  /** A guarded route's path reads, ignoring case and a trailing `/`, as
      `/api/admin/stats` or as a path under `/api/admin/requests`. */
  lemma GuardedUnderAdmin(verb: string, path: string)
    requires RouteOf(verb, path).Some? && Guarded(RouteOf(verb, path).value)
    ensures RoutePath(path) == "/api/admin/stats" || "/api/admin/requests" <= RoutePath(path)
  {
    if RequestsId(Unslashed(path), false).Some? || RequestsId(Unslashed(path), true).Some? {
      assert RoutePath(path)[..|RequestsPrefix|] == RequestsPrefix;
      assert RoutePath(path)[..19] == RequestsPrefix[..19];
    }
  }

  /** An open route's path reads as neither: the account setup, the login,
      the intake and the health check need no token. */
  lemma OpenOutsideAdmin(verb: string, path: string)
    requires RouteOf(verb, path).Some? && Open(RouteOf(verb, path).value)
    ensures RoutePath(path) != "/api/admin/stats" && !("/api/admin/requests" <= RoutePath(path))
  {
    var n := Lower(Unslashed(path));
    assert n == "/api/contact" || n == "/api/admin/create-user" || n == "/api/admin/login" || n == "/api/health";
    OpenPathsOutside(n);
  }

  // ---- one request ----

  /** A request: method, path, `Authorization` header, query string and JSON
      body, the last two as text-valued fields. */
  datatype Request = Request(verb: string, path: string, authorization: Option<string>,
                             query: map<string, string>, body: map<string, string>)

  function Field(m: map<string, string>, k: string): (r: Option<string>)
    ensures r.Some? <==> k in m
  {
    if k in m then Some(m[k]) else None
  }

  function ContactOf(b: map<string, string>): ContactBody {
    ContactBody(Field(b, "name"), Field(b, "email"), Field(b, "phone"), Field(b, "company"),
                Field(b, "service"), Field(b, "budget"), Field(b, "timeline"), Field(b, "message"))
  }

  function CreateUserOf(b: map<string, string>): CreateUserBody {
    CreateUserBody(Field(b, "username"), Field(b, "password"), Field(b, "email"))
  }

  function LoginOf(b: map<string, string>): LoginBody {
    LoginBody(Field(b, "username"), Field(b, "password"))
  }

  function ListParamsOf(q: map<string, string>): ListParams {
    ListParams(Field(q, "page"), Field(q, "limit"), Field(q, "status"), Field(q, "search"))
  }

  /** The server's state: the two tables and the secret read at start-up. */
  class Backend {
    const leads: Table
    const admins: AdminTable
    const secret: string

    ghost predicate Valid()
      reads this, leads, admins
    {
      leads.Valid() && admins.Valid()
    }

    constructor (leads: Table, admins: AdminTable, secret: string)
      requires leads.Valid() && admins.Valid()
      ensures this.leads == leads && this.admins == admins && this.secret == secret && Valid()
    {
      this.leads := leads;
      this.admins := admins;
      this.secret := secret;
    }

    /** Neither table changed during the request. */
    twostate predicate Untouched()
      reads this, leads, admins
    {
      && leads.rows == old(leads.rows) && leads.nextId == old(leads.nextId)
      && admins.rows == old(admins.rows) && admins.nextId == old(admins.nextId)
    }

    /** The handler a dashboard route leads to, once its token has been
        accepted: the lead table may change, the admin table does not. */
    method ServeDashboard(r: Route, req: Request, fault: Option<StoreFault>, now: int) returns (resp: Response)
      requires Valid() && Guarded(r)
      modifies leads
      ensures Valid()
      ensures r == ListLeads ==>
        resp == Settle(GetRequests(leads.rows, ListParamsOf(req.query), fault), (l: Listing) => Page(l)) && Untouched()
      ensures r == DashboardStats ==>
        resp == Settle(GetStats(leads.rows, fault), (s: Stats) => Dashboard(s)) && Untouched()
      ensures r.ShowLead? ==>
        resp == Settle(GetRequest(leads.rows, r.id, fault), (x: Lead) => Row(x)) && Untouched()
      ensures r.ChangeStatus? ==>
        var st := RequestedStatus(Field(req.body, "status"));
        var id := PgInt(r.id);
        && leads.nextId == old(leads.nextId)
        && (st.None? ==> resp == Response(400, Error("Invalid status provided")) && leads.rows == old(leads.rows))
        && (st.Some? && (id.None? || fault.Some?) ==>
             resp == Response(500, Error(InternalError)) && leads.rows == old(leads.rows))
        && (st.Some? && id.Some? && fault.None? ==>
             && leads.rows == SetStatus(old(leads.rows), id.value, st.value, now)
             && resp == match Find(old(leads.rows), id.value)
                        case None => Response(404, Error("Request not found"))
                        case Some(x) => Response(200, Updated(StatusUpdated(true, "Status updated successfully",
                                                                           x.(status := st.value, updatedAt := now)))))
      ensures r.DeleteLead? ==>
        var id := PgInt(r.id);
        && leads.nextId == old(leads.nextId)
        && (id.None? || fault.Some? ==> resp == Response(500, Error(InternalError)) && leads.rows == old(leads.rows))
        && (id.Some? && fault.None? ==>
             && leads.rows == Remove(old(leads.rows), id.value)
             && resp == if Find(old(leads.rows), id.value).None? then Response(404, Error("Request not found"))
                        else Response(200, Deleted(Confirmation(true, "Request deleted successfully"))))
    {
      if r.ListLeads? {
        resp := Settle(GetRequests(leads.rows, ListParamsOf(req.query), fault), (l: Listing) => Page(l));
      } else if r.ShowLead? {
        resp := Settle(GetRequest(leads.rows, r.id, fault), (x: Lead) => Row(x));
      } else if r.ChangeStatus? {
        var o := PatchStatus(leads, r.id, Field(req.body, "status"), now, fault);
        resp := Settle(o, (u: StatusUpdated) => Updated(u));
      } else if r.DeleteLead? {
        var o := DeleteRequest(leads, r.id, fault);
        resp := Settle(o, (c: Confirmation) => Deleted(c));
      } else {
        resp := Settle(GetStats(leads.rows, fault), (s: Stats) => Dashboard(s));
      }
    }

    /** The handler a route without a guard leads to. */
    method ServeOpen(r: Route, req: Request, crypto: Crypto, now: int, salt: nat, fault: Option<StoreFault>)
      returns (resp: Response)
      requires Valid() && !Guarded(r)
      modifies leads, admins
      ensures Valid()
      ensures r == Undecodable ==> resp == Response(500, Error(InternalError)) && Untouched()
      ensures r == AdminLogin ==>
        && Untouched()
        && (fault.None? || !Truthy(LoginOf(req.body).username) || !Truthy(LoginOf(req.body).password) ==>
             resp == Settle(LoginReply(admins.rows, LoginOf(req.body), crypto, secret, ServerExpiry, now),
                            (s: LoggedIn) => Session(s)))
        && (fault.Some? && Truthy(LoginOf(req.body).username) && Truthy(LoginOf(req.body).password) ==>
             resp == Response(500, Error(InternalError)))
      ensures r == HealthCheck ==> resp == Response(200, Health("OK", now)) && Untouched()
      ensures r == ContactSubmit ==>
        && admins.rows == old(admins.rows) && admins.nextId == old(admins.nextId)
        && (Check(ContactOf(req.body)).Refused? ==>
             resp == Response(400, Error(Check(ContactOf(req.body)).error)) && Untouched())
        && (Check(ContactOf(req.body)).Accepted? && fault.Some? ==>
             resp == Response(500, Error(InternalError)) && Untouched())
        && (Check(ContactOf(req.body)).Accepted? && fault.None? ==>
             && leads.rows == old(leads.rows) + [Lead(old(leads.nextId), Check(ContactOf(req.body)).fields, New, now, now)]
             && resp == Response(201, Submission(Submitted(true, "Contact request submitted successfully",
                                                           old(leads.nextId), now))))
      ensures r == CreateAccount ==>
        var b := CreateUserOf(req.body);
        && leads.rows == old(leads.rows) && leads.nextId == old(leads.nextId)
        && (!Truthy(b.username) || !Truthy(b.password) ==>
             resp == Response(400, Error(FieldsRequired)) && admins.rows == old(admins.rows))
        && (Truthy(b.username) && Truthy(b.password) && fault.Some? ==>
             resp == Response(500, Error(InternalError)) && admins.rows == old(admins.rows))
        && (Truthy(b.username) && Truthy(b.password) && fault.None? ==>
             var row := Admin(old(admins.nextId), b.username.value, crypto.hash(b.password.value, salt),
                              OrNull(b.email), "admin", now);
             var step := AddUser(old(admins.rows), row);
             admins.rows == step.0 && resp == Settle(CreateReply(step.1), (c: Created) => NewUser(c)))
    {
      if r.ContactSubmit? {
        var o := SubmitContact(leads, ContactOf(req.body), now, fault);
        resp := Settle(o, (s: Submitted) => Submission(s));
      } else if r.CreateAccount? {
        var o := CreateUser(admins, CreateUserOf(req.body), crypto, salt, now, fault);
        resp := Settle(o, (c: Created) => NewUser(c));
      } else if r.AdminLogin? {
        var o := Login(admins, LoginOf(req.body), crypto, secret, ServerExpiry, now, fault);
        resp := Settle(o, (s: LoggedIn) => Session(s));
      } else if r.HealthCheck? {
        resp := Response(200, Health("OK", now));
      } else {
        resp := Response(500, Error(InternalError));
      }
    }

    /** One request through the route table, `fault` being a failure of the
        database while it runs. Unmatched requests get 404 and an `:id`
        that does not decode 500, before any guard; the guard answers 401
        or 403 for a dashboard route without a valid token, and then
        nothing runs and no table changes; the read-only routes answer what
        their handler computes over the table as it is. */
    method Handle(req: Request, crypto: Crypto, now: int, salt: nat, fault: Option<StoreFault>) returns (resp: Response)
      requires Valid()
      modifies leads, admins
      ensures Valid()
      ensures RouteOf(req.verb, req.path).None? ==>
        resp == Response(404, Error(RouteMissing)) && Untouched()
      ensures RouteOf(req.verb, req.path) == Some(Undecodable) ==>
        resp == Response(500, Error(InternalError)) && Untouched()
      ensures RouteOf(req.verb, req.path).Some? && Guarded(RouteOf(req.verb, req.path).value)
              && Gate(req.authorization, crypto, secret, now) == MissingToken ==>
        resp == Response(401, Error(TokenRequired)) && Untouched()
      ensures RouteOf(req.verb, req.path).Some? && Guarded(RouteOf(req.verb, req.path).value)
              && Gate(req.authorization, crypto, secret, now) == BadToken ==>
        resp == Response(403, Error(TokenRejected)) && Untouched()
      ensures Gate(req.authorization, crypto, secret, now).Authorized? ==>
        (RouteOf(req.verb, req.path) == Some(ListLeads) ==>
          resp == Settle(GetRequests(leads.rows, ListParamsOf(req.query), fault), (l: Listing) => Page(l)) && Untouched())
        && (RouteOf(req.verb, req.path) == Some(DashboardStats) ==>
          resp == Settle(GetStats(leads.rows, fault), (s: Stats) => Dashboard(s)) && Untouched())
        && (RouteOf(req.verb, req.path).Some? && RouteOf(req.verb, req.path).value.ShowLead? ==>
          resp == Settle(GetRequest(leads.rows, RouteOf(req.verb, req.path).value.id, fault), (x: Lead) => Row(x))
          && Untouched())
      ensures RouteOf(req.verb, req.path) == Some(AdminLogin) ==>
        && Untouched()
        && (fault.None? || !Truthy(LoginOf(req.body).username) || !Truthy(LoginOf(req.body).password) ==>
             resp == Settle(LoginReply(admins.rows, LoginOf(req.body), crypto, secret, ServerExpiry, now),
                            (s: LoggedIn) => Session(s)))
        && (fault.Some? && Truthy(LoginOf(req.body).username) && Truthy(LoginOf(req.body).password) ==>
             resp == Response(500, Error(InternalError)))
      ensures RouteOf(req.verb, req.path) == Some(HealthCheck) ==> resp == Response(200, Health("OK", now)) && Untouched()
      ensures RouteOf(req.verb, req.path) == Some(ContactSubmit) ==>
        && admins.rows == old(admins.rows) && admins.nextId == old(admins.nextId)
        && (Check(ContactOf(req.body)).Refused? ==>
             resp == Response(400, Error(Check(ContactOf(req.body)).error)) && Untouched())
        && (Check(ContactOf(req.body)).Accepted? && fault.Some? ==>
             resp == Response(500, Error(InternalError)) && Untouched())
      ensures RouteOf(req.verb, req.path) == Some(CreateAccount) ==>
        leads.rows == old(leads.rows) && leads.nextId == old(leads.nextId)
      ensures RouteOf(req.verb, req.path).Some? && Guarded(RouteOf(req.verb, req.path).value) ==>
        admins.rows == old(admins.rows) && admins.nextId == old(admins.nextId)
    {
      var route := RouteOf(req.verb, req.path);
      if route.None? {
        return Response(404, Error(RouteMissing));
      }
      var r := route.value;
      if r.Undecodable? {
        return Response(500, Error(InternalError));
      }
      if Guarded(r) {
        var ex := new Exchange();
        AuthenticateToken(ex, req.authorization, crypto, secret, now);
        if ex.written.Some? {
          return Response(ex.written.value.code, Error(ex.written.value.error));
        }
      }
      if Guarded(r) {
        resp := ServeDashboard(r, req, fault, now);
      } else {
        resp := ServeOpen(r, req, crypto, now, salt, fault);
      }
    }
  }
}
