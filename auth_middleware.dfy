/** `authenticateToken`: the token taken from the `Authorization` header, and
    the decision between 401, 403 and passing the request on. */
module AuthMiddleware {
  import opened Wrappers
  import opened JsText
  import opened AdminAccounts

  const TokenRequired := "Access token is required"
  const TokenRejected := "Token is invalid or has expired"

  /** `authHeader && authHeader.split(' ')[1]`, kept only when truthy: the
      second space-separated piece of the header, whatever the first is. */
  function Token(header: Option<string>): (r: Option<string>)
    ensures r.Some? ==> r.value != [] && ' ' !in r.value
  {
    if !Truthy(header) then None
    else
      var parts := Split(header.value, ' ');
      if |parts| >= 2 && parts[1] != [] then Some(parts[1]) else None
  }

  /** The token is the word after the first space and up to the next one;
      the scheme word before it is not looked at, so `Token x` reads like
      `Bearer x`. */
  lemma TokenIsSecondWord(scheme: string, tok: string, rest: string)
    requires ' ' !in scheme && ' ' !in tok && tok != []
    requires rest == [] || rest[0] == ' '
    ensures Token(Some(scheme + " " + tok + rest)) == Some(tok)
  {
    var h := scheme + " " + tok + rest;
    IndexOfAfterWord(scheme, ' ', tok + rest);
    assert h == scheme + [' '] + (tok + rest);
    assert h[..|scheme|] == scheme;
    assert h[|scheme| + 1..] == tok + rest;
    assert Split(h, ' ') == [scheme] + Split(tok + rest, ' ');
    if rest == [] {
      assert tok + rest == tok;
      assert Split(tok, ' ') == [tok];
    } else {
      assert rest == [' '] + rest[1..];
      IndexOfAfterWord(tok, ' ', rest[1..]);
      assert tok + rest == tok + [' '] + rest[1..];
      assert (tok + rest)[..|tok|] == tok;
      assert Split(tok + rest, ' ')[0] == tok;
    }
  }

  /** No header, a header without a space, and a header whose second piece is
      empty (two spaces after the scheme, or a trailing space) carry no
      token. */
  lemma NoToken(h: string, scheme: string, rest: string)
    requires ' ' !in scheme
    ensures Token(None) == None && Token(Some("")) == None
    ensures ' ' !in h ==> Token(Some(h)) == None
    ensures Token(Some(scheme + "  " + rest)) == None
    ensures Token(Some(scheme + " ")) == None
  {
    var d := scheme + "  " + rest;
    IndexOfAfterWord(scheme, ' ', " " + rest);
    assert d == scheme + [' '] + (" " + rest);
    assert d[|scheme| + 1..] == " " + rest;
    assert Split(" " + rest, ' ')[0] == [];
    var e := scheme + " ";
    IndexOfAfterWord(scheme, ' ', []);
    assert e == scheme + [' '] + [];
    assert e[|scheme| + 1..] == [];
    assert Split(e, ' ') == [scheme] + Split([], ' ');
  }

  /** The three ends of the middleware. */
  datatype Verdict = MissingToken | BadToken | Authorized(user: Claims)

  function Gate(header: Option<string>, crypto: Crypto, secret: string, now: int): Verdict {
    match Token(header)
    case None => MissingToken
    case Some(tok) =>
      match crypto.verify(tok, secret, now)
      case None => BadToken
      case Some(user) => Authorized(user)
  }

  /** 401 exactly when there is no token, and then the verifier is not
      consulted: any verifier, secret and clock give the same answer; 403
      exactly when there is a token the verifier rejects; passing exactly
      with the payload the verifier decoded. */
  lemma GateCases(header: Option<string>, crypto: Crypto, other: Crypto, secret: string, otherSecret: string, now: int, later: int)
    ensures Gate(header, crypto, secret, now) == MissingToken <==> Token(header).None?
    ensures Token(header).None? ==> Gate(header, other, otherSecret, later) == MissingToken
    ensures Gate(header, crypto, secret, now) == BadToken <==>
      Token(header).Some? && crypto.verify(Token(header).value, secret, now).None?
    ensures forall u :: Gate(header, crypto, secret, now) == Authorized(u) <==>
      Token(header).Some? && crypto.verify(Token(header).value, secret, now) == Some(u)
  {
  }

  /** What a request carries through the middleware: `req.user`, the reply
      written so far, and how often `next` was called. */
  datatype Written = Written(code: nat, error: string)

  class Exchange {
    var user: Option<Claims>
    var written: Option<Written>
    var nextCalls: nat

    constructor ()
      ensures user.None? && written.None? && nextCalls == 0
    {
      user := None;
      written := None;
      nextCalls := 0;
    }
  }

  /** The middleware on one request: a 401 or a 403 is written and `next`
      is not called; on success `req.user` is the decoded payload, nothing
      is written and `next` is called once. */
  method AuthenticateToken(ex: Exchange, header: Option<string>, crypto: Crypto, secret: string, now: int)
    modifies ex
    ensures Gate(header, crypto, secret, now) == MissingToken ==>
      ex.written == Some(Written(401, TokenRequired)) && ex.user == old(ex.user) && ex.nextCalls == old(ex.nextCalls)
    ensures Gate(header, crypto, secret, now) == BadToken ==>
      ex.written == Some(Written(403, TokenRejected)) && ex.user == old(ex.user) && ex.nextCalls == old(ex.nextCalls)
    ensures Gate(header, crypto, secret, now).Authorized? ==>
      && ex.user == Some(Gate(header, crypto, secret, now).user)
      && ex.written == old(ex.written) && ex.nextCalls == old(ex.nextCalls) + 1
  {
    var token := Token(header);
    if token.None? {
      ex.written := Some(Written(401, TokenRequired));
      return;
    }
    var decoded := crypto.verify(token.value, secret, now);
    if decoded.None? {
      ex.written := Some(Written(403, TokenRejected));
      return;
    }
    ex.user := decoded;
    ex.nextCalls := ex.nextCalls + 1;
  }
}
