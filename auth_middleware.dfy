/** The `authenticate` middleware: the token is the second space-separated piece
    of the Authorization header; no token or an empty one gives 401, a token
    that does not verify gives 403, otherwise the decoded claims are attached to
    the request and the next handler runs. */
module AuthMiddleware {
  import opened JsValues
  import opened Crypto

  /** `pieces.join(' ')`. */
  function Join(pieces: seq<string>): string
    requires |pieces| >= 1
  {
    if |pieces| == 1 then pieces[0] else pieces[0] + " " + Join(pieces[1..])
  }

  /** Prepending a non-space character to the first piece prepends it to the join. */
  lemma {:induction false} JoinExtendHead(ch: char, pieces: seq<string>)
    requires |pieces| >= 1
    ensures Join([[ch] + pieces[0]] + pieces[1..]) == [ch] + Join(pieces)
  {
    var q := [[ch] + pieces[0]] + pieces[1..];
    if |pieces| > 1 {
      assert q[1..] == pieces[1..];
    }
  }

  /** `s.split(' ')`: the maximal space-free pieces between single spaces, so
      that neighbouring spaces produce an empty piece. Splitting is undone by
      joining, and there is exactly one piece when `s` holds no space. */
  function Split(s: string): (pieces: seq<string>)
    ensures |pieces| >= 1
    ensures forall i :: 0 <= i < |pieces| ==> ' ' !in pieces[i]
    ensures Join(pieces) == s
    ensures |pieces| == 1 <==> ' ' !in s
    decreases |s|
  {
    if s == [] then [""]
    else if s[0] == ' ' then
      var rest := Split(s[1..]);
      var pieces := [""] + rest;
      assert pieces[1..] == rest;
      assert s == [' '] + s[1..];
      pieces
    else
      var rest := Split(s[1..]);
      var pieces := [[s[0]] + rest[0]] + rest[1..];
      JoinExtendHead(s[0], rest);
      assert s == [s[0]] + s[1..];
      pieces
  }

  /** A space-free word followed by a space splits into that word and the rest. */
  lemma {:induction false} SplitAfterWord(word: string, rest: string)
    requires ' ' !in word
    ensures Split(word + " " + rest) == [word] + Split(rest)
  {
    if word == [] {
      assert word + " " + rest == [' '] + rest;
      assert (word + " " + rest)[1..] == rest;
    } else {
      var s := word + " " + rest;
      assert s[0] == word[0];
      assert s[1..] == word[1..] + " " + rest;
      SplitAfterWord(word[1..], rest);
      assert [word[0]] + word[1..] == word;
    }
  }

  /** Joining space-free pieces and splitting again gives the pieces back. */
  lemma {:induction false} SplitJoin(pieces: seq<string>)
    requires |pieces| >= 1
    requires forall i :: 0 <= i < |pieces| ==> ' ' !in pieces[i]
    ensures Split(Join(pieces)) == pieces
  {
    if |pieces| > 1 {
      SplitAfterWord(pieces[0], Join(pieces[1..]));
      SplitJoin(pieces[1..]);
    } else {
      assert Split(pieces[0])[0] == Join(Split(pieces[0]));
    }
  }

  /** `req.headers.authorization?.split(' ')[1]`: present exactly when the
      header is present and holds a space; never holds a space itself. */
  function BearerToken(authorization: Option<string>): (token: Option<string>)
    ensures token.Some? <==> authorization.Some? && ' ' in authorization.value
    ensures token.Some? ==> ' ' !in token.value
  {
    match authorization
    case None => None
    case Some(header) =>
      var pieces := Split(header);
      if |pieces| < 2 then None else Some(pieces[1])
  }

  /** The token is the second word whatever the first word is, and anything
      after a further space is ignored. */
  lemma TokenIsSecondWord(scheme: string, token: string, tail: string)
    requires ' ' !in scheme && ' ' !in token
    ensures BearerToken(Some(scheme + " " + token)) == Some(token)
    ensures BearerToken(Some(scheme + " " + token + " " + tail)) == Some(token)
  {
    SplitAfterWord(scheme, token);
    assert Split(token) == [token] by {
      assert Split(token)[0] == Join(Split(token));
    }
    assert scheme + " " + token + " " + tail == scheme + " " + (token + " " + tail);
    SplitAfterWord(scheme, token + " " + tail);
    SplitAfterWord(token, tail);
  }

  lemma BearerTokenExamples()
    ensures BearerToken(Some("Bearer abc")) == Some("abc")
    ensures BearerToken(Some("Bearer a b")) == Some("a")
    ensures BearerToken(Some("Bearer  x")) == Some("")
  {
    assert "Bearer abc" == "Bearer" + " " + "abc";
    TokenIsSecondWord("Bearer", "abc", "");
    assert "Bearer a b" == "Bearer" + " " + "a" + " " + "b";
    TokenIsSecondWord("Bearer", "a", "b");
    assert "Bearer  x" == "Bearer" + " " + "" + " " + "x";
    TokenIsSecondWord("Bearer", "", "x");
  }

  lemma NoSpaceNoToken()
    ensures BearerToken(Some("Bearer")) == None
    ensures BearerToken(None) == None
  {
    assert ' ' !in "Bearer";
  }

  /** The middleware's decision: reject with a status, or proceed with the claims. */
  datatype GateResult = Reject(status: int) | Proceed(claims: Claims)

  /** 401 without a truthy token, 403 when `verify` throws, otherwise proceed
      with the decoded claims. */
  function Gate(authorization: Option<string>, verify: string -> Option<Claims>): (r: GateResult)
    ensures r.Reject? ==> r.status == 401 || r.status == 403
    ensures r == Reject(401) <==> !TruthyString(BearerToken(authorization))
    ensures r == Reject(403) <==>
      TruthyString(BearerToken(authorization)) && verify(BearerToken(authorization).value).None?
    ensures r.Proceed? ==>
      TruthyString(BearerToken(authorization)) && verify(BearerToken(authorization).value) == Some(r.claims)
  {
    var token := BearerToken(authorization);
    if !TruthyString(token) then Reject(401)
    else match verify(token.value)
      case None => Reject(403)
      case Some(claims) => Proceed(claims)
  }

  /** A missing header, or one without a space, is refused with 401. */
  lemma NoTokenUnauthorized(authorization: Option<string>, verify: string -> Option<Claims>)
    requires authorization.None? || ' ' !in authorization.value
    ensures Gate(authorization, verify) == Reject(401)
  {
  }

  /** Two spaces after the first word make the token empty: 401. */
  lemma EmptyTokenUnauthorized(scheme: string, tail: string, verify: string -> Option<Claims>)
    requires ' ' !in scheme
    ensures Gate(Some(scheme + "  " + tail), verify) == Reject(401)
  {
    TokenIsSecondWord(scheme, "", tail);
    assert scheme + "  " + tail == scheme + " " + "" + " " + tail;
  }

  /** A non-empty token that does not verify is refused with 403; one that does
      lets the request through carrying the decoded claims. */
  lemma WordTokenDecision(scheme: string, token: string, verify: string -> Option<Claims>)
    requires ' ' !in scheme && ' ' !in token && token != ""
    ensures verify(token).None? ==> Gate(Some(scheme + " " + token), verify) == Reject(403)
    ensures verify(token).Some? ==> Gate(Some(scheme + " " + token), verify) == Proceed(verify(token).value)
  {
    TokenIsSecondWord(scheme, token, "");
  }

  /** The Express request, as far as the middleware sees it: the header it reads
      and the `user` field it writes. */
  class Request {
    const authorization: Option<string>
    var user: Option<Claims>

    constructor (authorization: Option<string>)
      ensures this.authorization == authorization && user == None
    {
      this.authorization := authorization;
      user := None;
    }
  }

  /** `authenticate(req, res, next)`: the result says whether a status was sent
      or `next` is to be called; only the latter writes `req.user`. */
  method Authenticate(req: Request, verify: string -> Option<Claims>) returns (r: GateResult)
    modifies req
    ensures r == Gate(req.authorization, verify)
    ensures r.Proceed? ==> req.user == Some(r.claims)
    ensures r.Reject? ==> req.user == old(req.user)
  {
    var token := BearerToken(req.authorization);
    if !TruthyString(token) {
      return Reject(401);
    }
    var decoded := verify(token.value);
    if decoded.None? {
      return Reject(403);
    }
    req.user := decoded;
    r := Proceed(decoded.value);
  }
}
