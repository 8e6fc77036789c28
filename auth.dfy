/** The `token_required` guard of `auth.py`: what a protected route answers
    before, or instead of, running its handler. Decoding and verifying the
    JSON web token is a library call; it enters as the outcome it reports
    for the token and the key. */
module Auth {
  import opened Wrappers
  import opened Text
  import opened Http

  /** What decoding a token with the server's key reports: the claims of a
      good token, or the exception the decoder raises. */
  datatype DecodeOutcome =
    | Decoded(user: string)
    | ExpiredSignature   // `jwt.ExpiredSignatureError`
    | BadToken           // any other `jwt.InvalidTokenError`

  /** `isinstance(e, jwt.InvalidTokenError)`: an expired signature is one
      kind of invalid token, so the order of the two `except` clauses
      decides which message an expired token gets. */
  predicate IsInvalidTokenError(o: DecodeOutcome)
  {
    o.ExpiredSignature? || o.BadToken?
  }

  /** The setting that holds the key tokens are signed with. */
  const SecretKey := "SECRET_KEY"

  const TokenMissing := Response(401, Message("Token is missing"))
  const TokenExpired := Response(401, Message("Token has expired"))
  const TokenInvalid := Response(401, Message("Token is invalid"))

  /** The token read from the `Authorization` header: none without the
      header, otherwise the header with every `Bearer ` removed. */
  function Token(header: Option<string>): (t: Option<string>)
    ensures header.None? <==> t.None?
    ensures t.Some? ==> |t.value| <= |header.value|
  {
    match header
    case None => None
    case Some(h) => Some(RemoveAll(h, "Bearer "))
  }

  /** The guard's verdict: the response that stops the request, or `None`
      when the handler runs. A missing or empty token is refused without
      decoding. The key is read from the settings only for a token, and
      its absence is a `KeyError` that the `except` clauses do not catch.
      The decoder's expired signature is caught before the general
      invalid-token case. */
  function Guard(header: Option<string>, config: map<string, string>,
                 decode: (string, string) -> DecodeOutcome): (g: Option<Response>)
    ensures g.Some? ==> g.value in {TokenMissing, TokenExpired, TokenInvalid, ServerError(KeyError)}
    ensures g == Some(TokenMissing) <==> Token(header).None? || Token(header).value == ""
    ensures g == Some(ServerError(KeyError)) <==>
              Token(header).Some? && Token(header).value != "" && SecretKey !in config
    ensures g.None? <==>
              && Token(header).Some? && Token(header).value != "" && SecretKey in config
              && decode(Token(header).value, config[SecretKey]).Decoded?
  {
    var token := Token(header);
    if token.None? || token.value == "" then Some(TokenMissing)
    else if SecretKey !in config then Some(ServerError(KeyError))
    else
      var outcome := decode(token.value, config[SecretKey]);
      if outcome.ExpiredSignature? then Some(TokenExpired)
      else if IsInvalidTokenError(outcome) then Some(TokenInvalid)
      else None
  }

  /** A protected route: the guard's refusal, or what the wrapped handler
      returns, unchanged. */
  function TokenRequired(header: Option<string>, config: map<string, string>,
                         decode: (string, string) -> DecodeOutcome, handler: Response): (r: Response)
    ensures Guard(header, config, decode).None? ==> r == handler
    ensures Guard(header, config, decode).Some? ==> r == Guard(header, config, decode).value
    ensures Guard(header, config, decode).Some? ==> r.status == 401 || r == ServerError(KeyError)
  {
    match Guard(header, config, decode)
    case Some(refusal) => refusal
    case None => handler
  }

  /** Without an `Authorization` header the answer is "Token is missing",
      whatever the decoder and the handler would have done. */
  lemma NoHeaderRefused(config: map<string, string>, decode: (string, string) -> DecodeOutcome,
                        handler: Response)
    ensures TokenRequired(None, config, decode, handler) == TokenMissing
  {
  }

  /** A header that is exactly `Bearer ` leaves an empty token. */
  lemma BareBearerRefused(config: map<string, string>, decode: (string, string) -> DecodeOutcome,
                          handler: Response)
    ensures TokenRequired(Some("Bearer "), config, decode, handler) == TokenMissing
  {
    RemoveAllLeading("Bearer ", "");
    assert "Bearer " + "" == "Bearer ";
  }

  /** Every `Bearer ` is removed, not just a leading one: in
      `Bearer <a>Bearer <b>` the second one goes too. */
  lemma EveryBearerRemoved(a: string, b: string)
    requires forall i :: 0 <= i < |a| ==> a[i] != 'B'
    ensures Token(Some("Bearer " + a + "Bearer " + b)) == Some(a + RemoveAll(b, "Bearer "))
  {
    assert "Bearer " + a + "Bearer " + b == "Bearer " + (a + ("Bearer " + b));
    RemoveAllLeading("Bearer ", a + ("Bearer " + b));
    RemoveAllKeepsPlain(a, "Bearer " + b, "Bearer ");
    RemoveAllLeading("Bearer ", b);
  }

  /** A header holding no `Bearer ` is the token as it stands. */
  lemma PlainHeaderIsToken(h: string)
    requires !Occurs("Bearer ", h)
    ensures Token(Some(h)) == Some(h)
  {
    RemoveAllIdentity(h, "Bearer ");
  }

  /** An expired signature is an invalid token too, yet it is reported as
      expired: that `except` clause comes first. */
  lemma ExpiredBeforeInvalid(header: Option<string>, config: map<string, string>,
                             decode: (string, string) -> DecodeOutcome, handler: Response)
    requires Token(header).Some? && Token(header).value != ""
    requires SecretKey in config && decode(Token(header).value, config[SecretKey]) == ExpiredSignature
    ensures IsInvalidTokenError(decode(Token(header).value, config[SecretKey]))
    ensures TokenRequired(header, config, decode, handler) == TokenExpired
  {
  }

  /** Any other decoding failure is "Token is invalid". */
  lemma BadTokenRefused(header: Option<string>, config: map<string, string>,
                        decode: (string, string) -> DecodeOutcome, handler: Response)
    requires Token(header).Some? && Token(header).value != ""
    requires SecretKey in config && decode(Token(header).value, config[SecretKey]) == BadToken
    ensures TokenRequired(header, config, decode, handler) == TokenInvalid
  {
  }

  /** The claims of a good token are not looked at: two decoders that both
      accept the token, whoever they say it is for, admit the request
      alike. */
  lemma ClaimsIgnored(header: Option<string>, config: map<string, string>,
                      decode1: (string, string) -> DecodeOutcome,
                      decode2: (string, string) -> DecodeOutcome, handler: Response)
    requires Token(header).Some? && Token(header).value != ""
    requires SecretKey in config
    requires decode1(Token(header).value, config[SecretKey]).Decoded?
    requires decode2(Token(header).value, config[SecretKey]).Decoded?
    ensures TokenRequired(header, config, decode1, handler) == TokenRequired(header, config, decode2, handler) == handler
  {
  }

  /** The decoder is consulted only about the token itself, with the
      configured key: decoders that agree on that give the same answer. */
  lemma OnlyTokenDecoded(header: Option<string>, config: map<string, string>,
                         decode1: (string, string) -> DecodeOutcome,
                         decode2: (string, string) -> DecodeOutcome, handler: Response)
    requires Token(header).Some? && SecretKey in config ==>
               decode1(Token(header).value, config[SecretKey]) == decode2(Token(header).value, config[SecretKey])
    ensures TokenRequired(header, config, decode1, handler) == TokenRequired(header, config, decode2, handler)
  {
  }
}
