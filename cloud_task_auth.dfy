/**
 * `verify_cloud_task`: the caller check on `/set-color`. The header must be
 * `Bearer <token>`, the token must pass the OIDC verifier for the service's
 * audience, and the verified claims must name the configured service
 * account. The verifier itself is a library call outside this model; it is
 * a parameter that either fails (`None`, Python's `ValueError`) or returns
 * the token's claims.
 */
module CloudTaskAuth {
  import opened Wrappers
  import opened Strings

  /** Why a caller was turned away; every one of them is answered with 403. */
  datatype AuthError = MissingHeader | MalformedHeader | InvalidToken | UnauthorizedCaller

  /** The claims of a verified token (string-valued claims only). */
  type Claims = map<string, string>

  /** The OIDC verifier: token and audience to claims, or failure. */
  type Verifier = (string, string) -> Option<Claims>

  /** The token of an `Authorization: Bearer <token>` header. */
  function BearerToken(header: Option<string>): (r: Result<string, AuthError>)
    ensures r == Failure(MissingHeader) <==> header == None || header == Some("")
    ensures r.Success? ==> ' ' !in r.value
  {
    if header.None? || header.value == "" then Failure(MissingHeader)
    else
      var parts := Split(header.value, ' ');
      if |parts| != 2 || parts[0] != "Bearer" then Failure(MalformedHeader)
      else
        assert parts[1] in parts;
        Success(parts[1])
  }

  /** A header is accepted with token `t` exactly when it is `"Bearer " + t` and `t` has no space. */
  lemma BearerTokenIff(h: string, t: string)
    ensures BearerToken(Some(h)) == Success(t) <==> h == "Bearer " + t && ' ' !in t
  {
    if BearerToken(Some(h)) == Success(t) {
      var parts := Split(h, ' ');
      JoinSplit(h, ' ');
      assert parts == ["Bearer", t];
      assert Join(parts, ' ') == "Bearer" + [' '] + t;
    }
    if h == "Bearer " + t && ' ' !in t {
      var parts := ["Bearer", t];
      assert Join(parts, ' ') == h;
      SplitJoin(parts, ' ');
    }
  }

  /** An empty token after `Bearer ` gets through to the verifier. */
  lemma EmptyTokenPassesHeaderCheck()
    ensures BearerToken(Some("Bearer ")) == Success("")
  {
    BearerTokenIff("Bearer ", "");
  }

  /** Two spaces after `Bearer` give three pieces and a malformed header. */
  lemma DoubleSpaceRejected(t: string)
    ensures BearerToken(Some("Bearer  " + t)) == Failure(MalformedHeader)
  {
    var h := "Bearer  " + t;
    assert h == "Bearer" + [' '] + ("" + [' '] + t);
    SplitFirstPiece("Bearer", ' ', "" + [' '] + t);
    SplitFirstPiece("", ' ', t);
    assert |Split(h, ' ')| >= 3;
  }

  /** The whole of `verify_cloud_task`: `Pass` lets the request through. */
  function VerifyCloudTask(header: Option<string>, audience: string, serviceAccount: string,
                           verify: Verifier): Outcome<AuthError>
  {
    match BearerToken(header)
    case Failure(e) => Fail(e)
    case Success(jwt) =>
      match verify(jwt, audience)
      case None => Fail(InvalidToken)
      case Some(info) =>
        if "email" !in info || info["email"] != serviceAccount then Fail(UnauthorizedCaller)
        else Pass
  }

  /**
   * A caller is accepted exactly when the header is `Bearer ` followed by a
   * space-free token, the verifier accepts that token for the audience, and
   * the claims' email is the configured service account.
   */
  lemma CallerAcceptedIff(header: Option<string>, audience: string, serviceAccount: string,
                          verify: Verifier)
    ensures VerifyCloudTask(header, audience, serviceAccount, verify) == Pass
        <==> && header.Some?
             && |header.value| >= 7 && header.value[..7] == "Bearer "
             && ' ' !in header.value[7..]
             && verify(header.value[7..], audience).Some?
             && "email" in verify(header.value[7..], audience).value
             && verify(header.value[7..], audience).value["email"] == serviceAccount
  {
    if header.Some? {
      var h := header.value;
      if |h| >= 7 && h[..7] == "Bearer " {
        assert h == "Bearer " + h[7..];
        BearerTokenIff(h, h[7..]);
      }
      if BearerToken(header).Success? {
        BearerTokenIff(h, BearerToken(header).value);
      }
    }
  }
}
