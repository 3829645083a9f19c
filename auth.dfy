/**
 * The authentication decorator of the API: the Bearer token is taken from
 * the Authorization header, the signing key whose `kid` matches the token's
 * header is chosen from the identity provider's key set (JWKS), and the token
 * is decoded with it; the wrapped view runs only when decoding succeeds.
 *
 * Fetching the key set over the network and the cryptographic work of
 * reading and verifying a JWT are parameters: the key set is given as a
 * sequence, reading the unverified token header as `readHeader`, and
 * verification as `decode`, which yields a payload or one of three kinds of
 * error.
 */
module Auth {
  import opened Wrappers
  import opened Text

  /** The claims of a decoded token. */
  type Payload = map<string, string>

  datatype AuthError =
    /** `AuthenticationFailed(detail)`: the framework answers 401 with this detail. */
    | AuthenticationFailed(detail: string)
    /** The header has no word to index: `parts[0]` or `parts[1]` raises IndexError. */
    | HeaderIndexError
    /** The token's header cannot be read: `jwt.get_unverified_header` raises. */
    | TokenHeaderUnreadable
    /** The token's header has no `kid`: `unverified_header["kid"]` raises KeyError in the first pass of the loop. */
    | KidKeyError

  const MissingHeader := "Authorization header is missing"
  const NotBearer := "Authorization header must start with Bearer"
  const NoMatchingKey := "No matching key found"
  const TokenExpired := "Token is expired"
  const InvalidClaims := "Invalid claims"
  const InvalidToken := "Invalid token"

  /**
   * `get_token_auth_header`: the second whitespace-separated word of the
   * header, provided the first one is "bearer" in any letter case.
   */
  function GetTokenAuthHeader(auth: Option<string>): (r: Result<string, AuthError>)
    ensures auth.None? <==> r == Failure(AuthenticationFailed(MissingHeader))
    ensures r.Success? ==> IsWord(r.value)
  {
    match auth
    case None => Failure(AuthenticationFailed(MissingHeader))
    case Some(header) =>
      var parts := Split(header);
      SplitWords(header);
      if |parts| == 0 then Failure(HeaderIndexError)
      else if AsciiLower(parts[0]) != "bearer" then Failure(AuthenticationFailed(NotBearer))
      else if |parts| < 2 then Failure(HeaderIndexError)
      else Success(parts[1])
  }

  /**
   * The outcome of the header check for a header whose words are `words`,
   * separated by any whitespace and with any whitespace before and after.
   */
  lemma HeaderOfWords(pad: string, words: seq<string>, sep: string, trail: string)
    requires forall k :: 0 <= k < |words| ==> IsWord(words[k])
    requires |sep| > 0 && AllSpace(sep) && AllSpace(pad) && AllSpace(trail)
    ensures var r := GetTokenAuthHeader(Some(pad + Join(words, sep) + trail));
      && (|words| == 0 ==> r == Failure(HeaderIndexError))
      && (|words| > 0 && AsciiLower(words[0]) != "bearer" ==> r == Failure(AuthenticationFailed(NotBearer)))
      && (|words| == 1 && AsciiLower(words[0]) == "bearer" ==> r == Failure(HeaderIndexError))
      && (|words| >= 2 && AsciiLower(words[0]) == "bearer" ==> r == Success(words[1]))
  {
    var j := Join(words, sep);
    SplitTrailingSpace(pad + j, trail);
    SplitLeadingSpace(pad, j);
    SplitJoin(words, sep);
  }

  /**
   * A header with at least two words, whatever whitespace stands before,
   * between and after them: the first word decides, the second is the token.
   */
  lemma HeaderOfTwoWords(pad: string, w0: string, sep: string, w1: string, rest: string)
    requires AllSpace(pad) && IsWord(w0) && |sep| > 0 && AllSpace(sep) && IsWord(w1)
    requires rest == [] || IsSpace(rest[0])
    ensures var r := GetTokenAuthHeader(Some(pad + w0 + sep + w1 + rest));
      && (AsciiLower(w0) != "bearer" ==> r == Failure(AuthenticationFailed(NotBearer)))
      && (AsciiLower(w0) == "bearer" ==> r == Success(w1))
  {
    var tail := w1 + rest;
    assert pad + w0 + sep + w1 + rest == pad + (w0 + (sep + tail));
    SplitLeadingSpace(pad, w0 + (sep + tail));
    SplitWord(w0, sep + tail);
    SplitLeadingSpace(sep, tail);
    SplitWord(w1, rest);
  }

  /** The word "bearer" with each letter in either case. */
  predicate IsBearer(w: string) {
    AsciiLower(w) == "bearer"
  }

  lemma BearerIsWord(w: string)
    requires IsBearer(w)
    ensures IsWord(w)
  {
    forall i | 0 <= i < |w| ensures !IsSpace(w[i]) {
      assert LowerChar(w[i]) == "bearer"[i];
    }
  }

  /** "bearer X", "BEARER X", "Bearer X", ...: the token is X whatever the case of "Bearer". */
  lemma BearerAnyCase(w: string, token: string)
    requires IsBearer(w) && IsWord(token)
    ensures GetTokenAuthHeader(Some(w + " " + token)) == Success(token)
  {
    BearerIsWord(w);
    HeaderOfWords("", [w, token], " ", "");
    assert "" + Join([w, token], " ") + "" == w + " " + token;
  }

  lemma BearerExamples()
    ensures GetTokenAuthHeader(Some("bearer X")) == Success("X")
    ensures GetTokenAuthHeader(Some("BEARER X")) == Success("X")
    ensures GetTokenAuthHeader(Some("Bearer X")) == Success("X")
  {
    assert IsWord("X");
    assert "bearer X" == "bearer" + " " + "X";
    assert "BEARER X" == "BEARER" + " " + "X";
    assert "Bearer X" == "Bearer" + " " + "X";
    assert IsBearer("bearer") by { assert AsciiLower("bearer") == "bearer"; }
    assert IsBearer("BEARER") by { assert AsciiLower("BEARER") == "bearer"; }
    assert IsBearer("Bearer") by { assert AsciiLower("Bearer") == "bearer"; }
    BearerAnyCase("bearer", "X");
    BearerAnyCase("BEARER", "X");
    BearerAnyCase("Bearer", "X");
  }

  /** "Bearer" alone has no second word and the empty header no first one. */
  lemma ShortHeaderExamples()
    ensures GetTokenAuthHeader(Some("Bearer")) == Failure(HeaderIndexError)
    ensures GetTokenAuthHeader(Some("")) == Failure(HeaderIndexError)
  {
    assert IsBearer("Bearer") by { assert AsciiLower("Bearer") == "bearer"; }
    BearerIsWord("Bearer");
    HeaderOfWords("", ["Bearer"], " ", "");
    assert "" + Join(["Bearer"], " ") + "" == "Bearer";
    HeaderOfWords("", [], " ", "");
  }

  /** An entry of the key set; `others` holds its remaining members (alg, x5c, ...). */
  datatype Jwk = Jwk(kty: string, kid: string, use: string, n: string, e: string, others: map<string, string>)

  /** The RSA key handed to the decoder: the five members copied from a JWKS entry. */
  datatype RsaKey = RsaKey(kty: string, kid: string, use: string, n: string, e: string)

  function ToRsaKey(k: Jwk): RsaKey {
    RsaKey(k.kty, k.kid, k.use, k.n, k.e)
  }

  /** Specification of the key selection: the key of the last entry whose kid is `kid`. */
  function LastMatch(keys: seq<Jwk>, kid: string): Option<RsaKey> {
    if keys == [] then None
    else if keys[|keys| - 1].kid == kid then Some(ToRsaKey(keys[|keys| - 1]))
    else LastMatch(keys[..|keys| - 1], kid)
  }

  /** Entry `i` matches `kid` and no later entry does. */
  predicate IsLastMatch(keys: seq<Jwk>, kid: string, i: int) {
    0 <= i < |keys| && keys[i].kid == kid && forall j :: i < j < |keys| ==> keys[j].kid != kid
  }

  lemma {:induction false} LastMatchIsLast(keys: seq<Jwk>, kid: string)
    ensures LastMatch(keys, kid).None? <==> forall i :: 0 <= i < |keys| ==> keys[i].kid != kid
    ensures LastMatch(keys, kid).Some? ==>
      exists i :: IsLastMatch(keys, kid, i) && LastMatch(keys, kid).value == ToRsaKey(keys[i])
  {
    if keys != [] {
      var m := |keys| - 1;
      if keys[m].kid == kid {
        assert IsLastMatch(keys, kid, m);
      } else {
        var init := keys[..m];
        LastMatchIsLast(init, kid);
        if LastMatch(init, kid).Some? {
          var i :| IsLastMatch(init, kid, i) && LastMatch(init, kid).value == ToRsaKey(init[i]);
          assert IsLastMatch(keys, kid, i);
        } else {
          assert forall i :: 0 <= i < m ==> init[i].kid == keys[i].kid;
        }
      }
    }
  }

  /** The unverified header of a token: unreadable, or a header with or without a `kid`. */
  datatype TokenHeader = Unreadable | Readable(kid: Option<string>)

  /**
   * Specification of the loop of `requires_auth`: an empty key set selects
   * nothing; otherwise a header without `kid` raises in the first pass, and a
   * header with one selects the key of the last matching entry, if any.
   */
  function KeyLookup(keys: seq<Jwk>, headerKid: Option<string>): Result<Option<RsaKey>, AuthError> {
    if keys == [] then Success(None)
    else if headerKid.None? then Failure(KidKeyError)
    else Success(LastMatch(keys, headerKid.value))
  }

  /** The loop of `requires_auth` that builds `rsa_key` from the key set. */
  method SelectKey(keys: seq<Jwk>, headerKid: Option<string>) returns (r: Result<Option<RsaKey>, AuthError>)
    ensures r == KeyLookup(keys, headerKid)
    ensures r.Failure? <==> keys != [] && headerKid.None?
    ensures r.Failure? ==> r.error == KidKeyError
    ensures r == Success(None) <==>
      keys == [] || (headerKid.Some? && forall i :: 0 <= i < |keys| ==> keys[i].kid != headerKid.value)
    ensures r.Success? && r.value.Some? ==>
      headerKid.Some? && exists i :: IsLastMatch(keys, headerKid.value, i) && r.value.value == ToRsaKey(keys[i])
  {
    var rsaKey := None;
    for i := 0 to |keys|
      invariant headerKid.None? ==> i == 0 && rsaKey == None
      invariant headerKid.Some? ==> rsaKey == LastMatch(keys[..i], headerKid.value)
    {
      if headerKid.None? {
        return Failure(KidKeyError);
      }
      assert keys[..i + 1][..i] == keys[..i];
      if keys[i].kid == headerKid.value {
        rsaKey := Some(ToRsaKey(keys[i]));
      }
    }
    assert keys[..|keys|] == keys;
    if headerKid.Some? {
      LastMatchIsLast(keys, headerKid.value);
    }
    r := Success(rsaKey);
  }

  /** What the decoder reports. */
  datatype DecodeOutcome =
    | Decoded(payload: Payload)
    | ExpiredSignature
    | ClaimsError
    | OtherDecodeError

  /** The `except` clauses around the decode call. */
  function VerifyToken(outcome: DecodeOutcome): (r: Result<Payload, AuthError>)
    ensures r.Success? <==> outcome.Decoded?
    ensures outcome.Decoded? ==> r.value == outcome.payload
    ensures outcome.ExpiredSignature? ==> r.error == AuthenticationFailed(TokenExpired)
    ensures outcome.ClaimsError? ==> r.error == AuthenticationFailed(InvalidClaims)
    ensures outcome.OtherDecodeError? ==> r.error == AuthenticationFailed(InvalidToken)
  {
    match outcome
    case Decoded(p) => Success(p)
    case ExpiredSignature => Failure(AuthenticationFailed(TokenExpired))
    case ClaimsError => Failure(AuthenticationFailed(InvalidClaims))
    case OtherDecodeError => Failure(AuthenticationFailed(InvalidToken))
  }

  /** Specification of the decorator: the payload the wrapped view is given, or why it is not called. */
  function Authenticate(auth: Option<string>, jwks: seq<Jwk>, readHeader: string -> TokenHeader,
                        decode: (string, RsaKey) -> DecodeOutcome): Result<Payload, AuthError>
  {
    match GetTokenAuthHeader(auth)
    case Failure(e) => Failure(e)
    case Success(token) =>
      match readHeader(token)
      case Unreadable => Failure(TokenHeaderUnreadable)
      case Readable(headerKid) =>
        match KeyLookup(jwks, headerKid)
        case Failure(e) => Failure(e)
        case Success(None) => Failure(AuthenticationFailed(NoMatchingKey))
        case Success(Some(key)) => VerifyToken(decode(token, key))
  }

  /**
   * With a readable token header, an empty key set or a `kid` no entry
   * carries makes the request fail with 'No matching key found', and the
   * decoder is not consulted.
   */
  lemma NoMatchingKeyFails(auth: Option<string>, jwks: seq<Jwk>, readHeader: string -> TokenHeader,
                           decode: (string, RsaKey) -> DecodeOutcome)
    requires GetTokenAuthHeader(auth).Success?
    requires readHeader(GetTokenAuthHeader(auth).value).Readable?
    requires var headerKid := readHeader(GetTokenAuthHeader(auth).value).kid;
      jwks == [] || (headerKid.Some? && forall i :: 0 <= i < |jwks| ==> jwks[i].kid != headerKid.value)
    ensures Authenticate(auth, jwks, readHeader, decode) == Failure(AuthenticationFailed(NoMatchingKey))
  {
    var headerKid := readHeader(GetTokenAuthHeader(auth).value).kid;
    if jwks != [] {
      LastMatchIsLast(jwks, headerKid.value);
    }
  }

  /**
   * A token whose header has no `kid` fails with the KeyError of the loop
   * when the key set has an entry, and with 'No matching key found' when it
   * has none.
   */
  lemma KidlessTokenFails(auth: Option<string>, jwks: seq<Jwk>, readHeader: string -> TokenHeader,
                          decode: (string, RsaKey) -> DecodeOutcome)
    requires GetTokenAuthHeader(auth).Success?
    requires readHeader(GetTokenAuthHeader(auth).value) == Readable(None)
    ensures jwks != [] ==> Authenticate(auth, jwks, readHeader, decode) == Failure(KidKeyError)
    ensures jwks == [] ==> Authenticate(auth, jwks, readHeader, decode) == Failure(AuthenticationFailed(NoMatchingKey))
  {
  }

  /** "Bearer tok" with a kid-less token: no key set entry gives 'No matching key found', one entry gives the KeyError. */
  lemma KidlessTokenExamples(decode: (string, RsaKey) -> DecodeOutcome, key: Jwk)
    ensures Authenticate(Some("Bearer tok"), [], _ => Readable(None), decode) == Failure(AuthenticationFailed(NoMatchingKey))
    ensures Authenticate(Some("Bearer tok"), [key], _ => Readable(None), decode) == Failure(KidKeyError)
  {
    assert IsBearer("Bearer") by { assert AsciiLower("Bearer") == "bearer"; }
    assert IsWord("tok");
    BearerAnyCase("Bearer", "tok");
    assert "Bearer tok" == "Bearer" + " " + "tok";
  }

  /**
   * A request passes only when the decoder, given the header's token and the
   * key of the last matching entry of the key set, returned that payload.
   */
  lemma PassesOnlyAfterDecode(auth: Option<string>, jwks: seq<Jwk>, readHeader: string -> TokenHeader,
                              decode: (string, RsaKey) -> DecodeOutcome)
    requires Authenticate(auth, jwks, readHeader, decode).Success?
    ensures GetTokenAuthHeader(auth).Success?
    ensures var h := readHeader(GetTokenAuthHeader(auth).value); h.Readable? && h.kid.Some?
    ensures var token := GetTokenAuthHeader(auth).value;
      var kid := readHeader(token).kid.value;
      exists i :: IsLastMatch(jwks, kid, i)
        && decode(token, ToRsaKey(jwks[i])) == Decoded(Authenticate(auth, jwks, readHeader, decode).value)
  {
    LastMatchIsLast(jwks, readHeader(GetTokenAuthHeader(auth).value).kid.value);
  }

  /** An incoming request: its Authorization header and the payload the decorator attaches. */
  class Request {
    var authorization: Option<string>
    var authPayload: Option<Payload>

    constructor (authorization: Option<string>)
      ensures this.authorization == authorization && authPayload == None
    {
      this.authorization := authorization;
      authPayload := None;
    }
  }

  /**
   * `requires_auth(view)` applied to `request`: on success the payload is
   * stored on the request and the view's response is returned; otherwise
   * the view is not called and the request is left as it was.
   */
  method RequiresAuth<R>(request: Request, jwks: seq<Jwk>, readHeader: string -> TokenHeader,
                         decode: (string, RsaKey) -> DecodeOutcome, view: Payload -> R)
    returns (r: Result<R, AuthError>)
    modifies request`authPayload
    ensures var a := Authenticate(request.authorization, jwks, readHeader, decode);
      && (r.Success? <==> a.Success?)
      && (a.Success? ==> request.authPayload == Some(a.value) && r.value == view(a.value))
      && (a.Failure? ==> r.error == a.error && request.authPayload == old(request.authPayload))
  {
    var header := GetTokenAuthHeader(request.authorization);
    if header.Failure? {
      return Failure(header.error);
    }
    var token := header.value;
    var unverifiedHeader := readHeader(token);
    if unverifiedHeader.Unreadable? {
      return Failure(TokenHeaderUnreadable);
    }
    var selected := SelectKey(jwks, unverifiedHeader.kid);
    if selected.Failure? {
      return Failure(selected.error);
    }
    if selected.value.None? {
      return Failure(AuthenticationFailed(NoMatchingKey));
    }
    var verified := VerifyToken(decode(token, selected.value.value));
    if verified.Failure? {
      return Failure(verified.error);
    }
    request.authPayload := Some(verified.value);
    r := Success(view(verified.value));
  }
}
