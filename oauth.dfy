/**
 * Token acquisition with the authorization code flow and PKCE
 * (internal/auth/auth.go). The authorization server, the browser and the
 * clock are inputs: the callback requests that reach the local server before
 * the five-minute timer fires (running out of them is the timeout), the token
 * endpoint as a function from the posted form to its reply, and the JSON
 * decoding of that reply. Randomness and SHA-256 are inputs too.
 */
module OAuth {
  import opened Wrappers
  import opened Octets
  import opened TokenCache
  import B64 = Base64Url

  /** `url.Values`: each key with its list of values. */
  type Values = map<string, seq<string>>

  /** `Values.Set`: the key now holds exactly this one value. */
  function Set(q: Values, key: string, value: string): (r: Values)
    ensures key in r && r[key] == [value]
    ensures r.Keys == q.Keys + {key}
    ensures forall k :: k in q && k != key ==> r[k] == q[k]
  {
    q[key := [value]]
  }

  /** The permissions the gateway asks for. */
  const Scope: string := "User.Read Mail.Send Mail.ReadWrite offline_access"

  /** The keys `buildAuthorizationURL` sets. */
  const AuthorizationKeys: set<string> := {"client_id", "response_type", "redirect_uri", "scope",
                                           "code_challenge", "code_challenge_method", "response_mode", "prompt"}

  /** The query of the authorization URL: the base URL's own query with the eight parameters set over it. */
  function AuthorizationQuery(base: Values, clientId: string, redirectUri: string, challenge: string): Values {
    var q := Set(base, "client_id", clientId);
    var q := Set(q, "response_type", "code");
    var q := Set(q, "redirect_uri", redirectUri);
    var q := Set(q, "scope", Scope);
    var q := Set(q, "code_challenge", challenge);
    var q := Set(q, "code_challenge_method", "S256");
    var q := Set(q, "response_mode", "query");
    Set(q, "prompt", "select_account")
  }

  /** Each authorization parameter holds exactly one value, and the challenge method is S256. */
  lemma AuthorizationParameters(base: Values, clientId: string, redirectUri: string, challenge: string)
    ensures var q := AuthorizationQuery(base, clientId, redirectUri, challenge);
            q["client_id"] == [clientId] && q["response_type"] == ["code"]
            && q["redirect_uri"] == [redirectUri] && q["scope"] == [Scope]
            && q["code_challenge"] == [challenge] && q["code_challenge_method"] == ["S256"]
            && q["response_mode"] == ["query"] && q["prompt"] == ["select_account"]
  {
  }

  /** The authorization query has the base query's keys and the eight parameters, and keeps every other base parameter as it was. */
  lemma AuthorizationKeepsBase(base: Values, clientId: string, redirectUri: string, challenge: string)
    ensures var q := AuthorizationQuery(base, clientId, redirectUri, challenge);
            q.Keys == base.Keys + AuthorizationKeys
            && forall k :: k in base && k !in AuthorizationKeys ==> q[k] == base[k]
  {
  }

  /** The form `exchangeCodeForToken` posts. */
  function ExchangeForm(clientId: string, code: string, redirectUri: string, verifier: string): Values {
    var f := Set(map[], "client_id", clientId);
    var f := Set(f, "grant_type", "authorization_code");
    var f := Set(f, "code", code);
    var f := Set(f, "redirect_uri", redirectUri);
    Set(f, "code_verifier", verifier)
  }

  /** The form carries the code and the verifier unchanged, once each, and nothing else beyond the client, grant type and redirect URI. */
  lemma ExchangeFormFields(clientId: string, code: string, redirectUri: string, verifier: string)
    ensures var f := ExchangeForm(clientId, code, redirectUri, verifier);
            f.Keys == {"client_id", "grant_type", "code", "redirect_uri", "code_verifier"}
            && f["code"] == [code] && f["code_verifier"] == [verifier]
            && f["client_id"] == [clientId] && f["grant_type"] == ["authorization_code"]
            && f["redirect_uri"] == [redirectUri]
  {
  }

  /** The unreserved characters of a PKCE verifier (section 4.1 of RFC 7636). */
  predicate IsUnreserved(c: char) {
    'A' <= c <= 'Z' || 'a' <= c <= 'z' || '0' <= c <= '9' || c == '-' || c == '.' || c == '_' || c == '~'
  }

  /** The code verifier: the random bytes in unpadded base64url. */
  function Verifier(random: seq<Byte>): string {
    B64.Encode(random)
  }

  /** Every verifier character is ASCII (so `[]byte(verifier)` is its characters) and unreserved. */
  lemma VerifierIsAscii(random: seq<Byte>)
    ensures forall i :: 0 <= i < |Verifier(random)| ==> Verifier(random)[i] as int < 128 && IsUnreserved(Verifier(random)[i])
  {
    B64.EncodeAlphabet(random);
  }

  /** The S256 code challenge (section 4.2 of RFC 7636): unpadded base64url of the SHA-256 of the verifier's bytes. */
  function Challenge(verifier: string, sha256: seq<Byte> -> seq<Byte>): string
    requires forall i :: 0 <= i < |verifier| ==> verifier[i] as int < 128
  {
    B64.Encode(sha256(AsciiBytes(verifier)))
  }

  /** From 32 random bytes the verifier has 43 unreserved characters, within the 43 to 128 that section 4.1 of RFC 7636 allows. */
  lemma VerifierShape(random: seq<Byte>)
    requires |random| == 32
    ensures |Verifier(random)| == 43
    ensures forall i :: 0 <= i < |Verifier(random)| ==> IsUnreserved(Verifier(random)[i])
  {
    B64.EncodeLength(random);
    VerifierIsAscii(random);
  }

  /** A 32-byte digest gives a 43-character challenge, and the challenge decodes back to that digest. */
  lemma ChallengeShape(verifier: string, sha256: seq<Byte> -> seq<Byte>)
    requires forall i :: 0 <= i < |verifier| ==> verifier[i] as int < 128
    requires |sha256(AsciiBytes(verifier))| == 32
    ensures |Challenge(verifier, sha256)| == 43
    ensures B64.Decode(Challenge(verifier, sha256)) == Some(sha256(AsciiBytes(verifier)))
  {
    B64.EncodeLength(sha256(AsciiBytes(verifier)));
    B64.RoundTrip(sha256(AsciiBytes(verifier)));
  }

  /** What the `code`, `error` and `error_description` query parameters of a callback request hold ("" when absent). */
  datatype CallbackRequest = CallbackRequest(code: string, error: string, errorDescription: string)

  /** The callback handler's answer: 400 with the error, or 200 with the code handed to the waiting acquisition. */
  datatype CallbackReply = Rejected(error: string, description: string) | Delivered(code: string)
  {
    function Status(): int {
      if Rejected? then 400 else 200
    }
  }

  /** `callbackHandler`. */
  function HandleCallback(request: CallbackRequest): (reply: CallbackReply)
    ensures reply.Delivered? <==> request.code != ""
    ensures reply.Delivered? ==> reply.code == request.code && reply.Status() == 200
    ensures reply.Rejected? ==> reply.Status() == 400
                                && reply == Rejected(request.error, request.errorDescription)
  {
    if request.code == "" then Rejected(request.error, request.errorDescription)
    else Delivered(request.code)
  }

  /** The code the acquisition receives: that of the first callback that delivers one, or none (the timeout). */
  function FirstCode(requests: seq<CallbackRequest>): Option<string>
    decreases |requests|
  {
    if |requests| == 0 then None
    else match HandleCallback(requests[0])
      case Delivered(code) => Some(code)
      case Rejected(_, _) => FirstCode(requests[1..])
  }

  /** Error callbacks do not end the wait: the first request with a code is the one that counts. */
  lemma {:induction false} FirstCodeIsFirstDelivered(requests: seq<CallbackRequest>, i: nat)
    requires i < |requests| && requests[i].code != ""
    requires forall j :: 0 <= j < i ==> requests[j].code == ""
    ensures FirstCode(requests) == Some(requests[i].code)
    decreases i
  {
    if i > 0 {
      FirstCodeIsFirstDelivered(requests[1..], i - 1);
    }
  }

  /** Without a request carrying a code, the wait ends in the timeout. */
  lemma {:induction false} NoCodeTimesOut(requests: seq<CallbackRequest>)
    requires forall j :: 0 <= j < |requests| ==> requests[j].code == ""
    ensures FirstCode(requests) == None
    decreases |requests|
  {
    if |requests| > 0 {
      NoCodeTimesOut(requests[1..]);
    }
  }

  /** The wait of `acquireNewToken`: serve callbacks until one delivers a code; running out of them is the timeout. */
  method AwaitCode(requests: seq<CallbackRequest>) returns (code: Option<string>)
    ensures code == FirstCode(requests)
  {
    var i := 0;
    while i < |requests|
      invariant i <= |requests|
      invariant FirstCode(requests) == FirstCode(requests[i..])
    {
      var reply := HandleCallback(requests[i]);
      if reply.Delivered? {
        return Some(reply.code);
      }
      assert requests[i..][1..] == requests[i + 1..];
      i := i + 1;
    }
    return None;
  }

  /** What `http.PostForm` gives: a transport failure, or a status and the body read from the reply. */
  datatype PostResult = PostFailed | Posted(status: int, body: seq<Byte>)

  datatype AuthError =
    | AuthUrlInvalid
    | AuthTimeout
    | TokenPostFailed
    | TokenRequestRejected(status: int, body: seq<Byte>)
    | TokenJsonInvalid

  /** `exchangeCodeForToken`'s classification of the token endpoint's reply. */
  function ExchangeOutcome(reply: PostResult, parseToken: seq<Byte> -> Option<TokenResponse>): Result<TokenResponse, AuthError> {
    match reply
    case PostFailed => Failure(TokenPostFailed)
    case Posted(status, body) =>
      if status != 200 then Failure(TokenRequestRejected(status, body))
      else match parseToken(body)
        case None => Failure(TokenJsonInvalid)
        case Some(token) => Success(token)
  }

  /** Only a 200 reply whose body parses yields a token, which is the parsed record itself, not stamped; any other status is an error carrying that status and body. */
  lemma ExchangeClassification(reply: PostResult, parseToken: seq<Byte> -> Option<TokenResponse>)
    ensures ExchangeOutcome(reply, parseToken).Success? <==> reply.Posted? && reply.status == 200 && parseToken(reply.body).Some?
    ensures ExchangeOutcome(reply, parseToken).Success? ==> ExchangeOutcome(reply, parseToken).value == parseToken(reply.body).value
    ensures reply.Posted? && reply.status != 200 ==> ExchangeOutcome(reply, parseToken) == Failure(TokenRequestRejected(reply.status, reply.body))
    ensures reply.Posted? && reply.status == 200 && parseToken(reply.body).None? ==> ExchangeOutcome(reply, parseToken) == Failure(TokenJsonInvalid)
  {
  }

  /** The outcome of one acquisition, given the parsed authorization URL (none when it does not parse) and the verifier in use. */
  function Acquisition(base: Option<Values>, clientId: string, redirectUri: string, verifier: string,
                       requests: seq<CallbackRequest>, tokenEndpoint: Values -> PostResult,
                       parseToken: seq<Byte> -> Option<TokenResponse>): Result<TokenResponse, AuthError> {
    if base.None? then Failure(AuthUrlInvalid)
    else match FirstCode(requests)
      case None => Failure(AuthTimeout)
      case Some(code) => ExchangeOutcome(tokenEndpoint(ExchangeForm(clientId, code, redirectUri, verifier)), parseToken)
  }

  /** A token is only ever obtained by posting a delivered code together with the verifier. */
  lemma TokenNeedsDeliveredCode(base: Option<Values>, clientId: string, redirectUri: string, verifier: string,
                                requests: seq<CallbackRequest>, tokenEndpoint: Values -> PostResult,
                                parseToken: seq<Byte> -> Option<TokenResponse>)
    requires Acquisition(base, clientId, redirectUri, verifier, requests, tokenEndpoint, parseToken).Success?
    ensures base.Some? && FirstCode(requests).Some? && FirstCode(requests).value != ""
    ensures var form := ExchangeForm(clientId, FirstCode(requests).value, redirectUri, verifier);
            tokenEndpoint(form).Posted? && tokenEndpoint(form).status == 200
            && form["code_verifier"] == [verifier]
  {
    FirstCodeNonEmpty(requests);
    ExchangeFormFields(clientId, FirstCode(requests).value, redirectUri, verifier);
  }

  /** A delivered code is never empty. */
  lemma {:induction false} FirstCodeNonEmpty(requests: seq<CallbackRequest>)
    ensures FirstCode(requests).Some? ==> FirstCode(requests).value != ""
    decreases |requests|
  {
    if |requests| > 0 && requests[0].code == "" {
      FirstCodeNonEmpty(requests[1..]);
    }
  }

  /** The local callback server: never started, serving, or shut down. */
  datatype ServerState = NoServer | Serving | ShutDown

  /** The three readings of the clock `GetAccessToken` takes: in `LoadToken`, in its own expiry check, in `SaveToken`. */
  datatype Clock = Clock(loadAt: int, checkAt: int, saveAt: int)

  /** `Authenticator`. */
  class Authenticator {
    const clientId: string
    const redirectUri: string
    /** The query of `authorityURL + "/oauth2/v2.0/authorize"` as `url.Parse` reads it; none when it does not parse. */
    const authorizeBase: Option<Values>
    const cache: TokenCacheManager
    var codeVerifier: string
    var codeChallenge: string
    var server: ServerState
    /** The authorization URLs shown to the user, as their queries. */
    ghost var shown: seq<Values>

    constructor(clientId: string, redirectUri: string, authorizeBase: Option<Values>, cache: TokenCacheManager)
      ensures this.clientId == clientId && this.redirectUri == redirectUri
      ensures this.authorizeBase == authorizeBase && this.cache == cache
      ensures codeVerifier == "" && codeChallenge == "" && server == NoServer && shown == []
    {
      this.clientId := clientId;
      this.redirectUri := redirectUri;
      this.authorizeBase := authorizeBase;
      this.cache := cache;
      codeVerifier := "";
      codeChallenge := "";
      server := NoServer;
      shown := [];
    }

    /** `generatePKCE`: a fresh verifier from the random bytes, and its S256 challenge. */
    method GeneratePkce(random: seq<Byte>, sha256: seq<Byte> -> seq<Byte>)
      requires |random| == 32
      requires forall data :: |sha256(data)| == 32
      modifies this
      ensures codeVerifier == Verifier(random) && |codeVerifier| == 43
      ensures forall i :: 0 <= i < |codeVerifier| ==> codeVerifier[i] as int < 128
      ensures codeChallenge == Challenge(codeVerifier, sha256) && |codeChallenge| == 43
      ensures server == old(server) && shown == old(shown)
    {
      codeVerifier := Verifier(random);
      VerifierIsAscii(random);
      VerifierShape(random);
      ChallengeShape(codeVerifier, sha256);
      codeChallenge := B64.Encode(sha256(AsciiBytes(codeVerifier)));
    }

    /** `buildAuthorizationURL`: the authorization query over the parsed base URL, or none when the base does not parse. */
    function AuthorizationUrl(): Option<Values>
      reads this
    {
      if authorizeBase.None? then None
      else Some(AuthorizationQuery(authorizeBase.value, clientId, redirectUri, codeChallenge))
    }

    /** `startCallbackServer`: cannot fail; the server is serving. */
    method StartCallbackServer()
      modifies this
      ensures server == Serving
      ensures codeVerifier == old(codeVerifier) && codeChallenge == old(codeChallenge) && shown == old(shown)
    {
      server := Serving;
    }

    /** `stopCallbackServer`: shuts down the server if one was ever started. */
    method StopCallbackServer()
      modifies this
      ensures server == if old(server) == NoServer then NoServer else ShutDown
      ensures codeVerifier == old(codeVerifier) && codeChallenge == old(codeChallenge) && shown == old(shown)
    {
      if server != NoServer {
        server := ShutDown;
      }
    }

    /** `exchangeCodeForToken`: posts the code with the current verifier and classifies the reply. */
    method ExchangeCodeForToken(code: string, tokenEndpoint: Values -> PostResult,
                                parseToken: seq<Byte> -> Option<TokenResponse>)
      returns (r: Result<TokenResponse, AuthError>)
      ensures r == ExchangeOutcome(tokenEndpoint(ExchangeForm(clientId, code, redirectUri, codeVerifier)), parseToken)
    {
      var reply := tokenEndpoint(ExchangeForm(clientId, code, redirectUri, codeVerifier));
      if reply.PostFailed? {
        return Failure(TokenPostFailed);
      }
      if reply.status != 200 {
        return Failure(TokenRequestRejected(reply.status, reply.body));
      }
      var parsed := parseToken(reply.body);
      if parsed.None? {
        return Failure(TokenJsonInvalid);
      }
      return Success(parsed.value);
    }

    /**
     * `acquireNewToken`: new PKCE values, the authorization URL shown, then the
     * callback server runs while waiting for a code and is shut down on every
     * way out, whether a code arrives, the exchange fails or the wait times out.
     * It is never started when the URL does not parse.
     */
    method AcquireNewToken(random: seq<Byte>, sha256: seq<Byte> -> seq<Byte>, requests: seq<CallbackRequest>,
                           tokenEndpoint: Values -> PostResult, parseToken: seq<Byte> -> Option<TokenResponse>)
      returns (r: Result<TokenResponse, AuthError>)
      requires |random| == 32
      requires forall data :: |sha256(data)| == 32
      modifies this
      ensures codeVerifier == Verifier(random) && |codeVerifier| == 43
      ensures forall i :: 0 <= i < |codeVerifier| ==> codeVerifier[i] as int < 128
      ensures codeChallenge == Challenge(codeVerifier, sha256) && |codeChallenge| == 43
      ensures r == Acquisition(authorizeBase, clientId, redirectUri, codeVerifier, requests, tokenEndpoint, parseToken)
      ensures authorizeBase.None? ==> server == old(server) && shown == old(shown)
      ensures authorizeBase.Some? ==> server == ShutDown
                                      && shown == old(shown) + [AuthorizationQuery(authorizeBase.value, clientId, redirectUri, codeChallenge)]
    {
      GeneratePkce(random, sha256);
      var url := AuthorizationUrl();
      if url.None? {
        return Failure(AuthUrlInvalid);
      }
      shown := shown + [url.value];
      StartCallbackServer();
      var code := AwaitCode(requests);
      if code.None? {
        StopCallbackServer();
        return Failure(AuthTimeout);
      }
      r := ExchangeCodeForToken(code.value, tokenEndpoint, parseToken);
      StopCallbackServer();
    }

    /**
     * `GetAccessToken`: a cached token that loads and is still valid at the
     * second check is used without acquiring; otherwise a new token is
     * acquired, saved (a failed save is ignored) and its access token returned.
     * A failed acquisition returns an empty token and saves nothing.
     */
    method GetAccessToken(clock: Clock, random: seq<Byte>, sha256: seq<Byte> -> seq<Byte>, requests: seq<CallbackRequest>,
                          tokenEndpoint: Values -> PostResult, parseToken: seq<Byte> -> Option<TokenResponse>,
                          saveFails: bool, leftBehind: CacheFile)
      returns (accessToken: string, err: Option<AuthError>)
      requires |random| == 32
      requires forall data :: |sha256(data)| == 32
      modifies this, cache
      ensures var loaded := Loaded(old(cache.file), clock.loadAt);
              loaded.Success? && !loaded.value.IsExpired(clock.checkAt) ==>
                accessToken == loaded.value.accessToken && err == None
                && cache.file == old(cache.file)
                && codeVerifier == old(codeVerifier) && codeChallenge == old(codeChallenge)
                && server == old(server) && shown == old(shown)
      ensures var loaded := Loaded(old(cache.file), clock.loadAt);
              var acquired := Acquisition(authorizeBase, clientId, redirectUri, Verifier(random), requests, tokenEndpoint, parseToken);
              !(loaded.Success? && !loaded.value.IsExpired(clock.checkAt)) ==>
                codeVerifier == Verifier(random) && |codeVerifier| == 43
                && (forall i :: 0 <= i < |codeVerifier| ==> codeVerifier[i] as int < 128)
                && codeChallenge == Challenge(codeVerifier, sha256) && |codeChallenge| == 43
                && (authorizeBase.None? ==> server == old(server) && shown == old(shown))
                && (authorizeBase.Some? ==>
                      server == ShutDown
                      && shown == old(shown) + [AuthorizationQuery(authorizeBase.value, clientId, redirectUri, codeChallenge)])
                && (acquired.Failure? ==> accessToken == "" && err == Some(acquired.error) && cache.file == old(cache.file))
                && (acquired.Success? ==> accessToken == acquired.value.accessToken && err == None
                                          && cache.file == if saveFails then leftBehind else Holds(Stamped(acquired.value, clock.saveAt)))
    {
      var loaded := cache.LoadToken(clock.loadAt);
      if loaded.Success? && !loaded.value.IsExpired(clock.checkAt) {
        return loaded.value.accessToken, None;
      }
      var acquired := AcquireNewToken(random, sha256, requests, tokenEndpoint, parseToken);
      if acquired.Failure? {
        return "", Some(acquired.error);
      }
      var stamped, saved := cache.SaveToken(acquired.value, clock.saveAt, saveFails, leftBehind);
      return acquired.value.accessToken, None;
    }
  }
}
