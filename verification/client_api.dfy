/** The client side of the API: building the upload request (header or
    preamble framing), turning responses into results or API errors, and
    the default headers of the HTTP client. */
module ClientApi {
  import opened Wrappers
  import opened Primitives
  import Utf8
  import opened Json
  import opened UploadPath
  import ServerErrors

  /** Metadata of this many bytes or more travels in the body. */
  const NAR_INFO_PREAMBLE_THRESHOLD: nat := 4 * 1024

  /** Header names as the header map holds them: `http`'s `HeaderName` is
      lower case, and a name given as text is lowered on insertion. */
  const USER_AGENT: string := "user-agent"
  const AUTHORIZATION: string := "authorization"
  const NAR_INFO_HEADER: string := "x-bunker-nar-info"
  const NAR_INFO_PREAMBLE_SIZE_HEADER: string := "x-bunker-nar-info-preamble-size"

  function LowerAscii(c: char): char {
    if 'A' <= c <= 'Z' then (c as int + 32) as char else c
  }

  /** The header name a text name becomes. */
  function HeaderName(s: string): (r: string)
    ensures |r| == |s|
    ensures forall i | 0 <= i < |s| :: r[i] == LowerAscii(s[i])
  {
    seq(|s|, i requires 0 <= i < |s| => LowerAscii(s[i]))
  }

  /** The two upload headers, named in mixed case where they are declared,
      are stored under these lower-case names. */
  lemma UploadHeaderNames()
    ensures HeaderName(BUNKER_NAR_INFO) == NAR_INFO_HEADER
    ensures HeaderName(BUNKER_NAR_INFO_PREAMBLE_SIZE) == NAR_INFO_PREAMBLE_SIZE_HEADER
  {
    LowersTo(BUNKER_NAR_INFO, NAR_INFO_HEADER);
    LowersTo(BUNKER_NAR_INFO_PREAMBLE_SIZE, NAR_INFO_PREAMBLE_SIZE_HEADER);
  }

  lemma LowersTo(s: string, t: string)
    requires |s| == |t| && forall i | 0 <= i < |s| :: LowerAscii(s[i]) == t[i]
    ensures HeaderName(s) == t
  {
  }

  // ---------------------------------------------------------------------
  // User agent

  /** `BUNKER_USER_AGENT` as written: `concatcp!` concatenates its
      arguments and does not substitute the `{}` placeholders. */
  function UserAgentAsWritten(pkgName: string, distributor: string): string {
    "Bunker/{} ({})" + pkgName + distributor
  }

  /** The user agent the format string describes: `Bunker/<package>
      (<distributor>)`. */
  function UserAgent(pkgName: string, distributor: string): string {
    "Bunker/" + pkgName + " (" + distributor + ")"
  }

  /** First position of a space in `s`, if any. */
  function IndexOfSpace(s: string): (r: Option<nat>)
    ensures r.Some? ==> r.value < |s| && s[r.value] == ' '
                        && forall j | 0 <= j < r.value :: s[j] != ' '
    ensures r.None? ==> forall j | 0 <= j < |s| :: s[j] != ' '
  {
    if |s| == 0 then None
    else if s[0] == ' ' then Some(0)
    else
      match IndexOfSpace(s[1..])
      case Some(i) => Some(i + 1)
      case None => None
  }

  /** Reads `Bunker/<package> (<distributor>)` back into its two parts. */
  function ParseUserAgent(ua: string): Option<(string, string)> {
    var prefix := "Bunker/";
    if |ua| < |prefix| + 3 || ua[..|prefix|] != prefix || ua[|ua| - 1] != ')' then None
    else
      var rest := ua[|prefix|..|ua| - 1];
      match IndexOfSpace(rest)
      case None => None
      case Some(i) =>
        if i + 1 < |rest| && rest[i + 1] == '(' then Some((rest[..i], rest[i + 2..])) else None
  }

  /** The intended user agent names the package and the distributor, and
      both can be read back from it when the package name has no space. */
  lemma UserAgentNamesBoth(pkgName: string, distributor: string)
    requires forall j | 0 <= j < |pkgName| :: pkgName[j] != ' '
    ensures ParseUserAgent(UserAgent(pkgName, distributor)) == Some((pkgName, distributor))
  {
    var ua := UserAgent(pkgName, distributor);
    var rest := ua[7..|ua| - 1];
    assert rest == pkgName + " (" + distributor;
    var i := IndexOfSpace(rest);
    assert rest[|pkgName|] == ' ';
    assert forall j | 0 <= j < |pkgName| :: rest[j] == pkgName[j];
    assert i.Some?;
    assert i.value == |pkgName|;
    assert rest[..|pkgName|] == pkgName;
    assert rest[|pkgName| + 2..] == distributor;
  }

  /** As written, the placeholders are sent literally and the package name
      cannot be read back. */
  lemma UserAgentAsWrittenKeepsPlaceholders()
    ensures UserAgentAsWritten("bunker-client", "unknown") == "Bunker/{} ({})bunker-clientunknown"
    ensures ParseUserAgent(UserAgentAsWritten("bunker-client", "unknown")) != Some(("bunker-client", "unknown"))
  {
    var ua := UserAgentAsWritten("bunker-client", "unknown");
    assert ua[|ua| - 1] == 'n';
  }

  // ---------------------------------------------------------------------
  // Decimal header values

  predicate IsDigit(b: byte) {
    0x30 <= b <= 0x39
  }

  /** The decimal rendering of an integer header value. */
  function DecimalDigits(n: nat): (r: seq<byte>)
    ensures |r| >= 1 && forall i | 0 <= i < |r| :: IsDigit(r[i])
  {
    if n < 10 then [(0x30 + n) as byte] else DecimalDigits(n / 10) + [(0x30 + n % 10) as byte]
  }

  function DigitsValue(b: seq<byte>): nat
    requires forall i | 0 <= i < |b| :: IsDigit(b[i])
  {
    if |b| == 0 then 0
    else
      assert IsDigit(b[|b| - 1]);
      DigitsValue(b[..|b| - 1]) * 10 + (b[|b| - 1] as int - 0x30)
  }

  /** Reads a non-empty decimal header value. */
  function ParseDecimal(b: seq<byte>): Option<nat> {
    if |b| > 0 && forall i | 0 <= i < |b| :: IsDigit(b[i]) then Some(DigitsValue(b)) else None
  }

  lemma {:induction false} DecimalRoundTrip(n: nat)
    ensures ParseDecimal(DecimalDigits(n)) == Some(n)
  {
    if n >= 10 {
      DecimalRoundTrip(n / 10);
      var d := DecimalDigits(n);
      assert d[..|d| - 1] == DecimalDigits(n / 10);
      assert d[|d| - 1] as int - 0x30 == n % 10;
      assert DigitsValue(d) == (n / 10) * 10 + n % 10;
    }
  }

  // ---------------------------------------------------------------------
  // Upload framing

  datatype UploadRequest = UploadRequest(headers: map<string, seq<byte>>, body: seq<byte>)

  /** The framing decision of `upload_path`. */
  predicate UsesPreamble(forcePreamble: bool, jsonLen: nat) {
    forcePreamble || jsonLen >= NAR_INFO_PREAMBLE_THRESHOLD
  }

  /** The request `upload_path` sends, given the serialised metadata `json`
      and the NAR stream `payload` (its chunks concatenated). The user agent
      is `BUNKER_USER_AGENT` as written, built from the package name and the
      distributor. */
  function BuildUploadRequest(json: string, payload: seq<byte>, forcePreamble: bool,
                              pkgName: string, distributor: string)
    : (r: UploadRequest)
    ensures USER_AGENT in r.headers && r.headers[USER_AGENT] == Utf8.Encode(UserAgentAsWritten(pkgName, distributor))
    ensures NAR_INFO_PREAMBLE_SIZE_HEADER in r.headers <==> UsesPreamble(forcePreamble, |Utf8.Encode(json)|)
    ensures NAR_INFO_HEADER in r.headers <==> !UsesPreamble(forcePreamble, |Utf8.Encode(json)|)
    ensures NAR_INFO_HEADER in r.headers ==> |r.headers[NAR_INFO_HEADER]| < NAR_INFO_PREAMBLE_THRESHOLD
    ensures UsesPreamble(forcePreamble, |Utf8.Encode(json)|) ==>
              |r.body| == |Utf8.Encode(json)| + |payload|
    ensures !UsesPreamble(forcePreamble, |Utf8.Encode(json)|) ==> r.body == payload
  {
    var bytes := Utf8.Encode(json);
    var base := map[USER_AGENT := Utf8.Encode(UserAgentAsWritten(pkgName, distributor))];
    if UsesPreamble(forcePreamble, |bytes|) then
      UploadRequest(base[NAR_INFO_PREAMBLE_SIZE_HEADER := DecimalDigits(|bytes|)], bytes + payload)
    else
      UploadRequest(base[NAR_INFO_HEADER := bytes], payload)
  }

  /** How the receiving end separates metadata from payload: with a
      preamble-size header it reads exactly that many bytes of the body,
      otherwise the metadata is the header value and the body is payload. */
  function ReadFramedUpload(req: UploadRequest): Option<(seq<byte>, seq<byte>)> {
    if NAR_INFO_PREAMBLE_SIZE_HEADER in req.headers then
      match ParseDecimal(req.headers[NAR_INFO_PREAMBLE_SIZE_HEADER])
      case None => None
      case Some(n) => if n <= |req.body| then Some((req.body[..n], req.body[n..])) else None
    else if NAR_INFO_HEADER in req.headers then
      Some((req.headers[NAR_INFO_HEADER], req.body))
    else
      None
  }

  /** Whichever framing is chosen, the receiver recovers exactly the JSON
      bytes and the payload the client sent: the preamble is the JSON bytes
      followed by the payload with no delimiter, and its declared size is
      the JSON byte length. */
  lemma FramingRoundTrip(json: string, payload: seq<byte>, forcePreamble: bool,
                         pkgName: string, distributor: string)
    ensures ReadFramedUpload(BuildUploadRequest(json, payload, forcePreamble, pkgName, distributor))
            == Some((Utf8.Encode(json), payload))
  {
    var bytes := Utf8.Encode(json);
    var req := BuildUploadRequest(json, payload, forcePreamble, pkgName, distributor);
    if UsesPreamble(forcePreamble, |bytes|) {
      DecimalRoundTrip(|bytes|);
      assert req.body[..|bytes|] == bytes;
      assert req.body[|bytes|..] == payload;
    }
  }

  // ---------------------------------------------------------------------
  // Responses and API errors

  datatype StructuredApiError = StructuredApiError(code: u16, error: string, message: string)

  datatype ApiError = Structured(structured: StructuredApiError) | Unstructured(status: u16, text: string)

  function AsU16(v: Value): (r: Result<u16, DeError>)
    ensures r.Success? <==> v.Int? && 0 <= v.n <= U16_MAX
  {
    if v.Int? && 0 <= v.n <= U16_MAX then Success(v.n) else Failure(InvalidType("u16"))
  }

  /** `Deserialize for StructuredApiError`; unknown fields are ignored. */
  function DecodeStructured(v: Value): (r: Result<StructuredApiError, DeError>)
    ensures r.Success? ==> v.Object? && "error" in v.fields && v.fields["error"] == Str(r.value.error)
                           && "message" in v.fields && v.fields["message"] == Str(r.value.message)
                           && "code" in v.fields && v.fields["code"] == Int(r.value.code)
    ensures && v.Object?
            && "code" in v.fields && v.fields["code"].Int? && 0 <= v.fields["code"].n <= U16_MAX
            && "error" in v.fields && v.fields["error"].Str?
            && "message" in v.fields && v.fields["message"].Str?
            ==> r == Success(StructuredApiError(v.fields["code"].n, v.fields["error"].s,
                                                v.fields["message"].s))
  {
    match v
    case Object(m) =>
      var code :- Required(m, "code", AsU16);
      var error :- Required(m, "error", AsString);
      var message :- Required(m, "message", AsString);
      Success(StructuredApiError(code, error, message))
    case _ => Failure(InvalidType("struct StructuredApiError"))
  }

  /** `ApiError::try_from_response`: `parsed` is the body text parsed as
      JSON (`None` when it is not JSON). */
  function TryFromResponse(status: u16, text: string, parsed: Option<Value>): (r: ApiError)
    ensures r.Structured? <==> parsed.Some? && DecodeStructured(parsed.value).Success?
    ensures r.Structured? ==> r.structured == DecodeStructured(parsed.value).value
    ensures r.Unstructured? ==> r.status == status && r.text == text
  {
    if parsed.Some? && DecodeStructured(parsed.value).Success? then
      Structured(DecodeStructured(parsed.value).value)
    else
      Unstructured(status, text)
  }

  predicate IsSuccess(status: u16) {
    200 <= status <= 299
  }

  /** How `upload_path` reads the response: a success whose body does not
      decode is still a success, without a result. */
  function UploadOutcome(status: u16, text: string, parsed: Option<Value>)
    : (r: Result<Option<UploadPathResult>, ApiError>)
    ensures r.Success? <==> IsSuccess(status)
    ensures r.Success? && r.value.Some? ==> parsed.Some? && DecodeResult(parsed.value) == Success(r.value.value)
    ensures IsSuccess(status) && (parsed.None? || DecodeResult(parsed.value).Failure?) ==> r == Success(None)
    ensures r.Failure? ==> r.error == TryFromResponse(status, text, parsed)
  {
    if IsSuccess(status) then
      if parsed.Some? && DecodeResult(parsed.value).Success? then
        Success(Some(DecodeResult(parsed.value).value))
      else
        Success(None)
    else
      Failure(TryFromResponse(status, text, parsed))
  }

  /** Why a request whose body is read failed on the client: the server
      reported an error, or a successful body did not decode (`None` when it
      was not JSON at all). */
  datatype ClientError = Api(api: ApiError) | BodyNotDecoded(cause: Option<DeError>)

  /** How `get_cache_config` and `get_missing_paths` read the response,
      given the decoder of the expected body: unlike `upload_path`, a
      success whose body does not decode is an error. */
  function FetchOutcome<T>(status: u16, text: string, parsed: Option<Value>,
                           decode: Value -> Result<T, DeError>)
    : (r: Result<T, ClientError>)
    ensures r.Success? <==> IsSuccess(status) && parsed.Some? && decode(parsed.value).Success?
    ensures r.Success? ==> r.value == decode(parsed.value).value
    ensures IsSuccess(status) && r.Failure? ==> r.error.BodyNotDecoded?
    ensures !IsSuccess(status) ==> r == Failure(Api(TryFromResponse(status, text, parsed)))
  {
    if !IsSuccess(status) then Failure(Api(TryFromResponse(status, text, parsed)))
    else if parsed.None? then Failure(BodyNotDecoded(None))
    else match decode(parsed.value)
      case Success(x) => Success(x)
      case Failure(e) => Failure(BodyNotDecoded(Some(e)))
  }

  /** How `create_cache`, `configure_cache` and `destroy_cache` read the
      response: the body of a success is never read. */
  function CommandOutcome(status: u16, text: string, parsed: Option<Value>)
    : (r: Result<(), ApiError>)
    ensures r.Success? <==> IsSuccess(status)
    ensures r.Failure? ==> r.error == TryFromResponse(status, text, parsed)
  {
    if IsSuccess(status) then Success(()) else Failure(TryFromResponse(status, text, parsed))
  }

  /** `upload_path` is the lenient reader: it agrees with a strict fetch of
      an upload result wherever the fetch succeeds or the server reports an
      error, and turns every undecodable success into `Ok(None)`. */
  lemma UploadIsLenientFetch(status: u16, text: string, parsed: Option<Value>)
    ensures var fetched := FetchOutcome(status, text, parsed, DecodeResult);
      var uploaded := UploadOutcome(status, text, parsed);
      && (fetched.Success? <==> uploaded.Success? && uploaded.value.Some?)
      && (fetched.Success? ==> uploaded.value.value == fetched.value)
      && (fetched.Failure? && fetched.error.BodyNotDecoded? ==> uploaded == Success(None))
      && (fetched.Failure? && fetched.error.Api? ==> uploaded == Failure(fetched.error.api))
      && CommandOutcome(status, text, parsed).Success? == uploaded.Success?
  {
  }

  /** `Display for StructuredApiError`: the name, a colon and a space, then
      the message; the status code is not shown. */
  function DisplayStructured(e: StructuredApiError): (r: string)
    ensures |r| == |e.error| + 2 + |e.message|
    ensures r[..|e.error|] == e.error
    ensures r[|e.error|] == ':' && r[|e.error| + 1] == ' '
    ensures r[|e.error| + 2..] == e.message
  {
    e.error + ": " + e.message
  }

  /** As long as error names contain no colon (none of the server's does),
      the display text determines both the name and the message. */
  lemma DisplayDeterminesParts(a: StructuredApiError, b: StructuredApiError)
    requires forall j | 0 <= j < |a.error| :: a.error[j] != ':'
    requires forall j | 0 <= j < |b.error| :: b.error[j] != ':'
    requires DisplayStructured(a) == DisplayStructured(b)
    ensures a.error == b.error && a.message == b.message
  {
    var da := DisplayStructured(a);
    if |a.error| < |b.error| {
      assert false;
    } else if |b.error| < |a.error| {
      assert false;
    }
    assert a.error == da[..|a.error|];
    assert b.error == DisplayStructured(b)[..|b.error|];
    assert a.message == da[|a.error| + 2..];
    assert b.message == DisplayStructured(b)[|b.error| + 2..];
  }

  /** What a client displays for a server error identifies the whole
      response: the name and the message split at the first colon, and the
      status code follows from the name. */
  lemma DisplayIdentifiesServerResponse(a: ServerErrors.ServerError, b: ServerErrors.ServerError)
    ensures var ra, rb := ServerErrors.IntoResponse(a), ServerErrors.IntoResponse(b);
      DisplayStructured(StructuredApiError(ra.code, ra.error, ra.message))
        == DisplayStructured(StructuredApiError(rb.code, rb.error, rb.message))
      <==> ra == rb
  {
    var ra, rb := ServerErrors.IntoResponse(a), ServerErrors.IntoResponse(b);
    var sa := StructuredApiError(ra.code, ra.error, ra.message);
    var sb := StructuredApiError(rb.code, rb.error, rb.message);
    if DisplayStructured(sa) == DisplayStructured(sb) {
      ServerErrors.NameHasNoColon(ServerErrors.ClientKind(a));
      ServerErrors.NameHasNoColon(ServerErrors.ClientKind(b));
      DisplayDeterminesParts(sa, sb);
      ServerErrors.StatusFollowsName(a);
      ServerErrors.StatusFollowsName(b);
    }
  }

  /** End to end: the body of any server error response decodes on the
      client as a structured error carrying the sanitised name and message,
      and an upload that receives it fails with that error. */
  lemma ClientReadsServerError(e: ServerErrors.ServerError, text: string)
    ensures var resp := ServerErrors.IntoResponse(e);
      var body := Some(ServerErrors.EncodeErrorResponse(resp));
      && TryFromResponse(resp.code, text, body)
         == Structured(StructuredApiError(resp.code, resp.error, resp.message))
      && UploadOutcome(resp.code, text, body)
         == Failure(Structured(StructuredApiError(resp.code, resp.error, resp.message)))
  {
    ClientReadsErrorResponse(ServerErrors.IntoResponse(e), text);
  }

  lemma ClientReadsErrorResponse(resp: ServerErrors.ErrorResponse, text: string)
    requires !IsSuccess(resp.code)
    ensures var body := Some(ServerErrors.EncodeErrorResponse(resp));
      && TryFromResponse(resp.code, text, body)
         == Structured(StructuredApiError(resp.code, resp.error, resp.message))
      && UploadOutcome(resp.code, text, body)
         == Failure(Structured(StructuredApiError(resp.code, resp.error, resp.message)))
  {
    var v := ServerErrors.EncodeErrorResponse(resp);
    assert v.fields["code"] == Int(resp.code) && v.fields["error"] == Str(resp.error)
           && v.fields["message"] == Str(resp.message);
    assert DecodeStructured(v) == Success(StructuredApiError(resp.code, resp.error, resp.message));
  }

  // ---------------------------------------------------------------------
  // Default headers

  /** The default headers of `build_http_client`. Their values are kept as
      text, unlike those of `UploadRequest`: the bearer value is formatted
      from the token and read back as text, while the upload framing is a
      matter of byte lengths. */
  function DefaultHeaders(token: Option<string>): (h: map<string, string>)
    ensures AUTHORIZATION in h <==> token.Some?
    ensures h.Keys <= {AUTHORIZATION}
  {
    match token
    case Some(t) => map[AUTHORIZATION := "bearer " + t]
    case None => map[]
  }

  /** The token a server reads from an `Authorization: bearer …` header. */
  function BearerToken(h: map<string, string>): Option<string> {
    if AUTHORIZATION in h && |h[AUTHORIZATION]| >= 7 && h[AUTHORIZATION][..7] == "bearer " then
      Some(h[AUTHORIZATION][7..])
    else
      None
  }

  /** The token configured is exactly the token presented, and no token
      configured means no credentials are sent. */
  lemma BearerRoundTrip(token: Option<string>)
    ensures BearerToken(DefaultHeaders(token)) == token
  {
    if token.Some? {
      var v := "bearer " + token.value;
      assert v[..7] == "bearer ";
      assert v[7..] == token.value;
    }
  }
}
