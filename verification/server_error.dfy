/** The server's error taxonomy and the pipeline that turns an error into
    an HTTP response: demotion for callers without discovery permission,
    sanitisation of backend failures, then status code and stable name. */
module ServerErrors {
  import opened Primitives
  import BunkerErrors
  import Json

  /** `anyhow::Error`, reduced to its alternate (`{:#}`) rendering. */
  datatype AnyError = AnyError(description: string)

  /** The access-control error. Only `NoDiscoveryPermission` is singled out
      by the code modelled here; the other variants are not part of this
      model and are carried as their rendering. */
  datatype AccessError = NoDiscoveryPermission | OtherAccessError(description: string)

  /** The manifest codec's error (`nix_manifest::Error`). */
  datatype ManifestError =
    | Unexpected(what: string)
    | UnexpectedEof
    | ExpectedColon
    | ExpectedBoolean
    | ExpectedInteger
    | Unsupported(construct: string)
    | AnyUnsupported
    | NoneUnsupported
    | NestedMapUnsupported
    | FloatUnsupported
    | Custom(message: string)

  datatype ErrorKind =
    | NotFound
    | Unauthorized
    | InternalServerError
    | NoSuchCache
    | CacheAlreadyExists
    | NoSuchObject
    | InvalidCompressionType(name: string)
    | IncompleteNar
    | DatabaseError(database: AnyError)
    | StorageError(storage: AnyError)
    | ManifestSerializationError(manifest: ManifestError)
    | AccessError(access: AccessError)
    | RequestError(request: AnyError)
    | BunkerError(common: BunkerErrors.BunkerError)

  /** `ServerError`; the captured `SpanTrace` is not modelled. */
  datatype ServerError = ServerError(kind: ErrorKind, discoveryPermission: bool)

  /** The JSON body of an error response. */
  datatype ErrorResponse = ErrorResponse(code: u16, error: string, message: string)

  const NOT_FOUND: u16 := 404
  const UNAUTHORIZED: u16 := 401
  const FORBIDDEN: u16 := 403
  const BAD_REQUEST: u16 := 400
  const INTERNAL_SERVER_ERROR: u16 := 500
  const SERVICE_UNAVAILABLE: u16 := 503

  /** `From<ErrorKind> for ServerError`: a fresh error assumes the caller may
      discover what exists. */
  function FromKind(kind: ErrorKind): (e: ServerError)
    ensures e.kind == kind && e.discoveryPermission
  {
    ServerError(kind, true)
  }

  /** `From<BunkerError>` and `From<access::Error>` go through `FromKind`. */
  function FromBunkerError(error: BunkerErrors.BunkerError): ServerError {
    FromKind(BunkerError(error))
  }

  function FromAccessError(error: AccessError): ServerError {
    FromKind(AccessError(error))
  }

  /** `ServerError::database_error`, `storage_error` and `request_error`. */
  function DatabaseFailure(error: AnyError): ServerError {
    FromKind(DatabaseError(error))
  }

  function StorageFailure(error: AnyError): ServerError {
    FromKind(StorageError(error))
  }

  function RequestFailure(error: AnyError): ServerError {
    FromKind(RequestError(error))
  }

  /** `ServerError::set_discovery_permission`: only the permission changes. */
  function SetDiscoveryPermission(e: ServerError, perm: bool): (r: ServerError)
    ensures r.kind == e.kind && r.discoveryPermission == perm
  {
    e.(discoveryPermission := perm)
  }

  /** Every constructor of a `ServerError` grants discovery permission until
      it is explicitly withdrawn. */
  lemma ConstructorsGrantDiscovery(b: BunkerErrors.BunkerError, a: AccessError, x: AnyError)
    ensures FromBunkerError(b) == ServerError(BunkerError(b), true)
    ensures FromAccessError(a) == ServerError(AccessError(a), true)
    ensures DatabaseFailure(x).discoveryPermission && StorageFailure(x).discoveryPermission
    ensures RequestFailure(x).discoveryPermission
  {
  }

  /** The identifiers of the variants of `ErrorKind` other than the common
      error, in declaration order. */
  const KIND_NAMES: seq<string> := [
    "NotFound", "Unauthorized", "InternalServerError", "NoSuchCache", "CacheAlreadyExists",
    "NoSuchObject", "InvalidCompressionType", "IncompleteNar", "DatabaseError",
    "StorageError", "ManifestSerializationError", "AccessError", "RequestError"
  ]

  /** Position of a variant other than the common error in the declaration. */
  function KindIndex(k: ErrorKind): (i: nat)
    requires !k.BunkerError?
    ensures i < |KIND_NAMES|
  {
    match k
    case NotFound => 0
    case Unauthorized => 1
    case InternalServerError => 2
    case NoSuchCache => 3
    case CacheAlreadyExists => 4
    case NoSuchObject => 5
    case InvalidCompressionType(_) => 6
    case IncompleteNar => 7
    case DatabaseError(_) => 8
    case StorageError(_) => 9
    case ManifestSerializationError(_) => 10
    case AccessError(_) => 11
    case RequestError(_) => 12
  }

  /** `ErrorKind::name`: the variant's identifier, except that a common
      error reports its own name. */
  function Name(k: ErrorKind): (r: string)
    ensures k.BunkerError? ==> r == BunkerErrors.Name(k.common)
    ensures !k.BunkerError? ==> r == KIND_NAMES[KindIndex(k)]
  {
    match k
    case NotFound => "NotFound"
    case Unauthorized => "Unauthorized"
    case InternalServerError => "InternalServerError"
    case NoSuchObject => "NoSuchObject"
    case NoSuchCache => "NoSuchCache"
    case CacheAlreadyExists => "CacheAlreadyExists"
    case InvalidCompressionType(_) => "InvalidCompressionType"
    case IncompleteNar => "IncompleteNar"
    case BunkerError(e) => BunkerErrors.Name(e)
    case DatabaseError(_) => "DatabaseError"
    case StorageError(_) => "StorageError"
    case ManifestSerializationError(_) => "ManifestSerializationError"
    case AccessError(_) => "AccessError"
    case RequestError(_) => "RequestError"
  }

  /** The names of the server's own kinds and of the common errors do not
      overlap, so a client can tell which layer an error comes from. */
  lemma KindNamesAreNotCommonNames(k: ErrorKind)
    ensures !k.BunkerError? ==> Name(k) !in BunkerErrors.NAMES
    ensures k.BunkerError? ==> Name(k) !in KIND_NAMES
  {
  }

  /** No error name has a colon, so a client can split `name: message`. */
  lemma NameHasNoColon(k: ErrorKind)
    ensures ':' !in Name(k)
  {
    if k.BunkerError? {
    } else if k.NotFound? || k.Unauthorized? || k.NoSuchObject? || k.NoSuchCache?
              || k.IncompleteNar? || k.DatabaseError? || k.StorageError? {
      ShortNamesHaveNoColon(k);
    } else {
      LongNamesHaveNoColon(k);
    }
  }

  lemma ShortNamesHaveNoColon(k: ErrorKind)
    requires k.NotFound? || k.Unauthorized? || k.NoSuchObject? || k.NoSuchCache?
             || k.IncompleteNar? || k.DatabaseError? || k.StorageError?
    ensures ':' !in Name(k)
  {
    var n := Name(k);
    match k {
      case NotFound => assert n == "NotFound";
      case Unauthorized => assert n == "Unauthorized";
      case NoSuchObject => assert n == "NoSuchObject";
      case NoSuchCache => assert n == "NoSuchCache";
      case IncompleteNar => assert n == "IncompleteNar";
      case DatabaseError(_) => assert n == "DatabaseError";
      case StorageError(_) => assert n == "StorageError";
    }
  }

  lemma LongNamesHaveNoColon(k: ErrorKind)
    requires k.InternalServerError? || k.CacheAlreadyExists? || k.InvalidCompressionType?
             || k.ManifestSerializationError? || k.AccessError? || k.RequestError?
    ensures ':' !in Name(k)
  {
    var n := Name(k);
    match k {
      case InternalServerError => assert n == "InternalServerError";
      case CacheAlreadyExists => assert n == "CacheAlreadyExists";
      case InvalidCompressionType(_) => assert n == "InvalidCompressionType";
      case ManifestSerializationError(_) => assert n == "ManifestSerializationError";
      case AccessError(_) => assert n == "AccessError";
      case RequestError(_) => assert n == "RequestError";
    }
  }

  /** The rendering of a manifest error. The code that renders it is not
      part of this model; it is taken to be the payload, or the variant's
      identifier when there is none. It never reaches a client. */
  function ManifestErrorText(e: ManifestError): string {
    match e
    case Unexpected(w) => w
    case UnexpectedEof => "UnexpectedEof"
    case ExpectedColon => "ExpectedColon"
    case ExpectedBoolean => "ExpectedBoolean"
    case ExpectedInteger => "ExpectedInteger"
    case Unsupported(c) => c
    case AnyUnsupported => "AnyUnsupported"
    case NoneUnsupported => "NoneUnsupported"
    case NestedMapUnsupported => "NestedMapUnsupported"
    case FloatUnsupported => "FloatUnsupported"
    case Custom(m) => m
  }

  function AccessErrorText(e: AccessError): string {
    match e
    case NoDiscoveryPermission => "NoDiscoveryPermission"
    case OtherAccessError(d) => d
  }

  predicate EndsWith(s: string, suffix: string) {
    |suffix| <= |s| && s[|s| - |suffix|..] == suffix
  }

  /** A fixed text followed by the rendering of its cause. */
  function WithCause(text: string, cause: AnyError): (r: string)
    ensures EndsWith(r, cause.description)
  {
    var r := text + cause.description;
    assert r[|r| - |cause.description|..] == cause.description;
    r
  }

  /** `Display for ErrorKind`: each variant's documentation line. A kind
      with a payload shows it; the cause of a database, storage or request
      failure comes at the end. */
  function Message(k: ErrorKind): (r: string)
    ensures k.DatabaseError? ==> EndsWith(r, k.database.description)
    ensures k.StorageError? ==> EndsWith(r, k.storage.description)
    ensures k.RequestError? ==> EndsWith(r, k.request.description)
  {
    match k
    case DatabaseError(e) => WithCause("Database error: ", e)
    case StorageError(e) => WithCause("Storage error: ", e)
    case RequestError(e) => WithCause("General request error: ", e)
    case _ => OtherMessage(k)
  }

  /** The messages of the kinds that carry no backend cause. */
  function OtherMessage(k: ErrorKind): string
    requires !k.DatabaseError? && !k.StorageError? && !k.RequestError?
  {
    match k
    case NotFound => "The URL you requested was not found."
    case Unauthorized => "Unauthorized."
    case InternalServerError => "The server encountered an internal error or misconfiguration."
    case NoSuchCache => "The requested cache does not exist."
    case CacheAlreadyExists => "The cache already exists."
    case NoSuchObject => "The requested object does not exist."
    case InvalidCompressionType(name) => "Invalid compression type \"" + name + "\"."
    case IncompleteNar => "The requested NAR has missing chunks and needs to be repaired."
    case ManifestSerializationError(e) => "Manifest serialization error: " + ManifestErrorText(e)
    case AccessError(e) => "Access error: " + AccessErrorText(e)
    case BunkerError(_) => "Error from the common components."
  }

  /** The compression-type message quotes the rejected name. */
  lemma CompressionMessageQuotesName(name: string)
    ensures var r := Message(InvalidCompressionType(name));
      |r| == |name| + 28 && r[26..26 + |name|] == name && r[25] == '"' && r[26 + |name|] == '"'
  {
    var prefix := "Invalid compression type \"";
    assert |prefix| == 26;
    assert Message(InvalidCompressionType(name)) == prefix + name + "\".";
  }

  /** Kinds that wrap a failure of the database, the storage backend or the
      manifest codec: their details must stay on the server. */
  predicate IsBackendFailure(k: ErrorKind) {
    k.DatabaseError? || k.StorageError? || k.ManifestSerializationError?
  }

  /** Kinds that reveal whether a cache or object exists, or why access was
      refused. */
  predicate RevealsExistence(k: ErrorKind) {
    k.NoSuchCache? || k.NoSuchObject? || k.AccessError?
  }

  /** `into_no_discovery_permissions`. */
  function IntoNoDiscoveryPermissions(k: ErrorKind): (r: ErrorKind)
    ensures RevealsExistence(k) ==> r == Unauthorized
    ensures !RevealsExistence(k) ==> r == k
  {
    match k
    case NoSuchCache => Unauthorized
    case NoSuchObject => Unauthorized
    case AccessError(_) => Unauthorized
    case _ => k
  }

  /** `into_clients`. */
  function IntoClients(k: ErrorKind): (r: ErrorKind)
    ensures IsBackendFailure(k) ==> r == InternalServerError
    ensures k == AccessError(NoDiscoveryPermission) ==> r == Unauthorized
    ensures !IsBackendFailure(k) && k != AccessError(NoDiscoveryPermission) ==> r == k
    ensures !IsBackendFailure(r)
  {
    match k
    case AccessError(NoDiscoveryPermission) => Unauthorized
    case DatabaseError(_) => InternalServerError
    case StorageError(_) => InternalServerError
    case ManifestSerializationError(_) => InternalServerError
    case _ => k
  }

  /** `http_status_code`. */
  function HttpStatusCode(k: ErrorKind): (code: u16)
    ensures code in {NOT_FOUND, UNAUTHORIZED, FORBIDDEN, BAD_REQUEST,
                     INTERNAL_SERVER_ERROR, SERVICE_UNAVAILABLE}
    ensures k.DatabaseError? || k.StorageError? ==> code == INTERNAL_SERVER_ERROR
    ensures k.ManifestSerializationError? ==> code == BAD_REQUEST
    ensures !IsBackendFailure(k) ==> code == StatusOfName(Name(k))
  {
    match k
    case NotFound => NOT_FOUND
    case Unauthorized => UNAUTHORIZED
    case InternalServerError => INTERNAL_SERVER_ERROR
    case AccessError(_) => FORBIDDEN
    case NoSuchCache => NOT_FOUND
    case NoSuchObject => NOT_FOUND
    case CacheAlreadyExists => BAD_REQUEST
    case IncompleteNar => SERVICE_UNAVAILABLE
    case ManifestSerializationError(_) => BAD_REQUEST
    case RequestError(_) => BAD_REQUEST
    case InvalidCompressionType(_) => BAD_REQUEST
    case BunkerError(b) =>
      BunkerErrors.NameIdentifiesVariant(b, b);
      INTERNAL_SERVER_ERROR
    case _ => INTERNAL_SERVER_ERROR
  }

  /** Errors that neither sanitisation step rewrites: not a backend
      failure, not a missing discovery permission, and not hidden from a
      caller without discovery permission. */
  predicate PassesThrough(e: ServerError) {
    && !IsBackendFailure(e.kind)
    && e.kind != AccessError(NoDiscoveryPermission)
    && (e.discoveryPermission || !RevealsExistence(e.kind))
  }

  /** The kind a client gets to see. */
  function ClientKind(e: ServerError): (k: ErrorKind)
    ensures !IsBackendFailure(k)
    ensures !e.discoveryPermission ==> !RevealsExistence(k)
    ensures PassesThrough(e) ==> k == e.kind
  {
    var kind := if e.discoveryPermission then e.kind else IntoNoDiscoveryPermissions(e.kind);
    IntoClients(kind)
  }

  /** Whether `into_response` logs the error in full on the server. */
  predicate IsLogged(k: ErrorKind) {
    k.DatabaseError? || k.StorageError? || k.ManifestSerializationError? || k.BunkerError?
  }

  /** The response-building steps of `into_response`. */
  function IntoResponse(e: ServerError): (r: ErrorResponse)
    ensures r.error !in {"DatabaseError", "StorageError", "ManifestSerializationError"}
    ensures !e.discoveryPermission ==> r.error !in {"NoSuchCache", "NoSuchObject", "AccessError"}
    ensures PassesThrough(e) ==>
              r == ErrorResponse(StatusOfName(Name(e.kind)), Name(e.kind), Message(e.kind))
  {
    var sanitized := ClientKind(e);
    ErrorResponse(HttpStatusCode(sanitized), Name(sanitized), Message(sanitized))
  }

  /** `Serialize for ErrorResponse`. */
  function EncodeErrorResponse(r: ErrorResponse): (v: Json.Value)
    ensures v.Object? && v.fields.Keys == {"code", "error", "message"}
    ensures v.fields["code"] == Json.Int(r.code)
    ensures v.fields["error"] == Json.Str(r.error) && v.fields["message"] == Json.Str(r.message)
  {
    Json.Object(map["code" := Json.Int(r.code), "error" := Json.Str(r.error),
                    "message" := Json.Str(r.message)])
  }

  /** Sanitising twice is sanitising once. */
  lemma IntoClientsIdempotent(k: ErrorKind)
    ensures IntoClients(IntoClients(k)) == IntoClients(k)
  {
  }

  /** Demotion and sanitisation can be applied in either order. */
  lemma SanitisationStepsCommute(k: ErrorKind)
    ensures IntoClients(IntoNoDiscoveryPermissions(k)) == IntoNoDiscoveryPermissions(IntoClients(k))
  {
  }

  /** A backend failure yields one fixed response, whatever its details and
      whatever the caller's permissions: nothing about the backend leaks. */
  lemma BackendFailuresLookAlike(e: ServerError)
    requires IsBackendFailure(e.kind)
    ensures IntoResponse(e) == ErrorResponse(INTERNAL_SERVER_ERROR, "InternalServerError",
                                             "The server encountered an internal error or misconfiguration.")
  {
  }

  /** A common error is logged in full and, unlike a backend failure, also
      shown to the client under its own name, with a 500 status and the
      generic common-error text. */
  lemma CommonErrorsLoggedAndShown(b: BunkerErrors.BunkerError, perm: bool)
    ensures IsLogged(BunkerError(b)) && !IsBackendFailure(BunkerError(b))
    ensures IntoResponse(ServerError(BunkerError(b), perm))
            == ErrorResponse(INTERNAL_SERVER_ERROR, BunkerErrors.NAMES[BunkerErrors.VariantIndex(b)],
                             "Error from the common components.")
  {
  }

  /** Withdrawing discovery permission from a fresh error hides exactly the
      kinds that reveal existence: they answer like `Unauthorized`, and every
      other kind answers as before. */
  lemma RevokingDiscoveryHidesExistence(k: ErrorKind)
    ensures RevealsExistence(k) ==>
              IntoResponse(SetDiscoveryPermission(FromKind(k), false)) == IntoResponse(FromKind(Unauthorized))
    ensures !RevealsExistence(k) ==>
              IntoResponse(SetDiscoveryPermission(FromKind(k), false)) == IntoResponse(FromKind(k))
  {
  }

  /** Worked cases of the pipeline. */
  lemma ManifestFailureResponse(m: ManifestError, perm: bool)
    ensures IntoResponse(ServerError(ManifestSerializationError(m), perm)).code == 500
    ensures IntoResponse(ServerError(ManifestSerializationError(m), perm)).error == "InternalServerError"
  {
  }

  lemma ResponseExamples()
    ensures IntoResponse(ServerError(NoSuchCache, false)) == ErrorResponse(401, "Unauthorized", "Unauthorized.")
    ensures IntoResponse(ServerError(NoSuchCache, true))
            == ErrorResponse(404, "NoSuchCache", "The requested cache does not exist.")
    ensures IntoResponse(ServerError(AccessError(NoDiscoveryPermission), true)).code == 401
  {
  }

  /** Without discovery permission, a request for something that may not
      exist gets the same answer as one the caller may not make. */
  lemma DemotionHidesExistence(k: ErrorKind)
    requires RevealsExistence(k)
    ensures IntoResponse(ServerError(k, false)) == IntoResponse(ServerError(Unauthorized, true))
  {
  }

  /** Status for each stable error name, as a client would tabulate it. */
  function StatusOfName(name: string): u16 {
    if name in {"NotFound", "NoSuchCache", "NoSuchObject"} then NOT_FOUND
    else if name == "Unauthorized" then UNAUTHORIZED
    else if name == "AccessError" then FORBIDDEN
    else if name in {"CacheAlreadyExists", "RequestError", "InvalidCompressionType"} then BAD_REQUEST
    else if name == "IncompleteNar" then SERVICE_UNAVAILABLE
    else INTERNAL_SERVER_ERROR
  }

  /** In every response the status code is determined by the error name, so
      code and name never disagree. */
  lemma StatusFollowsName(e: ServerError)
    ensures IntoResponse(e).code == StatusOfName(IntoResponse(e).error)
  {
  }

  /** Two kinds share a name exactly when they are the same variant (for a
      common error: the same variant of the common error). */
  predicate SameVariant(a: ErrorKind, b: ErrorKind) {
    match (a, b)
    case (NotFound, NotFound) => true
    case (Unauthorized, Unauthorized) => true
    case (InternalServerError, InternalServerError) => true
    case (NoSuchCache, NoSuchCache) => true
    case (CacheAlreadyExists, CacheAlreadyExists) => true
    case (NoSuchObject, NoSuchObject) => true
    case (InvalidCompressionType(_), InvalidCompressionType(_)) => true
    case (IncompleteNar, IncompleteNar) => true
    case (DatabaseError(_), DatabaseError(_)) => true
    case (StorageError(_), StorageError(_)) => true
    case (ManifestSerializationError(_), ManifestSerializationError(_)) => true
    case (AccessError(_), AccessError(_)) => true
    case (RequestError(_), RequestError(_)) => true
    case (BunkerError(x), BunkerError(y)) => BunkerErrors.VariantIndex(x) == BunkerErrors.VariantIndex(y)
    case _ => false
  }

  lemma NameIdentifiesKind(a: ErrorKind, b: ErrorKind)
    ensures Name(a) == Name(b) <==> SameVariant(a, b)
  {
    if a.BunkerError? && b.BunkerError? {
      BunkerErrors.NameIdentifiesVariant(a.common, b.common);
    } else if a.BunkerError? || b.BunkerError? {
      KindNamesAreNotCommonNames(a);
      KindNamesAreNotCommonNames(b);
    } else {
      OwnNamesIdentifyKind(a, b);
    }
  }

  /** Distinct kinds of the server's own have distinct names: names of equal
      length already differ in their first letter. */
  lemma OwnNamesIdentifyKind(a: ErrorKind, b: ErrorKind)
    requires !a.BunkerError? && !b.BunkerError?
    ensures Name(a) == Name(b) <==> SameVariant(a, b)
  {
    if SameVariant(a, b) {
    } else if |Name(a)| != |Name(b)| {
    } else {
      assert Name(a)[0] != Name(b)[0];
    }
  }
}
