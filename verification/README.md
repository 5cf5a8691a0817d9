# Bunker core in Dafny

A model of the core of Bunker, a self-hostable Nix binary cache: the
validation of Nix store paths and store-path hashes, the wire format of the
`upload-path` endpoint, the shared and server-side error types with their
sanitisation before an error reaches a client, the `object` table's mapping
to NAR info and its upsert, and the client side of an upload (the user
agent, the choice between header and preamble framing, reading error
responses, the bearer-token header).

Modules (one file each):

- `Wrappers`: `Option` and `Result`.
- `Primitives`: bytes, `usize` and `u16` ranges, and paths as sequences of byte-string components.
- `Utf8`: the UTF-8 encoding of Rust `String`s, needed because lengths in the source are byte lengths.
- `Json`: a JSON value tree and the serde field-decoding rules the derived implementations follow.
- `BunkerErrors`: `BunkerError` (bunker/src/error.rs).
- `NixStore`: `StorePath` and `StorePathHash` (bunker/src/nix_store/mod.rs).
- `UploadPath`: `UploadPathNarInfo`, `UploadPathResult` and `UploadPathResultKind` (bunker/src/api/v1/upload_path.rs).
- `ServerErrors`: `ServerError`, `ErrorKind` and `ErrorResponse` (server/src/error.rs).
- `ObjectEntity`: the `object` entity (server/src/database/entity/object.rs).
- `ClientApi`: the client API (client/src/api/mod.rs).

Three behaviours of the code that are easy to misread:

- A result without a `kind` field does not decode: it is a missing-field
  error. `DefaultOnError` only replaces a `kind` that is present but cannot
  be decoded, which then becomes `Uploaded` (`UploadPath.DecodeResult`,
  `UploadPath.UnknownKindIsUploaded`).
- A manifest serialisation failure reaches the client as a 500
  `InternalServerError`: `into_clients` rewrites it before
  `http_status_code` runs, so that function's 400 arm for it is never
  reached from `into_response` (`ServerErrors.HttpStatusCode` states the
  arm, `ServerErrors.ManifestFailureResponse` the response).
- The base-name character class lists `+-._?=`. Inside a class, `+-.` is
  the range from `+` to `.`, so `,` is admitted as well. The model keeps the
  regex as written (`NixStore.CommaIsAdmitted`).

## Model

| member | source | states |
|---|---|---|
| NixStore.NewHash | bunker/src/nix_store/mod.rs:171-187 | A hash is accepted exactly when it is 32 characters from the Nix base-32 alphabet, and the accepted value is the input. A rejection is an `InvalidStorePathHash` error carrying the input. Its reason is "invalid length" for every string whose UTF-8 encoding is not 32 bytes long (whatever its characters, and so for every ASCII string of the wrong length), and "invalid format" exactly for a string whose encoding is 32 bytes long but which is not a hash string. |
| NixStore.AlphabetIsSorted | bunker/src/nix_store/mod.rs:19-20 | The hash alphabet has 32 symbols in strictly increasing order, so they are distinct. |
| NixStore.AlphabetExcludes | bunker/src/nix_store/mod.rs:63-65 | The letters e, o, u and t, and every upper-case letter, are outside the alphabet. |
| NixStore.ValidHashExample | bunker/src/nix_store/mod.rs:58-61 | The documented example hash `ia70ss13m22znbl8khrf2hq72qmh5drr` is accepted. |
| NixStore.BannedLetterExample | bunker/src/nix_store/mod.rs:69 | 32 letters `e` are rejected for their format. |
| NixStore.UpperCaseExample | bunker/src/nix_store/mod.rs:70 | The upper-case form of the example hash is rejected for its format. |
| NixStore.ShortExample | bunker/src/nix_store/mod.rs:71 | `whatevenisthisthing` is rejected for its length. |
| NixStore.LengthIsInBytes | bunker/src/nix_store/mod.rs:172-177 | The length check counts bytes: a 31-character string holding one two-byte character passes the length check and fails on format. |
| NixStore.DeserializeHash | bunker/src/nix_store/mod.rs:208-218 | Deserialising accepts exactly a JSON string that is a valid hash. Any other string fails with the validation message; a non-string value is a type error. |
| NixStore.SerializeHash | bunker/src/nix_store/mod.rs:72 | A hash serialises as its bare string, and deserialising that gives the same hash back. |
| NixStore.FromBaseName | bunker/src/nix_store/mod.rs:102-120 | A base name is accepted exactly when its bytes match the base-name regex. "not valid UTF-8" is reported exactly when the bytes are not UTF-8, and every rejection carries the base name. |
| NixStore.MatchedNameIsValidUtf8 | bunker/src/nix_store/mod.rs:103-110 | Bytes matching the regex are always valid UTF-8, so the UTF-8 check never rejects a name the regex would accept. |
| NixStore.BaseNameBytesMatchText | bunker/src/nix_store/mod.rs:38-40 | The regex applied to the UTF-8 text agrees with the byte-level predicate on its encoding. |
| NixStore.FromBaseNameIsRegex | bunker/src/nix_store/mod.rs:112-117 | For text input, validation succeeds exactly when the text matches the regex. |
| NixStore.CommaIsAdmitted | bunker/src/nix_store/mod.rs:32-39 | A name containing `,`, which the documentation leaves out, still matches the regex as written. |
| NixStore.ToHash | bunker/src/nix_store/mod.rs:136-145 | The hash of a valid store path is a valid hash whose encoding is the first 32 bytes of the base name. |
| NixStore.Name | bunker/src/nix_store/mod.rs:149-156 | The name of a valid store path is non-empty, made only of name characters, and its encoding is the base name after the dash. |
| NixStore.BaseNameSplits | bunker/src/nix_store/mod.rs:134-156 | A valid base name is its hash, a dash and its name, in that order. |
| NixStore.JoinValidates | bunker/src/nix_store/mod.rs:100-156 | Joining a valid hash, a dash and a non-empty valid name gives a base name that validates, and the hash and name read back unchanged. |
| NixStore.ToBaseName | bunker/src/nix_store/mod.rs:221-245 | On success the path is the store directory, then the returned component, then the remaining components, and that component is at least 32 bytes. Every failure is `InvalidStorePath` carrying the path. |
| NixStore.ToBaseNameReasons | bunker/src/nix_store/mod.rs:222-244 | Each failure reason belongs to one kind of input. "not in the store" is for a path outside the store directory, "is the store directory" for the directory itself, and "too short" for a first component below 32 bytes. |
| NixStore.ToBaseNameOfChild | bunker/src/nix_store/mod.rs:222-238 | For the store directory extended by components whose first is at least 32 bytes, the result is that first component, whatever follows it. |
| NixStore.FullPathValidates | bunker/src/nix_store/mod.rs:221-245 | The full path of a valid store path maps back to the same base name and validates again. |
| Utf8.EncodeIsValid | bunker/src/nix_store/mod.rs:103-110 | Every encoded `String` is valid UTF-8, so the `to_str` check accepts it. |
| Utf8.AsciiRoundTrip | bunker/src/nix_store/mod.rs:139-143 | Decoding ASCII bytes as text and encoding that text again gives the bytes back. This is the assumption behind the unchecked UTF-8 conversions in `to_hash` and `name`. |
| BunkerErrors.Name | bunker/src/error.rs:43-54 | Each error's name is the identifier at its variant's position in the declaration, and contains no colon. |
| BunkerErrors.NameIdentifiesVariant | bunker/src/error.rs:43-54 | Each error's name is its variant's identifier, and two errors share a name exactly when they are the same variant. |
| BunkerErrors.ConversionsKeepCause | bunker/src/error.rs:68-84 | The io, signing and hash conversions wrap their cause unchanged in the matching variant, under that variant's name. |
| BunkerErrors.InvalidHashMessageDeterminesParts | bunker/src/error.rs:23-24 | For hashes without a quote character, two "Invalid store path hash" messages are equal exactly when their hashes and reasons are. |
| UploadPath.DefaultKind | bunker/src/api/v1/upload_path.rs:38-42 | The default kind is `Uploaded`. |
| UploadPath.DecodeKind | bunker/src/api/v1/upload_path.rs:32-37 | A result kind is decoded exactly from its own encodings: its name as a string, or a one-entry object mapping the name to null. Both encodings of each kind decode to that kind. |
| UploadPath.DecodeKindOrDefault | bunker/src/api/v1/upload_path.rs:26-27 | A kind that fails to decode becomes the default kind; a kind that decodes is kept. |
| UploadPath.EncodeResult | bunker/src/api/v1/upload_path.rs:23-31 | The encoding always has `kind` and `frac_deduplicated`, has `file_size` exactly when a size is known, and has no other field. `frac_deduplicated` is `null` exactly when it is absent or not finite. |
| UploadPath.DecodeResult | bunker/src/api/v1/upload_path.rs:23-31 | An object decodes exactly when `kind` is present and the optional fields decode. A missing `kind` is a missing-field error. On success the kind, file size and fraction are exactly what their own fields decode to, whatever other fields the object carries. |
| UploadPath.ResultRoundTrip | bunker/src/api/v1/upload_path.rs:23-37 | Every upload result with a finite (or absent) fraction decodes back from its encoding. A NaN or infinite fraction is written as `null` and so decodes as absent. |
| UploadPath.UnknownKindIsUploaded | bunker/src/api/v1/upload_path.rs:38-42 | A response naming an unknown kind still decodes, as `Uploaded`, and keeps its file size, present or absent. |
| UploadPath.EncodeNarInfo | bunker/src/api/v1/upload_path.rs:10-22 | The encoding has exactly the ten wire fields, the hash as its string, and `null` exactly for the absent optional fields. |
| UploadPath.DecodeNarInfo | bunker/src/api/v1/upload_path.rs:10-22 | A decoded NAR info carries a valid store-path hash, and a hash field that fails validation makes the whole decoding fail. |
| UploadPath.NarInfoRoundTrip | bunker/src/api/v1/upload_path.rs:10-22 | Every NAR info decodes back from its encoding. |
| UploadPath.InvalidHashRejected | bunker/src/api/v1/upload_path.rs:13 | Replacing the hash of an encoded NAR info by any invalid hash string makes the decoding fail. |
| ServerErrors.FromKind | server/src/error.rs:91-98 | Wrapping a kind keeps it and grants discovery permission. |
| ServerErrors.ConstructorsGrantDiscovery | server/src/error.rs:71-109 | Every constructor and conversion builds an error with discovery permission, wrapping the common error or access error unchanged. |
| ServerErrors.SetDiscoveryPermission | server/src/error.rs:80-82 | Setting the permission changes only the permission, and to the value given. |
| ServerErrors.RevokingDiscoveryHidesExistence | server/src/error.rs:124-130 | Withdrawing discovery permission from a fresh error makes a missing cache, a missing object or an access error answer exactly like `Unauthorized`, and leaves the response of every other kind unchanged. |
| ServerErrors.Name | server/src/error.rs:142-159 | A common error reports its own name. Every other kind reports its own variant identifier, the entry of `KIND_NAMES` at its position in the declaration of `ErrorKind`. |
| ServerErrors.KindNamesAreNotCommonNames | server/src/error.rs:142-159 | The server's own names and the common-error names do not overlap. |
| ServerErrors.NameHasNoColon | server/src/error.rs:142-159 | No error name contains a colon. |
| ServerErrors.Message | server/src/error.rs:34-63 | The message of a database, storage or request failure ends with the description of its cause. |
| ServerErrors.CompressionMessageQuotesName | server/src/error.rs:47-48 | The message for an invalid compression type carries the rejected name between quotes. |
| ServerErrors.IntoNoDiscoveryPermissions | server/src/error.rs:163-171 | Without discovery permission, a missing cache, a missing object and an access error all become `Unauthorized`; every other kind is unchanged. |
| ServerErrors.IntoClients | server/src/error.rs:173-183 | Backend failures become `InternalServerError`, and a missing discovery permission becomes `Unauthorized`. Every other kind is unchanged, and no backend failure remains. |
| ServerErrors.IntoClientsIdempotent | server/src/error.rs:173-183 | Sanitising twice is the same as sanitising once. |
| ServerErrors.SanitisationStepsCommute | server/src/error.rs:163-183 | Demotion and sanitisation can be applied in either order. |
| ServerErrors.HttpStatusCode | server/src/error.rs:185-201 | Every kind maps to one of 404, 401, 403, 400, 500 or 503. A database or storage failure is 500, and a manifest serialisation failure is 400. For every other kind the code is the one the name table `StatusOfName` gives for the kind's name. |
| ServerErrors.ClientKind | server/src/error.rs:124-130 | The kind a client sees is never a backend failure. Without discovery permission, it never reveals whether a cache or object exists. Any other kind, other than a missing discovery permission, reaches the client unchanged. |
| ServerErrors.IntoResponse | server/src/error.rs:124-137 | A response never names a database, storage or manifest failure. Without discovery permission, it never names a missing cache, a missing object or an access error. For a kind that passes through unchanged, the response carries that kind's status from the name table, its own name and its own message. |
| ServerErrors.EncodeErrorResponse | server/src/error.rs:64-69 | The serialised response is an object with exactly the fields `code`, `error` and `message`, holding the response's values. |
| ServerErrors.BackendFailuresLookAlike | server/src/error.rs:124-137 | Every backend failure yields the same 500 `InternalServerError` response, whatever its details and the caller's permission. |
| ServerErrors.CommonErrorsLoggedAndShown | server/src/error.rs:114-137 | A common error is logged but is not a backend failure: the client sees a 500 response under the common error's own name, with the generic common-error text. |
| ServerErrors.ManifestFailureResponse | server/src/error.rs:124-137 | A manifest serialisation failure reaches the client as a 500 `InternalServerError`, whatever the caller's permission. |
| ServerErrors.ResponseExamples | server/src/error.rs:124-137 | A missing cache is 401 without discovery permission and 404 with it. A missing discovery permission is 401. |
| ServerErrors.DemotionHidesExistence | server/src/error.rs:161-171 | Without discovery permission, a missing cache, a missing object and an access error give the same response as `Unauthorized`. |
| ServerErrors.StatusFollowsName | server/src/error.rs:185-201 | In every response, the status code is a function of the error name, so the two never disagree. |
| ServerErrors.NameIdentifiesKind | server/src/error.rs:142-159 | Two kinds share a name exactly when they are the same variant; for common errors, the same variant of the common error. |
| ObjectEntity.ToNarInfo | server/src/database/entity/object.rs:88-111 | Conversion fails on a NAR size outside `usize`, then on the compression, then on the hash, and succeeds exactly when all three convert. On success the URL is built from the hash, file hash, file size and signature are absent, and the other fields are copied. |
| ObjectEntity.NarUrlIdentifiesHash | server/src/database/entity/object.rs:97 | Two NAR URLs are equal exactly when their store-path hashes are. |
| ObjectEntity.Upsert | server/src/database/entity/object.rs:66-84 | An upsert adds at most the row's key and leaves other keys untouched. The row at that key has the new metadata. On conflict the existing id is kept; otherwise the row is inserted as given. |
| ObjectEntity.UpsertIdempotent | server/src/database/entity/object.rs:66-84 | Upserting the same row twice is the same as upserting it once. |
| ObjectEntity.LastWriterWins | server/src/database/entity/object.rs:66-84 | Of two upserts to one key, the later metadata wins, the first id is kept, and nothing else changes. |
| ObjectEntity.UpsertsCommute | server/src/database/entity/object.rs:66-84 | Upserts to different keys can be applied in either order. |
| ClientApi.UserAgentAsWrittenKeepsPlaceholders | client/src/api/mod.rs:26-27 | The user agent as written sends the `{}` placeholders literally, and the package and distributor cannot be read back from it. |
| ClientApi.UserAgentNamesBoth | client/src/api/mod.rs:26-27 | The intended `Bunker/<package> (<distributor>)` user agent reads back into the package name and the distributor. |
| ClientApi.DecimalRoundTrip | client/src/api/mod.rs:166 | The decimal preamble-size header value reads back as the length it encodes. |
| ClientApi.UploadHeaderNames | bunker/src/api/v1/upload_path.rs:8-9 | The two upload header names, declared in mixed case, are held in the header map under their lower-case forms. |
| ClientApi.BuildUploadRequest | client/src/api/mod.rs:156-171 | The user agent is the as-written `BUNKER_USER_AGENT`. Header names are the lower-case forms the header map holds. The request has the preamble-size header exactly when the preamble is forced or the JSON is at least 4096 bytes, and the NAR info header exactly otherwise. A NAR info header is always shorter than 4096 bytes. In preamble framing the body is as long as the JSON and the payload together; otherwise it is the payload. |
| ClientApi.FramingRoundTrip | client/src/api/mod.rs:160-171 | Whichever framing is chosen, the receiver recovers exactly the JSON metadata and the NAR payload. |
| ClientApi.DecodeStructured | client/src/api/mod.rs:41-47 | A structured error is decoded exactly from an object with a `code` in the `u16` range and string `error` and `message` fields, and carries those three values. |
| ClientApi.TryFromResponse | client/src/api/mod.rs:187-194 | An error is structured exactly when the body decodes as one; otherwise it keeps the status and the raw text. |
| ClientApi.UploadOutcome | client/src/api/mod.rs:174-183 | An upload succeeds exactly on a 2xx status, with a result only when the body decodes as one. Any other status is the error read from the response. |
| ClientApi.FetchOutcome | client/src/api/mod.rs:61-76 | A fetch succeeds exactly on a 2xx status whose body decodes, with the decoded value. An undecodable success body is an error. Any other status is the error read from the response. |
| ClientApi.CommandOutcome | client/src/api/mod.rs:77-91 | A cache command succeeds exactly on a 2xx status, whatever the body. Any other status is the error read from the response. |
| ClientApi.UploadIsLenientFetch | client/src/api/mod.rs:174-178 | An upload agrees with a strict fetch of an upload result wherever the fetch succeeds or the server reports an error. It turns every undecodable success into a success without a result, and succeeds exactly when a cache command would. |
| ClientApi.DisplayStructured | client/src/api/mod.rs:196-200 | The display is the error name, a colon and a space, then the message. |
| ClientApi.DisplayDeterminesParts | client/src/api/mod.rs:196-200 | For error names without a colon, the `error: message` display determines both the name and the message. |
| ClientApi.DisplayIdentifiesServerResponse | client/src/api/mod.rs:196-200 | Two server error responses display the same on the client exactly when they are the same response. |
| ClientApi.ClientReadsServerError | client/src/api/mod.rs:187-194 | The body of every server error response reads on the client as a structured error with the sanitised code, name and message, and an upload receiving it fails with that error. |
| ClientApi.DefaultHeaders | client/src/api/mod.rs:201-206 | The default headers hold an `Authorization` header exactly when a token is configured, and nothing else. |
| ClientApi.BearerRoundTrip | client/src/api/mod.rs:201-206 | The bearer token a server reads from the default headers is exactly the configured token, or none. |

## Left out

- Network I/O, async streams, `endpoint.join`, and reading the response body: the transport is outside the model. A response is given as its status, its text and its parsed JSON.
- The requests of the other `ApiClient` methods (their URLs and JSON bodies) and `set_endpoint`'s URL parsing are transport. Their response handling is modelled: `get_cache_config` and `get_missing_paths` by `FetchOutcome`, with the decoder of the expected body as a parameter (`CacheConfig` and `GetMissingPathsResponse` are not part of this model); `create_cache`, `configure_cache` and `destroy_cache` by `CommandOutcome`.
- JSON text itself (`serde_json::to_string`, `from_str`): values are JSON trees. The upload takes the serialised metadata as a string parameter.
- `HeaderValue::from_str` failures: the model does not reject a NAR info header with control bytes. A token that is not a valid header value makes `build_http_client` panic via `unwrap`; the model does not cover this.
- Duplicate JSON keys, and a struct written as a JSON array (serde's sequence form).
- Which error is reported when several fields are wrong: serde reports type errors in the order of the JSON text and missing fields after them; the model reports the first wrong field in declaration order.
- `frac_deduplicated` is an opaque 64-bit float; only its finiteness is modelled. Reading an integer literal into it, which serde_json accepts, is not modelled.
- `CacheName`, `Hash` and `Compression` validation are not part of this model: `Compression::from_str` and `Hash::from_typed` are function parameters of `ObjectEntity.ToNarInfo`, and cache names are plain strings.
- `from_base_name_unchecked` and `new_unchecked` are subset types (`ValidStorePath`, `ValidStorePathHash`); the accessors `as_os_str`, `as_base_name_bytes`, `as_str` and `to_string` are field reads.
- Path parsing: paths are already sequences of components, so Rust's normalisation of repeated separators and `.` components is not modelled.
- `From<cxx::Exception>`: the `CxxError` variant is modelled, but the conversion comes from the foreign-function interface.
- Display texts of `BunkerError` other than `InvalidStorePathHash`'s. A manifest error's and an access error's rendering is not part of this model; it is taken to be the payload or the variant's identifier.
- Logging (`tracing::error!`) is reduced to the predicate `IsLogged`. `SpanTrace` capture is not modelled.
- Database id generation: the incoming row's id stands for a fresh insert. The `nar` table's columns other than size, compression and hash are not modelled.
- `ObjectEntity.ToNarInfo`: `usize` is taken as 64 bits; on a 32-bit target, sizes above 2^32-1 would also fail.

## Findings

| source | as written | input that shows it | evidently intended | confidence | as-written member | corrected member |
|---|---|---|---|---|---|---|
| client/src/api/mod.rs:26-27 | `concatcp!` concatenates its arguments and does not substitute `{}`, so the user agent is the format string followed by the package name and the distributor | package `bunker-client`, distributor `unknown`: the header is `Bunker/{} ({})bunker-clientunknown` | `Bunker/bunker-client (unknown)`, which `ClientApi.UserAgentNamesBoth` proves reads back into both parts | high; not executed | ClientApi.UserAgentAsWrittenKeepsPlaceholders | ClientApi.UserAgent |
