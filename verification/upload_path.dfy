/** The upload DTOs shared by client and server: the metadata that
    accompanies an uploaded NAR, and the result the server reports. Encoding
    and decoding are over the serde data model of module `Json`. */
module UploadPath {
  import opened Wrappers
  import opened Primitives
  import opened Json
  import NixStore

  /** Names of the two request headers of the upload protocol. */
  const BUNKER_NAR_INFO: string := "X-Bunker-Nar-Info"
  const BUNKER_NAR_INFO_PREAMBLE_SIZE: string := "X-Bunker-Nar-Info-Preamble-Size"

  datatype UploadPathResultKind = Uploaded | Deduplicated

  /** `Default for UploadPathResultKind`: a result whose kind cannot be
      told is taken to be a fresh upload. */
  function DefaultKind(): (k: UploadPathResultKind)
    ensures k.Uploaded? && KindName(k) == "Uploaded"
  {
    Uploaded
  }

  function KindName(k: UploadPathResultKind): string {
    match k
    case Uploaded => "Uploaded"
    case Deduplicated => "Deduplicated"
  }

  /** A unit variant serialises as its name. */
  function EncodeKind(k: UploadPathResultKind): Value {
    Str(KindName(k))
  }

  /** The derived `Deserialize` of a unit-variant enum: the variant's name,
      or a one-entry object mapping the name to `null`. */
  function DecodeKind(v: Value): (r: Result<UploadPathResultKind, DeError>)
    ensures r.Success? ==> v == EncodeKind(r.value) || v == Object(map[KindName(r.value) := Null])
    ensures forall k :: v == EncodeKind(k) ==> r == Success(k)
    ensures forall k :: v == Object(map[KindName(k) := Null]) ==> r == Success(k)
  {
    match v
    case Str(s) =>
      if s == "Uploaded" then Success(Uploaded)
      else if s == "Deduplicated" then Success(Deduplicated)
      else Failure(UnknownVariant(s))
    case Object(m) =>
      if m == map["Uploaded" := Null] then
        assert "Deduplicated" !in m;
        Success(Uploaded)
      else if m == map["Deduplicated" := Null] then Success(Deduplicated)
      else Failure(InvalidType("unit variant"))
    case _ => Failure(InvalidType("enum UploadPathResultKind"))
  }

  /** `#[serde_as(deserialize_as = "DefaultOnError")]`: a present value that
      does not decode becomes the default kind instead of an error. */
  function DecodeKindOrDefault(v: Value): (k: UploadPathResultKind)
    ensures DecodeKind(v).Success? ==> k == DecodeKind(v).value
    ensures DecodeKind(v).Failure? ==> k == DefaultKind()
  {
    match DecodeKind(v)
    case Success(k) => k
    case Failure(_) => DefaultKind()
  }

  datatype UploadPathResult = UploadPathResult(
    kind: UploadPathResultKind,
    fileSize: Option<usize>,
    fracDeduplicated: Option<F64>)

  /** `Serialize for UploadPathResult`; `file_size` is skipped when `None`,
      `frac_deduplicated` is written as `null` when `None` and, as
      `serde_json` does, when it is not finite. */
  function EncodeResult(r: UploadPathResult): (v: Value)
    ensures v.Object? && "kind" in v.fields && "frac_deduplicated" in v.fields
    ensures "file_size" in v.fields <==> r.fileSize.Some?
    ensures v.fields.Keys <= {"kind", "file_size", "frac_deduplicated"}
    ensures v.fields["frac_deduplicated"] == Null <==>
              r.fracDeduplicated.None? || !Finite(r.fracDeduplicated.value)
  {
    var sized := match r.fileSize
      case Some(n) => map["file_size" := Int(n)]
      case None => map[];
    Object(sized + map[
      "kind" := EncodeKind(r.kind),
      "frac_deduplicated" := FromOption(r.fracDeduplicated, FromF64)])
  }

  /** `Deserialize for UploadPathResult` from an object; unknown fields are
      ignored. A missing `kind` is an error (the default only replaces a
      value that is present and fails to decode). */
  function DecodeResult(v: Value): (r: Result<UploadPathResult, DeError>)
    ensures v.Object? ==>
              (r.Success? <==>
                 && "kind" in v.fields
                 && Optional(v.fields, "file_size", AsUsize).Success?
                 && Optional(v.fields, "frac_deduplicated", AsF64).Success?)
    ensures v.Object? && "kind" !in v.fields ==> r == Failure(MissingField("kind"))
    ensures r.Success? ==>
              && v.Object? && "kind" in v.fields
              && r.value.kind == DecodeKindOrDefault(v.fields["kind"])
              && r.value.fileSize == Optional(v.fields, "file_size", AsUsize).value
              && r.value.fracDeduplicated == Optional(v.fields, "frac_deduplicated", AsF64).value
  {
    match v
    case Object(m) =>
      if "kind" !in m then Failure(MissingField("kind"))
      else
        var kind := DecodeKindOrDefault(m["kind"]);
        var fileSize :- Optional(m, "file_size", AsUsize);
        var frac :- Optional(m, "frac_deduplicated", AsF64);
        Success(UploadPathResult(kind, fileSize, frac))
    case _ => Failure(InvalidType("struct UploadPathResult"))
  }

  /** Whatever the server reports, the client decodes it back unchanged,
      except that a fraction that is not finite arrives as `None`. */
  lemma ResultRoundTrip(r: UploadPathResult)
    ensures r.fracDeduplicated.None? || Finite(r.fracDeduplicated.value) ==>
              DecodeResult(EncodeResult(r)) == Success(r)
    ensures r.fracDeduplicated.Some? && !Finite(r.fracDeduplicated.value) ==>
              DecodeResult(EncodeResult(r)) == Success(r.(fracDeduplicated := None))
  {
    var m := EncodeResult(r).fields;
    assert m["kind"] == EncodeKind(r.kind);
    if r.fileSize.Some? {
      assert m["file_size"] == Int(r.fileSize.value);
    }
  }

  /** A `kind` the client does not understand (a newer server's variant,
      say) degrades to `Uploaded` instead of failing the whole result. */
  lemma UnknownKindIsUploaded(name: string, fileSize: Option<usize>)
    requires name != "Uploaded" && name != "Deduplicated"
    ensures var m := map["kind" := Str(name), "frac_deduplicated" := Null];
      var sized := if fileSize.Some? then m["file_size" := Int(fileSize.value)] else m;
      DecodeResult(Object(sized)) == Success(UploadPathResult(Uploaded, fileSize, None))
  {
  }

  /** `UploadPathNarInfo`. The cache name and the NAR hash are carried as
      their serialised strings: their own validation is not part of this
      model. The store-path hash is validated on decode. */
  datatype UploadPathNarInfo = UploadPathNarInfo(
    cache: string,
    storePathHash: NixStore.ValidStorePathHash,
    storePath: string,
    references: seq<string>,
    system: Option<string>,
    deriver: Option<string>,
    sigs: seq<string>,
    ca: Option<string>,
    narHash: string,
    narSize: usize)

  function OptionalString(o: Option<string>): Value {
    FromOption(o, (s: string) => Str(s))
  }

  /** The wire names of the fields of `UploadPathNarInfo`. */
  const NAR_INFO_FIELDS: set<string> := {
    "cache", "store_path_hash", "store_path", "references", "system",
    "deriver", "sigs", "ca", "nar_hash", "nar_size"
  }

  /** `Serialize for UploadPathNarInfo`: every field, `None` as `null`. */
  function EncodeNarInfo(n: UploadPathNarInfo): (v: Value)
    ensures v.Object? && v.fields.Keys == NAR_INFO_FIELDS
    ensures v.fields["store_path_hash"] == Str(n.storePathHash.value)
    ensures (v.fields["system"] == Null <==> n.system.None?)
            && (v.fields["deriver"] == Null <==> n.deriver.None?)
            && (v.fields["ca"] == Null <==> n.ca.None?)
  {
    Object(map[
      "cache" := Str(n.cache),
      "store_path_hash" := NixStore.SerializeHash(n.storePathHash),
      "store_path" := Str(n.storePath),
      "references" := FromStrings(n.references),
      "system" := OptionalString(n.system),
      "deriver" := OptionalString(n.deriver),
      "sigs" := FromStrings(n.sigs),
      "ca" := OptionalString(n.ca),
      "nar_hash" := Str(n.narHash),
      "nar_size" := Int(n.narSize)])
  }

  /** `Deserialize for UploadPathNarInfo`. When several fields are wrong,
      the model reports the first in declaration order; which one serde
      reports (by the order of the JSON text, missing fields last) is not
      modelled. */
  function DecodeNarInfo(v: Value): (r: Result<UploadPathNarInfo, DeError>)
    ensures r.Success? ==>
              && v.Object? && "store_path_hash" in v.fields
              && v.fields["store_path_hash"].Str?
              && NixStore.IsHashString(v.fields["store_path_hash"].s)
              && r.value.storePathHash.value == v.fields["store_path_hash"].s
    ensures (v.Object? && "store_path_hash" in v.fields
             && NixStore.DeserializeHash(v.fields["store_path_hash"]).Failure?) ==> r.Failure?
  {
    match v
    case Object(m) =>
      var cache :- Required(m, "cache", AsString);
      var hash :- Required(m, "store_path_hash", NixStore.DeserializeHash);
      var storePath :- Required(m, "store_path", AsString);
      var references :- Required(m, "references", AsStrings);
      var system :- Optional(m, "system", AsString);
      var deriver :- Optional(m, "deriver", AsString);
      var sigs :- Required(m, "sigs", AsStrings);
      var ca :- Optional(m, "ca", AsString);
      var narHash :- Required(m, "nar_hash", AsString);
      var narSize :- Required(m, "nar_size", AsUsize);
      Success(UploadPathNarInfo(cache, hash, storePath, references, system, deriver, sigs, ca,
                                narHash, narSize))
    case _ => Failure(InvalidType("struct UploadPathNarInfo"))
  }

  lemma OptionalStringRoundTrip(m: map<string, Value>, name: string, o: Option<string>)
    requires name in m && m[name] == OptionalString(o)
    ensures Optional(m, name, AsString) == Success(o)
  {
  }

  /** Decoding succeeds with `n` once every field decodes to `n`'s value. */
  lemma DecodeFieldwise(m: map<string, Value>, n: UploadPathNarInfo)
    requires Required(m, "cache", AsString) == Success(n.cache)
    requires Required(m, "store_path_hash", NixStore.DeserializeHash) == Success(n.storePathHash)
    requires Required(m, "store_path", AsString) == Success(n.storePath)
    requires Required(m, "references", AsStrings) == Success(n.references)
    requires Optional(m, "system", AsString) == Success(n.system)
    requires Optional(m, "deriver", AsString) == Success(n.deriver)
    requires Required(m, "sigs", AsStrings) == Success(n.sigs)
    requires Optional(m, "ca", AsString) == Success(n.ca)
    requires Required(m, "nar_hash", AsString) == Success(n.narHash)
    requires Required(m, "nar_size", AsUsize) == Success(n.narSize)
    ensures DecodeNarInfo(Object(m)) == Success(n)
  {
  }

  lemma EncodedFields(n: UploadPathNarInfo)
    ensures var m := EncodeNarInfo(n).fields;
      && m["cache"] == Str(n.cache)
      && m["store_path_hash"] == NixStore.SerializeHash(n.storePathHash)
      && m["store_path"] == Str(n.storePath)
      && m["references"] == FromStrings(n.references)
      && m["system"] == OptionalString(n.system)
      && m["deriver"] == OptionalString(n.deriver)
      && m["sigs"] == FromStrings(n.sigs)
      && m["ca"] == OptionalString(n.ca)
      && m["nar_hash"] == Str(n.narHash)
      && m["nar_size"] == Int(n.narSize)
  {
  }

  /** The metadata a client sends decodes back unchanged on the server. */
  lemma NarInfoRoundTrip(n: UploadPathNarInfo)
    ensures DecodeNarInfo(EncodeNarInfo(n)) == Success(n)
  {
    var m := EncodeNarInfo(n).fields;
    EncodedFields(n);
    StringsRoundTrip(n.references);
    StringsRoundTrip(n.sigs);
    OptionalStringRoundTrip(m, "system", n.system);
    OptionalStringRoundTrip(m, "deriver", n.deriver);
    OptionalStringRoundTrip(m, "ca", n.ca);
    DecodeFieldwise(m, n);
  }

  /** Replacing the hash field of well-formed metadata by any string that is
      not a valid store-path hash makes the whole decode fail. */
  lemma InvalidHashRejected(n: UploadPathNarInfo, bad: string)
    requires !NixStore.IsHashString(bad)
    ensures DecodeNarInfo(Object(EncodeNarInfo(n).fields["store_path_hash" := Str(bad)])).Failure?
  {
  }
}
