/** The `object` table: one row per store path per cache. Converting a row
    to the NarInfo served to clients, and the "insert, or update on
    conflict" write that keeps one row per `(cache_id, store_path_hash)`. */
module ObjectEntity {
  import opened Wrappers
  import opened Primitives
  import BunkerErrors
  import ServerErrors

  /** A UTC timestamp, carried opaquely. */
  datatype Timestamp = Timestamp(micros: int)

  /** `object::Model`. */
  datatype ObjectRow = ObjectRow(
    id: int,
    cacheId: int,
    narId: int,
    storePathHash: string,
    storePath: string,
    references: seq<string>,
    system: Option<string>,
    deriver: Option<string>,
    sigs: seq<string>,
    ca: Option<string>,
    createdAt: Timestamp,
    lastAccessedAt: Option<Timestamp>,
    createdBy: Option<string>)

  /** The columns of a `nar` row that the conversion reads; the rest of that
      table is not part of this model. `nar_size` is an `i64` column. */
  datatype NarRow = NarRow(narSize: int, compression: string, narHash: string)

  /** `NarInfo`, generic over the compression type `C` and hash type `H`,
      whose parsers are parameters of the conversion. */
  datatype NarInfo<C, H> = NarInfo(
    storePath: string,
    url: string,
    compression: C,
    fileHash: Option<H>,
    fileSize: Option<usize>,
    narHash: H,
    narSize: usize,
    system: Option<string>,
    references: seq<string>,
    deriver: Option<string>,
    signature: Option<string>,
    ca: Option<string>)

  /** The description of the standard library's `TryFromIntError`. */
  const INT_CONVERSION_FAILED: string := "out of range integral type conversion attempted"

  /** `nar/<hash>.nar`, the URL under which the NAR of a path is served. */
  function NarUrl(storePathHash: string): string {
    "nar/" + storePathHash + ".nar"
  }

  /** `Model::to_nar_info`. `parseCompression` stands for `Compression::from_str`
      (its failure already converted to a `ServerError`) and `parseHash` for
      `Hash::from_typed`; both are outside this model. The size is converted
      first, then the compression, then the hash; the first failure wins. */
  function ToNarInfo<C, H>(
    obj: ObjectRow, nar: NarRow,
    parseCompression: string -> Result<C, ServerErrors.ServerError>,
    parseHash: string -> Result<H, BunkerErrors.BunkerError>)
    : (r: Result<NarInfo<C, H>, ServerErrors.ServerError>)
    ensures !(0 <= nar.narSize <= USIZE_MAX) ==>
              r == Failure(ServerErrors.DatabaseFailure(ServerErrors.AnyError(INT_CONVERSION_FAILED)))
    ensures 0 <= nar.narSize <= USIZE_MAX && parseCompression(nar.compression).Failure? ==>
              r == Failure(parseCompression(nar.compression).error)
    ensures 0 <= nar.narSize <= USIZE_MAX && parseCompression(nar.compression).Success?
            && parseHash(nar.narHash).Failure? ==>
              r == Failure(ServerErrors.FromBunkerError(parseHash(nar.narHash).error))
    ensures r.Success? <==>
              0 <= nar.narSize <= USIZE_MAX && parseCompression(nar.compression).Success?
              && parseHash(nar.narHash).Success?
    ensures r.Success? ==>
              && r.value.url == NarUrl(obj.storePathHash)
              && r.value.fileHash.None? && r.value.fileSize.None? && r.value.signature.None?
              && r.value.storePath == obj.storePath && r.value.system == obj.system
              && r.value.references == obj.references && r.value.deriver == obj.deriver
              && r.value.ca == obj.ca
              && r.value.narSize == nar.narSize
              && r.value.compression == parseCompression(nar.compression).value
              && r.value.narHash == parseHash(nar.narHash).value
  {
    if !(0 <= nar.narSize <= USIZE_MAX) then
      Failure(ServerErrors.DatabaseFailure(ServerErrors.AnyError(INT_CONVERSION_FAILED)))
    else
      var compression :- parseCompression(nar.compression);
      var narHash :- parseHash(nar.narHash).MapFailure(ServerErrors.FromBunkerError);
      Success(NarInfo(
        obj.storePath,
        NarUrl(obj.storePathHash),
        compression,
        None,
        None,
        narHash,
        nar.narSize,
        obj.system,
        obj.references,
        obj.deriver,
        None,
        obj.ca))
  }

  /** The URL names the store-path hash and nothing else: two rows share a
      URL exactly when they share a store-path hash. */
  lemma NarUrlIdentifiesHash(a: string, b: string)
    ensures NarUrl(a) == NarUrl(b) <==> a == b
  {
    if NarUrl(a) == NarUrl(b) {
      assert |a| == |b|;
      assert a == NarUrl(a)[4..4 + |a|];
      assert b == NarUrl(b)[4..4 + |b|];
    }
  }

  /** The conflict target `(cache_id, store_path_hash)`. */
  type ObjectKey = (int, string)

  function Key(row: ObjectRow): ObjectKey {
    (row.cacheId, row.storePathHash)
  }

  /** The table, indexed by the conflict target. */
  type ObjectTable = map<ObjectKey, ObjectRow>

  /** Every row is filed under its own key. */
  predicate WellKeyed(t: ObjectTable) {
    forall k | k in t :: Key(t[k]) == k
  }

  /** On conflict, these columns come from the incoming row and all others
      (`id`, `cache_id`, `store_path_hash`) stay as they were. */
  function ApplyUpdateColumns(existing: ObjectRow, incoming: ObjectRow): ObjectRow {
    existing.(
      narId := incoming.narId,
      storePath := incoming.storePath,
      references := incoming.references,
      system := incoming.system,
      deriver := incoming.deriver,
      sigs := incoming.sigs,
      ca := incoming.ca,
      createdAt := incoming.createdAt,
      lastAccessedAt := incoming.lastAccessedAt,
      createdBy := incoming.createdBy)
  }

  /** Two rows agree on every column the update writes. */
  predicate SameMetadata(a: ObjectRow, b: ObjectRow) {
    && a.narId == b.narId && a.storePath == b.storePath && a.references == b.references
    && a.system == b.system && a.deriver == b.deriver && a.sigs == b.sigs && a.ca == b.ca
    && a.createdAt == b.createdAt && a.lastAccessedAt == b.lastAccessedAt
    && a.createdBy == b.createdBy
  }

  /** An insert carrying `InsertExt::on_conflict_do_update`. */
  function Upsert(t: ObjectTable, row: ObjectRow): (t': ObjectTable)
    ensures t'.Keys == t.Keys + {Key(row)}
    ensures WellKeyed(t) ==> WellKeyed(t')
    ensures forall k | k in t && k != Key(row) :: t'[k] == t[k]
    ensures SameMetadata(t'[Key(row)], row)
    ensures Key(row) in t ==> t'[Key(row)].id == t[Key(row)].id
    ensures Key(row) !in t ==> t'[Key(row)] == row
  {
    var k := Key(row);
    if k in t then t[k := ApplyUpdateColumns(t[k], row)] else t[k := row]
  }

  /** Updates of a map at two different keys can be applied in either order. */
  lemma UpdatesCommute<K, V>(m: map<K, V>, k1: K, v1: V, k2: K, v2: V)
    requires k1 != k2
    ensures m[k1 := v1][k2 := v2] == m[k2 := v2][k1 := v1]
  {
    var l := m[k1 := v1][k2 := v2];
    var r := m[k2 := v2][k1 := v1];
    assert l.Keys == r.Keys;
    forall k | k in l
      ensures l[k] == r[k]
    {
    }
  }

  /** Writing the same row twice is writing it once. */
  lemma UpsertIdempotent(t: ObjectTable, row: ObjectRow)
    ensures Upsert(Upsert(t, row), row) == Upsert(t, row)
  {
  }

  /** Of two writes to the same key, the later one's metadata wins, and the
      row keeps the identity it had after the first. */
  lemma LastWriterWins(t: ObjectTable, first: ObjectRow, second: ObjectRow)
    requires WellKeyed(t)
    requires Key(first) == Key(second)
    ensures var k := Key(first);
      var t2 := Upsert(Upsert(t, first), second);
      && SameMetadata(t2[k], second)
      && t2[k].id == Upsert(t, first)[k].id
      && Key(t2[k]) == k
      && t2 == Upsert(t, first)[k := t2[k]]
  {
  }

  /** Writes to different keys do not interfere. */
  lemma UpsertsCommute(t: ObjectTable, a: ObjectRow, b: ObjectRow)
    requires Key(a) != Key(b)
    ensures Upsert(Upsert(t, a), b) == Upsert(Upsert(t, b), a)
  {
    var va := if Key(a) in t then ApplyUpdateColumns(t[Key(a)], a) else a;
    var vb := if Key(b) in t then ApplyUpdateColumns(t[Key(b)], b) else b;
    var ta := t[Key(a) := va];
    var tb := t[Key(b) := vb];
    assert Key(b) in ta <==> Key(b) in t;
    assert Key(b) in t ==> ta[Key(b)] == t[Key(b)];
    assert Key(a) in tb <==> Key(a) in t;
    assert Key(a) in t ==> tb[Key(a)] == t[Key(a)];
    UpdatesCommute(t, Key(a), va, Key(b), vb);
  }
}
