/** The sync layer as the backfill engine sees it: sync identities, field
    entries, operation records, the operation factory of the sync manager and
    the conversion of an operation into a database row. */
module SyncModel {
  import opened Wrappers

  /** A UUID in its database form (the bytes of `to_db()`). */
  type PubId = seq<bv8>

  /** The generated `SyncId` structs: the only identifiers an operation carries. */
  datatype SyncId =
    | DeviceId(pubId: PubId)
    | StorageStatisticsId(pubId: PubId)
    | InstanceId(pubId: PubId)
    | TagId(pubId: PubId)
    | LocationId(pubId: PubId)
    | ObjectId(pubId: PubId)
    | ExifDataId(obj: SyncId)
    | FilePathId(pubId: PubId)
    | LabelId(name: string)
    | TagOnObjectId(tag: SyncId, obj: SyncId)
    | LabelOnObjectId(labelId: SyncId, obj: SyncId)

  /** A column value as it is put into an entry; a foreign reference is its sync identity. */
  datatype Value =
    | Text(text: string)
    | Number(number: int)
    | Flag(flag: bool)
    | Bytes(bytes: seq<bv8>)
    | Instant(instant: int)
    | Ref(target: SyncId)

  /** One (field name, value) pair of an operation's payload. */
  datatype Entry = Entry(field: string, value: Value)

  /** `sync_entry!(value, field)`. */
  function SyncEntry(v: Value, field: string): (e: Entry)
    ensures e.field == field && e.value == v
  {
    Entry(field, v)
  }

  /** `option_sync_entry!(value, field)`: an entry only for a present value. */
  function OptionSyncEntry(v: Option<Value>, field: string): (e: Option<Entry>)
    ensures e.None? <==> v.None?
    ensures e.Some? ==> e.value == Entry(field, v.value)
  {
    match v
    case None => None
    case Some(x) => Some(SyncEntry(x, field))
  }

  /** The entries of the present optional values, in the order given. */
  function Present(optional: seq<Option<Entry>>): (r: seq<Entry>)
    ensures |r| <= |optional|
    ensures forall e :: e in r <==> Some(e) in optional
  {
    if optional == [] then []
    else
      var head := match optional[0] case None => [] case Some(e) => [e];
      assert optional == [optional[0]] + optional[1..];
      head + Present(optional[1..])
  }

  /** `chain_optional_iter(required, optional)`: the required entries, then the
      present optional ones, order kept. */
  function ChainOptional(required: seq<Entry>, optional: seq<Option<Entry>>): (r: seq<Entry>)
    ensures |required| <= |r| <= |required| + |optional|
    ensures r[..|required|] == required
    ensures forall e :: e in r[|required|..] <==> Some(e) in optional
  {
    assert (required + Present(optional))[|required|..] == Present(optional);
    required + Present(optional)
  }

  /** The optional list is filtered piecewise: the present entries of a
      concatenation are those of each part, in the same order. */
  lemma {:induction false} PresentAppend(a: seq<Option<Entry>>, b: seq<Option<Entry>>)
    ensures Present(a + b) == Present(a) + Present(b)
    decreases |a|
  {
    if a == [] {
      assert a + b == b;
    } else {
      assert (a + b)[1..] == a[1..] + b;
      assert (a + b)[0] == a[0];
      PresentAppend(a[1..], b);
    }
  }

  /** A field whose value is absent contributes no entry at all. */
  lemma AbsentFieldOmitted(required: seq<Entry>, optional: seq<Option<Entry>>, i: nat)
    requires i < |optional| && optional[i].None?
    ensures ChainOptional(required, optional) == ChainOptional(required, optional[..i] + optional[i + 1..])
  {
    var before, after := optional[..i], optional[i + 1..];
    var skipped := [optional[i]] + after;
    assert optional == before + skipped;
    PresentAppend(before, skipped);
    assert skipped[1..] == after;
    assert Present(skipped) == Present(after);
    PresentAppend(before, after);
    assert Present(optional) == Present(before + after);
  }

  /** A field whose value is present contributes exactly its entry, after the
      entries of the fields listed before it and before those listed after it. */
  lemma PresentFieldKept(required: seq<Entry>, optional: seq<Option<Entry>>, i: nat)
    requires i < |optional| && optional[i].Some?
    ensures ChainOptional(required, optional)
         == ChainOptional(required, optional[..i]) + [optional[i].value] + Present(optional[i + 1..])
  {
    var before, after := optional[..i], optional[i + 1..];
    assert optional == before + ([optional[i]] + after);
    PresentAppend(before, [optional[i]] + after);
    PresentAppend([optional[i]], after);
    assert Present([optional[i]]) == [optional[i].value];
  }

  /** All optional values absent: only the required entries remain. */
  lemma {:induction false} AllAbsentLeavesRequired(required: seq<Entry>, optional: seq<Option<Entry>>)
    requires forall i :: 0 <= i < |optional| ==> optional[i].None?
    ensures ChainOptional(required, optional) == required
    decreases |optional|
  {
    if optional != [] {
      AllAbsentLeavesRequired(required, optional[1..]);
    }
  }

  datatype OpKind = SharedCreate | RelationCreate

  /** An operation record as stored in the `crdt_operation` table (its clock
      value is not part of this model). */
  datatype CrdtOperation = CrdtOperation(devicePubId: PubId, kind: OpKind, target: SyncId, entries: seq<Entry>)

  /** The sync manager: the local device's identity. */
  datatype SyncManager = SyncManager(devicePubId: PubId)

  /** `sync.shared_create(id, entries)`, stamped with the local device. */
  function SharedCreateOp(sync: SyncManager, id: SyncId, entries: seq<Entry>): (op: CrdtOperation)
    ensures op.devicePubId == sync.devicePubId && op.kind == SharedCreate
    ensures op.target == id && op.entries == entries
  {
    CrdtOperation(sync.devicePubId, SharedCreate, id, entries)
  }

  /** `sync.relation_create(id, entries)`, stamped with the local device. */
  function RelationCreateOp(sync: SyncManager, id: SyncId, entries: seq<Entry>): (op: CrdtOperation)
    ensures op.devicePubId == sync.devicePubId && op.kind == RelationCreate
    ensures op.target == id && op.entries == entries
  {
    CrdtOperation(sync.devicePubId, RelationCreate, id, entries)
  }

  /** The backfill error kinds: a missing local device row, a failed query or
      write, and an operation that could not be serialized for storage. */
  datatype Error = DeviceNotFound(pubId: PubId) | Database | Serialization

  /** `crdt_op_unchecked_db(&op)`: the row to insert, or a serialization error;
      `encodable` says which operations the serializer accepts. */
  function CrdtOpUncheckedDb(op: CrdtOperation, encodable: CrdtOperation -> bool): (r: Result<CrdtOperation, Error>)
    ensures r.Ok? <==> encodable(op)
    ensures r.Ok? ==> r.value == op
    ensures r.Err? ==> r.error == Serialization
  {
    if encodable(op) then Ok(op) else Err(Serialization)
  }
}
