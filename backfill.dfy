/** `backfill_operations`: find the local device, then, as one transaction,
    delete the operations it has recorded, write the device's own operation
    and rebuild one create operation per syncable row in two waves. The
    operation table is a sequence of operations; the two waves run their
    steps in the order they are listed. */
module Backfill {
  import opened Wrappers
  import opened SyncModel
  import opened Pagination
  import opened Converters

  /** The library database: every syncable table, in primary-key order. */
  datatype LibraryDatabase = LibraryDatabase(
    devices: seq<KeyedRow<DeviceRecord>>,
    storageStatistics: seq<KeyedRow<StorageStatisticsRecord>>,
    tags: seq<KeyedRow<TagRecord>>,
    locations: seq<KeyedRow<LocationRecord>>,
    objects: seq<KeyedRow<ObjectRecord>>,
    labels: seq<KeyedRow<LabelRecord>>,
    exifDatas: seq<KeyedRow<ExifDataRecord>>,
    filePaths: seq<KeyedRow<FilePathRecord>>,
    tagsOnObjects: seq<RelationRow<TagOnObjectRecord>>,
    labelsOnObjects: seq<RelationRow<LabelOnObjectRecord>>)

  /** The queries and writes of a backfill, each with its own faults. */
  datatype Step =
    | DeviceLookup | DeleteOps | DeviceCreate | StorageStatistics
    | Tags | Locations | Objects | Labels
    | ExifDatas | FilePaths | TagsOnObjects | LabelsOnObjects

  /** A step's query or write fails when its fault says so (single-shot
      steps use call number 0); `encodable` is the serializer of
      `crdt_op_unchecked_db`. */
  datatype Faults = Faults(io: Step -> IoFaults, encodable: CrdtOperation -> bool)

  ghost predicate Healthy(faults: Faults) {
    && (forall s: Step :: Reliable(faults.io(s)))
    && AllEncodable(faults.encodable)
  }

  /** What the getters' `order_by` and the database guarantee: every table in
      ascending key order, join tables in (group id, item id) order, and no
      id negative. */
  ghost predicate WellFormed(db: LibraryDatabase) {
    && Ascending(db.tags) && KeysAbove(db.tags, -1)
    && Ascending(db.locations) && KeysAbove(db.locations, -1)
    && Ascending(db.objects) && KeysAbove(db.objects, -1)
    && Ascending(db.labels) && KeysAbove(db.labels, -1)
    && Ascending(db.exifDatas) && KeysAbove(db.exifDatas, -1)
    && Ascending(db.filePaths) && KeysAbove(db.filePaths, -1)
    && LexAscending(db.tagsOnObjects)
    && (forall i :: 0 <= i < |db.tagsOnObjects| ==> db.tagsOnObjects[i].key.0 >= 0 && db.tagsOnObjects[i].key.1 >= 0)
    && LexAscending(db.labelsOnObjects)
    && (forall i :: 0 <= i < |db.labelsOnObjects| ==> db.labelsOnObjects[i].key.0 >= 0 && db.labelsOnObjects[i].key.1 >= 0)
  }

  // ---------------------------------------------------------------- the local device

  /** `find_unique(device::pub_id::equals(..))`: the index of the device row with that public id. */
  function FindDevice(devices: seq<KeyedRow<DeviceRecord>>, pubId: PubId): (r: Option<nat>)
    ensures r.Some? ==> r.value < |devices| && devices[r.value].data.pubId == pubId
    ensures r.None? ==> forall i :: 0 <= i < |devices| ==> devices[i].data.pubId != pubId
  {
    if devices == [] then None
    else if devices[0].data.pubId == pubId then Some(0)
    else
      match FindDevice(devices[1..], pubId)
      case None => None
      case Some(i) => Some(i + 1)
  }

  /** The lookup before the transaction: a query error, or `DeviceNotFound`
      with the local public id, or the local device's row. */
  function LookupDevice(db: LibraryDatabase, sync: SyncManager, io: IoFaults): (r: Result<KeyedRow<DeviceRecord>, Error>)
    ensures io.readFails(0) ==> r == Err(Database)
    ensures !io.readFails(0) && FindDevice(db.devices, sync.devicePubId).None?
            ==> r == Err(DeviceNotFound(sync.devicePubId))
    ensures r.Ok? <==> !io.readFails(0) && FindDevice(db.devices, sync.devicePubId).Some?
    ensures r.Ok? ==> r.value == db.devices[FindDevice(db.devices, sync.devicePubId).value]
                      && r.value.data.pubId == sync.devicePubId
  {
    if io.readFails(0) then Err(Database)
    else
      match FindDevice(db.devices, sync.devicePubId)
      case None => Err(DeviceNotFound(sync.devicePubId))
      case Some(i) => Ok(db.devices[i])
  }

  // ---------------------------------------------------------------- the wipe

  /** The operation table after `delete_many(device_pub_id::equals(d))`. */
  function WithoutDevice(log: seq<CrdtOperation>, d: PubId): (r: seq<CrdtOperation>)
    ensures |r| <= |log|
    ensures forall i :: 0 <= i < |r| ==> r[i].devicePubId != d
    ensures forall op :: op in r <==> op in log && op.devicePubId != d
  {
    if log == [] then []
    else
      assert log == [log[0]] + log[1..];
      (if log[0].devicePubId != d then [log[0]] else []) + WithoutDevice(log[1..], d)
  }

  function DeleteDeviceOps(log: seq<CrdtOperation>, d: PubId, io: IoFaults): (r: Result<seq<CrdtOperation>, Error>)
    ensures r.Ok? <==> !io.writeFails(0)
    ensures r.Ok? ==> r.value == WithoutDevice(log, d)
    ensures r.Err? ==> r.error == Database
  {
    if io.writeFails(0) then Err(Database) else Ok(WithoutDevice(log, d))
  }

  ghost predicate AllStamped(ops: seq<CrdtOperation>, d: PubId) {
    forall i :: 0 <= i < |ops| ==> ops[i].devicePubId == d
  }

  lemma {:induction false} WithoutDeviceAppend(a: seq<CrdtOperation>, b: seq<CrdtOperation>, d: PubId)
    ensures WithoutDevice(a + b, d) == WithoutDevice(a, d) + WithoutDevice(b, d)
  {
    if a == [] {
      assert a + b == b;
    } else {
      assert (a + b)[1..] == a[1..] + b;
      assert (a + b)[0] == a[0];
      WithoutDeviceAppend(a[1..], b, d);
    }
  }

  /** The wipe removes every operation of the device... */
  lemma {:induction false} WithoutDeviceDropsStamped(a: seq<CrdtOperation>, d: PubId)
    requires AllStamped(a, d)
    ensures WithoutDevice(a, d) == []
  {
    if a != [] {
      assert AllStamped(a[1..], d) by {
        assert forall i :: 0 <= i < |a[1..]| ==> a[1..][i] == a[i + 1];
      }
      WithoutDeviceDropsStamped(a[1..], d);
    }
  }

  /** ... and keeps every other one, in order. */
  lemma {:induction false} WithoutDeviceKeepsForeign(a: seq<CrdtOperation>, d: PubId)
    requires forall i :: 0 <= i < |a| ==> a[i].devicePubId != d
    ensures WithoutDevice(a, d) == a
  {
    if a != [] {
      assert forall i :: 0 <= i < |a[1..]| ==> a[1..][i].devicePubId != d by {
        assert forall i :: 0 <= i < |a[1..]| ==> a[1..][i] == a[i + 1];
      }
      WithoutDeviceKeepsForeign(a[1..], d);
      assert a == [a[0]] + a[1..];
    }
  }

  lemma WithoutDeviceIdempotent(a: seq<CrdtOperation>, d: PubId)
    ensures WithoutDevice(WithoutDevice(a, d), d) == WithoutDevice(a, d)
  {
    WithoutDeviceKeepsForeign(WithoutDevice(a, d), d);
  }

  // ---------------------------------------------------------------- device and storage statistics

  /** `backfill_device`: the device's operation is serialized, then written. */
  function BackfillDevice(sync: SyncManager, device: KeyedRow<DeviceRecord>, io: IoFaults,
                          encodable: CrdtOperation -> bool, log: seq<CrdtOperation>): (r: Result<seq<CrdtOperation>, Error>)
    ensures r.Ok? <==> encodable(DeviceOp(sync, device.data)) && !io.writeFails(0)
    ensures r.Ok? ==> r.value == log + [DeviceOp(sync, device.data)]
    ensures !encodable(DeviceOp(sync, device.data)) ==> r == Err(Serialization)
  {
    var row :- CrdtOpUncheckedDb(DeviceOp(sync, device.data), encodable);
    if io.writeFails(0) then Err(Database) else Ok(log + [row])
  }

  /** `find_first(device_id::equals(Some(id)))`: the index of the first row of that device. */
  function FirstOnDevice(rows: seq<KeyedRow<StorageStatisticsRecord>>, id: int): (r: Option<nat>)
    ensures r.Some? ==> r.value < |rows| && rows[r.value].deviceId == Some(id)
    ensures r.Some? ==> forall j :: 0 <= j < r.value ==> rows[j].deviceId != Some(id)
    ensures r.None? ==> forall j :: 0 <= j < |rows| ==> rows[j].deviceId != Some(id)
  {
    if rows == [] then None
    else if rows[0].deviceId == Some(id) then Some(0)
    else
      match FirstOnDevice(rows[1..], id)
      case None => None
      case Some(i) => Some(i + 1)
  }

  /** The operation `backfill_storage_statistics` writes: none without statistics. */
  function StatisticsOps(rows: seq<KeyedRow<StorageStatisticsRecord>>, sync: SyncManager, id: int): seq<CrdtOperation> {
    match FirstOnDevice(rows, id)
    case None => []
    case Some(i) => [StorageStatisticsOp(sync, rows[i].data)]
  }

  /** `backfill_storage_statistics`: with no statistics row for the device
      it succeeds and writes nothing. */
  function BackfillStorageStatistics(rows: seq<KeyedRow<StorageStatisticsRecord>>, sync: SyncManager, id: int,
                                     io: IoFaults, encodable: CrdtOperation -> bool, log: seq<CrdtOperation>)
    : (r: Result<seq<CrdtOperation>, Error>)
    ensures io.readFails(0) ==> r == Err(Database)
    ensures !io.readFails(0) && FirstOnDevice(rows, id).None? ==> r == Ok(log)
    ensures r.Ok? ==> r.value == log + StatisticsOps(rows, sync, id)
    ensures !io.readFails(0) && !io.writeFails(0) && AllEncodable(encodable) ==> r.Ok?
  {
    if io.readFails(0) then Err(Database)
    else
      match FirstOnDevice(rows, id)
      case None => Ok(log)
      case Some(i) =>
        var row :- CrdtOpUncheckedDb(StorageStatisticsOp(sync, rows[i].data), encodable);
        if io.writeFails(0) then Err(Database) else Ok(log + [row])
  }

  /** When `backfill_storage_statistics` fails: a failed query, or a
      statistics row whose operation does not serialize (a serialization
      error) or whose write fails. */
  lemma StorageStatisticsOutcome(rows: seq<KeyedRow<StorageStatisticsRecord>>, sync: SyncManager, id: int,
                                 io: IoFaults, encodable: CrdtOperation -> bool, log: seq<CrdtOperation>)
    ensures var r := BackfillStorageStatistics(rows, sync, id, io, encodable, log);
            var first := FirstOnDevice(rows, id);
            && (r.Ok? <==> !io.readFails(0) && (first.None? ||
                             (encodable(StorageStatisticsOp(sync, rows[first.value].data)) && !io.writeFails(0))))
            && (!io.readFails(0) && first.Some? && !encodable(StorageStatisticsOp(sync, rows[first.value].data))
                ==> r == Err(Serialization))
  {
  }

  // ---------------------------------------------------------------- the getters

  /** The tag getter has no device condition and no `take`: every tag above the cursor, in one page. */
  function TagsGetter(db: LibraryDatabase): (g: Getter<TagRecord>)
    ensures forall c :: Fetch(g, c) == Above(db.tags, c)
  {
    UnscopedKeepsAll(db.tags);
    Getter(db.tags, None, None)
  }

  /** Locations of the local device, at most 1000 a page. */
  function LocationsGetter(db: LibraryDatabase, id: int): (g: Getter<LocationRecord>)
    ensures forall c, i :: 0 <= i < |Fetch(g, c)| ==> Fetch(g, c)[i].deviceId == Some(id)
    ensures forall c :: |Fetch(g, c)| <= 1000
  {
    FetchInScope(Getter(db.locations, Some(id), Some(1000)));
    Getter(db.locations, Some(id), Some(1000))
  }

  /** Objects of the local device, at most 1000 a page. */
  function ObjectsGetter(db: LibraryDatabase, id: int): (g: Getter<ObjectRecord>)
    ensures forall c, i :: 0 <= i < |Fetch(g, c)| ==> Fetch(g, c)[i].deviceId == Some(id)
    ensures forall c :: |Fetch(g, c)| <= 1000
  {
    FetchInScope(Getter(db.objects, Some(id), Some(1000)));
    Getter(db.objects, Some(id), Some(1000))
  }

  /** The label getter has no device condition and no `take`: every label above the cursor, in one page. */
  function LabelsGetter(db: LibraryDatabase): (g: Getter<LabelRecord>)
    ensures forall c :: Fetch(g, c) == Above(db.labels, c)
  {
    UnscopedKeepsAll(db.labels);
    Getter(db.labels, None, None)
  }

  /** Exif data of the local device, at most 1000 a page. */
  function ExifDatasGetter(db: LibraryDatabase, id: int): (g: Getter<ExifDataRecord>)
    ensures forall c, i :: 0 <= i < |Fetch(g, c)| ==> Fetch(g, c)[i].deviceId == Some(id)
    ensures forall c :: |Fetch(g, c)| <= 1000
  {
    FetchInScope(Getter(db.exifDatas, Some(id), Some(1000)));
    Getter(db.exifDatas, Some(id), Some(1000))
  }

  /** File paths of the local device; no `take`, so every one above the cursor in one page. */
  function FilePathsGetter(db: LibraryDatabase, id: int): (g: Getter<FilePathRecord>)
    ensures forall c, i :: 0 <= i < |Fetch(g, c)| ==> Fetch(g, c)[i].deviceId == Some(id)
    ensures forall c :: Fetch(g, c) == Above(Scoped(db.filePaths, Some(id)), c)
  {
    FetchInScope(Getter(db.filePaths, Some(id), None));
    Getter(db.filePaths, Some(id), None)
  }

  /** Tags on objects of the local device. */
  function TagsOnObjectsGetter(db: LibraryDatabase, id: int): (g: RelationGetter<TagOnObjectRecord>)
    ensures forall c, i :: 0 <= i < |FetchRelation(g, c)| ==> FetchRelation(g, c)[i].deviceId == Some(id)
  {
    FetchRelationInScope(RelationGetter(db.tagsOnObjects, Some(id)));
    RelationGetter(db.tagsOnObjects, Some(id))
  }

  /** Labels on objects of the local device. */
  function LabelsOnObjectsGetter(db: LibraryDatabase, id: int): (g: RelationGetter<LabelOnObjectRecord>)
    ensures forall c, i :: 0 <= i < |FetchRelation(g, c)| ==> FetchRelation(g, c)[i].deviceId == Some(id)
  {
    FetchRelationInScope(RelationGetter(db.labelsOnObjects, Some(id)));
    RelationGetter(db.labelsOnObjects, Some(id))
  }

  function SinkOf<R>(convert: R -> CrdtOperation, faults: Faults, step: Step): Sink<R> {
    Sink(convert, faults.encodable, faults.io(step))
  }

  // ---------------------------------------------------------------- the waves

  /** Wave 1: storage statistics, tags, locations, objects, labels. */
  ghost function Wave1(db: LibraryDatabase, sync: SyncManager, id: int, faults: Faults, log: seq<CrdtOperation>)
    : Result<seq<CrdtOperation>, Error>
  {
    var a :- BackfillStorageStatistics(db.storageStatistics, sync, id, faults.io(StorageStatistics), faults.encodable, log);
    var b :- Run(TagsGetter(db), SinkOf(TagConvert(sync), faults, Tags), -1, a, []).result;
    var c :- Run(LocationsGetter(db, id), SinkOf(LocationConvert(sync), faults, Locations), -1, b, []).result;
    var d :- Run(ObjectsGetter(db, id), SinkOf(ObjectConvert(sync), faults, Objects), -1, c, []).result;
    Run(LabelsGetter(db), SinkOf(LabelConvert(sync), faults, Labels), -1, d, []).result
  }

  /** Wave 2: exif data, file paths, tags on objects, labels on objects. */
  ghost function Wave2(db: LibraryDatabase, sync: SyncManager, id: int, faults: Faults, log: seq<CrdtOperation>)
    : Result<seq<CrdtOperation>, Error>
  {
    var a :- Run(ExifDatasGetter(db, id), SinkOf(ExifDataConvert(sync), faults, ExifDatas), -1, log, []).result;
    var b :- Run(FilePathsGetter(db, id), SinkOf(FilePathConvert(sync), faults, FilePaths), -1, a, []).result;
    var c :- RunRelation(TagsOnObjectsGetter(db, id), SinkOf(TagOnObjectConvert(sync), faults, TagsOnObjects), (-1, -1), b, []).result;
    RunRelation(LabelsOnObjectsGetter(db, id), SinkOf(LabelOnObjectConvert(sync), faults, LabelsOnObjects), (-1, -1), c, []).result
  }

  /** The whole backfill, from the operation table `log`: the new table, or the error. */
  ghost function Backfill(db: LibraryDatabase, sync: SyncManager, faults: Faults, log: seq<CrdtOperation>)
    : Result<seq<CrdtOperation>, Error>
  {
    var device :- LookupDevice(db, sync, faults.io(DeviceLookup));
    var wiped :- DeleteDeviceOps(log, sync.devicePubId, faults.io(DeleteOps));
    var created :- BackfillDevice(sync, device, faults.io(DeviceCreate), faults.encodable, wiped);
    var afterWave1 :- Wave1(db, sync, device.key, faults, created);
    Wave2(db, sync, device.key, faults, afterWave1)
  }

  /** Wave 1's operations: the statistics' then each table's rows in scope, in key order. */
  ghost function Wave1Ops(db: LibraryDatabase, sync: SyncManager, id: int): seq<CrdtOperation> {
    StatisticsOps(db.storageStatistics, sync, id)
    + Ops(Scoped(db.tags, None), TagConvert(sync))
    + Ops(Scoped(db.locations, Some(id)), LocationConvert(sync))
    + Ops(Scoped(db.objects, Some(id)), ObjectConvert(sync))
    + Ops(Scoped(db.labels, None), LabelConvert(sync))
  }

  ghost function Wave2Ops(db: LibraryDatabase, sync: SyncManager, id: int): seq<CrdtOperation> {
    Ops(Scoped(db.exifDatas, Some(id)), ExifDataConvert(sync))
    + Ops(Scoped(db.filePaths, Some(id)), FilePathConvert(sync))
    + Ops(Scoped(db.tagsOnObjects, Some(id)), TagOnObjectConvert(sync))
    + Ops(Scoped(db.labelsOnObjects, Some(id)), LabelOnObjectConvert(sync))
  }

  /** Every operation the backfill creates, in order: the device's, then wave 1's, then wave 2's. */
  ghost function Rebuilt(db: LibraryDatabase, sync: SyncManager, device: KeyedRow<DeviceRecord>): seq<CrdtOperation> {
    [DeviceOp(sync, device.data)] + Wave1Ops(db, sync, device.key) + Wave2Ops(db, sync, device.key)
  }

  // ---------------------------------------------------------------- the orchestrator

  /** `backfill_operations`: on success the operation table becomes the
      specified one; on any error it is left as it was. */
  method BackfillOperations(db: LibraryDatabase, sync: SyncManager, faults: Faults, log: seq<CrdtOperation>)
    returns (r: Result<(), Error>, newLog: seq<CrdtOperation>)
    ensures r.Ok? <==> Backfill(db, sync, faults, log).Ok?
    ensures r.Ok? ==> newLog == Backfill(db, sync, faults, log).value
    ensures r.Err? ==> r.error == Backfill(db, sync, faults, log).error && newLog == log
  {
    newLog := log;
    var device := LookupDevice(db, sync, faults.io(DeviceLookup));
    if device.Err? {
      return Err(device.error), log;
    }
    var id := device.value.key;
    // the transaction: every step works on `ops`, committed only at the end
    var ops := DeleteDeviceOps(log, sync.devicePubId, faults.io(DeleteOps));
    if ops.Err? {
      return Err(ops.error), log;
    }
    ops := BackfillDevice(sync, device.value, faults.io(DeviceCreate), faults.encodable, ops.value);
    if ops.Err? {
      return Err(ops.error), log;
    }
    var created := ops.value;
    ops := BackfillStorageStatistics(db.storageStatistics, sync, id, faults.io(StorageStatistics), faults.encodable, ops.value);
    if ops.Err? {
      return Err(ops.error), log;
    }
    var trace;
    ops, trace := Paginate(TagsGetter(db), SinkOf(TagConvert(sync), faults, Tags), ops.value);
    if ops.Err? {
      return Err(ops.error), log;
    }
    ops, trace := Paginate(LocationsGetter(db, id), SinkOf(LocationConvert(sync), faults, Locations), ops.value);
    if ops.Err? {
      return Err(ops.error), log;
    }
    ops, trace := Paginate(ObjectsGetter(db, id), SinkOf(ObjectConvert(sync), faults, Objects), ops.value);
    if ops.Err? {
      return Err(ops.error), log;
    }
    ops, trace := Paginate(LabelsGetter(db), SinkOf(LabelConvert(sync), faults, Labels), ops.value);
    if ops.Err? {
      return Err(ops.error), log;
    }
    assert Wave1(db, sync, id, faults, created) == ops;
    var afterWave1 := ops.value;
    ops, trace := Paginate(ExifDatasGetter(db, id), SinkOf(ExifDataConvert(sync), faults, ExifDatas), ops.value);
    if ops.Err? {
      return Err(ops.error), log;
    }
    ops, trace := Paginate(FilePathsGetter(db, id), SinkOf(FilePathConvert(sync), faults, FilePaths), ops.value);
    if ops.Err? {
      return Err(ops.error), log;
    }
    var relationTrace;
    ops, relationTrace := PaginateRelation(TagsOnObjectsGetter(db, id), SinkOf(TagOnObjectConvert(sync), faults, TagsOnObjects), ops.value);
    if ops.Err? {
      return Err(ops.error), log;
    }
    ops, relationTrace := PaginateRelation(LabelsOnObjectsGetter(db, id), SinkOf(LabelOnObjectConvert(sync), faults, LabelsOnObjects), ops.value);
    if ops.Err? {
      return Err(ops.error), log;
    }
    assert Wave2(db, sync, id, faults, afterWave1) == ops;
    r, newLog := Ok(()), ops.value;
  }
  // ---------------------------------------------------------------- properties

  /** A getter without a device condition returns the whole table. */
  lemma {:induction false} UnscopedKeepsAll<K, T>(rows: seq<Row<K, T>>)
    ensures Scoped(rows, None) == rows
  {
    if rows != [] {
      UnscopedKeepsAll(rows[1..]);
      assert rows == [rows[0]] + rows[1..];
    }
  }

  lemma Reassociate3(x: seq<CrdtOperation>, a: seq<CrdtOperation>, b: seq<CrdtOperation>, c: seq<CrdtOperation>)
    ensures x + a + b + c == x + (a + b + c)
  {
  }

  lemma Reassociate4(x: seq<CrdtOperation>, a: seq<CrdtOperation>, b: seq<CrdtOperation>, c: seq<CrdtOperation>, d: seq<CrdtOperation>)
    ensures x + a + b + c + d == x + (a + b + c + d)
  {
  }

  lemma Reassociate5(x: seq<CrdtOperation>, a: seq<CrdtOperation>, b: seq<CrdtOperation>, c: seq<CrdtOperation>,
                     d: seq<CrdtOperation>, e: seq<CrdtOperation>)
    ensures x + a + b + c + d + e == x + (a + b + c + d + e)
  {
    Reassociate4(x, a, b, c, d);
  }

  /** Whenever wave 1 succeeds it has appended the statistics' operation and
      then every row in scope of tags, locations, objects and labels. */
  lemma Wave1Collects(db: LibraryDatabase, sync: SyncManager, id: int, faults: Faults, log: seq<CrdtOperation>)
    requires WellFormed(db)
    ensures var r := Wave1(db, sync, id, faults, log);
            r.Ok? ==> r.value == log + Wave1Ops(db, sync, id)
  {
    var r := Wave1(db, sync, id, faults, log);
    var a := BackfillStorageStatistics(db.storageStatistics, sync, id, faults.io(StorageStatistics), faults.encodable, log);
    if r.Ok? {
      var sT, sL := SinkOf(TagConvert(sync), faults, Tags), SinkOf(LocationConvert(sync), faults, Locations);
      var sO, sLa := SinkOf(ObjectConvert(sync), faults, Objects), SinkOf(LabelConvert(sync), faults, Labels);
      var b := Run(TagsGetter(db), sT, -1, a.value, []).result;
      var c := Run(LocationsGetter(db, id), sL, -1, b.value, []).result;
      var d := Run(ObjectsGetter(db, id), sO, -1, c.value, []).result;
      var e := Run(LabelsGetter(db), sLa, -1, d.value, []).result;
      assert r == e;
      PaginateCollects(TagsGetter(db), sT, a.value);
      PaginateCollects(LocationsGetter(db, id), sL, b.value);
      PaginateCollects(ObjectsGetter(db, id), sO, c.value);
      PaginateCollects(LabelsGetter(db), sLa, d.value);
      Reassociate5(log, StatisticsOps(db.storageStatistics, sync, id),
                   Ops(Scoped(db.tags, None), TagConvert(sync)),
                   Ops(Scoped(db.locations, Some(id)), LocationConvert(sync)),
                   Ops(Scoped(db.objects, Some(id)), ObjectConvert(sync)),
                   Ops(Scoped(db.labels, None), LabelConvert(sync)));
    }
  }

  /** With no fault anywhere, wave 1 succeeds. */
  lemma Wave1Succeeds(db: LibraryDatabase, sync: SyncManager, id: int, faults: Faults, log: seq<CrdtOperation>)
    requires WellFormed(db) && Healthy(faults)
    ensures Wave1(db, sync, id, faults, log).Ok?
  {
    assert Reliable(faults.io(StorageStatistics));
    var a := BackfillStorageStatistics(db.storageStatistics, sync, id, faults.io(StorageStatistics), faults.encodable, log);
    var b := Run(TagsGetter(db), SinkOf(TagConvert(sync), faults, Tags), -1, a.value, []).result;
    assert Reliable(faults.io(Tags));
    PaginateComplete(TagsGetter(db), SinkOf(TagConvert(sync), faults, Tags), a.value);
    var c := Run(LocationsGetter(db, id), SinkOf(LocationConvert(sync), faults, Locations), -1, b.value, []).result;
    assert Reliable(faults.io(Locations));
    PaginateComplete(LocationsGetter(db, id), SinkOf(LocationConvert(sync), faults, Locations), b.value);
    var d := Run(ObjectsGetter(db, id), SinkOf(ObjectConvert(sync), faults, Objects), -1, c.value, []).result;
    assert Reliable(faults.io(Objects));
    PaginateComplete(ObjectsGetter(db, id), SinkOf(ObjectConvert(sync), faults, Objects), c.value);
    assert Reliable(faults.io(Labels));
    PaginateComplete(LabelsGetter(db), SinkOf(LabelConvert(sync), faults, Labels), d.value);
  }

  /** Whenever wave 2 succeeds it has appended every row in scope of exif
      data, file paths and the two join tables. */
  lemma Wave2Collects(db: LibraryDatabase, sync: SyncManager, id: int, faults: Faults, log: seq<CrdtOperation>)
    requires WellFormed(db)
    ensures var r := Wave2(db, sync, id, faults, log);
            r.Ok? ==> r.value == log + Wave2Ops(db, sync, id)
  {
    var r := Wave2(db, sync, id, faults, log);
    if r.Ok? {
      var sE, sF := SinkOf(ExifDataConvert(sync), faults, ExifDatas), SinkOf(FilePathConvert(sync), faults, FilePaths);
      var sT, sL := SinkOf(TagOnObjectConvert(sync), faults, TagsOnObjects), SinkOf(LabelOnObjectConvert(sync), faults, LabelsOnObjects);
      var a := Run(ExifDatasGetter(db, id), sE, -1, log, []).result;
      var b := Run(FilePathsGetter(db, id), sF, -1, a.value, []).result;
      var c := RunRelation(TagsOnObjectsGetter(db, id), sT, (-1, -1), b.value, []).result;
      var d := RunRelation(LabelsOnObjectsGetter(db, id), sL, (-1, -1), c.value, []).result;
      assert r == d;
      PaginateCollects(ExifDatasGetter(db, id), sE, log);
      PaginateCollects(FilePathsGetter(db, id), sF, a.value);
      RelationCollectsAll(TagsOnObjectsGetter(db, id), sT, b.value);
      RelationCollectsAll(LabelsOnObjectsGetter(db, id), sL, c.value);
      Reassociate4(log, Ops(Scoped(db.exifDatas, Some(id)), ExifDataConvert(sync)),
                   Ops(Scoped(db.filePaths, Some(id)), FilePathConvert(sync)),
                   Ops(Scoped(db.tagsOnObjects, Some(id)), TagOnObjectConvert(sync)),
                   Ops(Scoped(db.labelsOnObjects, Some(id)), LabelOnObjectConvert(sync)));
    }
  }

  /** With no fault anywhere, wave 2 succeeds. */
  lemma Wave2Succeeds(db: LibraryDatabase, sync: SyncManager, id: int, faults: Faults, log: seq<CrdtOperation>)
    requires WellFormed(db) && Healthy(faults)
    ensures Wave2(db, sync, id, faults, log).Ok?
  {
    var a := Run(ExifDatasGetter(db, id), SinkOf(ExifDataConvert(sync), faults, ExifDatas), -1, log, []).result;
    assert Reliable(faults.io(ExifDatas));
    PaginateComplete(ExifDatasGetter(db, id), SinkOf(ExifDataConvert(sync), faults, ExifDatas), log);
    var b := Run(FilePathsGetter(db, id), SinkOf(FilePathConvert(sync), faults, FilePaths), -1, a.value, []).result;
    assert Reliable(faults.io(FilePaths));
    PaginateComplete(FilePathsGetter(db, id), SinkOf(FilePathConvert(sync), faults, FilePaths), a.value);
    var c := RunRelation(TagsOnObjectsGetter(db, id), SinkOf(TagOnObjectConvert(sync), faults, TagsOnObjects), (-1, -1), b.value, []).result;
    assert Reliable(faults.io(TagsOnObjects));
    RelationReliable(TagsOnObjectsGetter(db, id), SinkOf(TagOnObjectConvert(sync), faults, TagsOnObjects), b.value);
    assert Reliable(faults.io(LabelsOnObjects));
    RelationReliable(LabelsOnObjectsGetter(db, id), SinkOf(LabelOnObjectConvert(sync), faults, LabelsOnObjects), c.value);
  }

  /** A missing local device is reported before the transaction starts, so
      nothing is deleted. */
  lemma MissingDeviceFailsFirst(db: LibraryDatabase, sync: SyncManager, faults: Faults, log: seq<CrdtOperation>)
    requires !faults.io(DeviceLookup).readFails(0) && FindDevice(db.devices, sync.devicePubId).None?
    ensures Backfill(db, sync, faults, log) == Err(DeviceNotFound(sync.devicePubId))
  {
  }

  /** Whenever the backfill succeeds, the local device exists and the new
      operation table is the old one without the local device's operations,
      followed by the device's operation, then wave 1's, then wave 2's. */
  lemma BackfillResult(db: LibraryDatabase, sync: SyncManager, faults: Faults, log: seq<CrdtOperation>)
    requires WellFormed(db)
    ensures var r := Backfill(db, sync, faults, log);
            r.Ok? ==> && FindDevice(db.devices, sync.devicePubId).Some?
                      && r.value == WithoutDevice(log, sync.devicePubId)
                                    + Rebuilt(db, sync, db.devices[FindDevice(db.devices, sync.devicePubId).value])
  {
    var r := Backfill(db, sync, faults, log);
    BackfillSteps(db, sync, faults, log);
    if r.Ok? {
      var device := db.devices[FindDevice(db.devices, sync.devicePubId).value];
      var wiped := WithoutDevice(log, sync.devicePubId);
      var created := wiped + [DeviceOp(sync, device.data)];
      var w1 := Wave1(db, sync, device.key, faults, created);
      Wave1Collects(db, sync, device.key, faults, created);
      Wave2Collects(db, sync, device.key, faults, w1.value);
      Reassociate3(wiped, [DeviceOp(sync, device.data)], Wave1Ops(db, sync, device.key), Wave2Ops(db, sync, device.key));
    }
  }

  /** A successful backfill went through the lookup, the wipe and the device's
      operation, then wave 1 and wave 2 in turn. */
  lemma BackfillSteps(db: LibraryDatabase, sync: SyncManager, faults: Faults, log: seq<CrdtOperation>)
    ensures var r := Backfill(db, sync, faults, log);
            r.Ok? ==> && FindDevice(db.devices, sync.devicePubId).Some?
                      && var device := db.devices[FindDevice(db.devices, sync.devicePubId).value];
                         var created := WithoutDevice(log, sync.devicePubId) + [DeviceOp(sync, device.data)];
                         && Wave1(db, sync, device.key, faults, created).Ok?
                         && r == Wave2(db, sync, device.key, faults, Wave1(db, sync, device.key, faults, created).value)
  {
  }

  /** With the local device present and no fault anywhere, the backfill succeeds. */
  lemma BackfillSucceeds(db: LibraryDatabase, sync: SyncManager, faults: Faults, log: seq<CrdtOperation>)
    requires WellFormed(db) && Healthy(faults) && FindDevice(db.devices, sync.devicePubId).Some?
    ensures Backfill(db, sync, faults, log).Ok?
  {
    assert Reliable(faults.io(DeviceLookup)) && Reliable(faults.io(DeleteOps)) && Reliable(faults.io(DeviceCreate));
    var device := LookupDevice(db, sync, faults.io(DeviceLookup)).value;
    var created := WithoutDevice(log, sync.devicePubId) + [DeviceOp(sync, device.data)];
    Wave1Succeeds(db, sync, device.key, faults, created);
    Wave2Succeeds(db, sync, device.key, faults, Wave1(db, sync, device.key, faults, created).value);
  }

  /** The operations of a page are stamped as its converter stamps them. */
  lemma OpsStampedBy<R>(rows: seq<R>, convert: R -> CrdtOperation, d: PubId)
    requires forall x :: convert(x).devicePubId == d
    ensures AllStamped(Ops(rows, convert), d)
  {
  }

  lemma StampedAppend(a: seq<CrdtOperation>, b: seq<CrdtOperation>, d: PubId)
    requires AllStamped(a, d) && AllStamped(b, d)
    ensures AllStamped(a + b, d)
  {
    assert forall i :: |a| <= i < |a + b| ==> (a + b)[i] == b[i - |a|];
  }

  lemma StampedConcat4(a: seq<CrdtOperation>, b: seq<CrdtOperation>, c: seq<CrdtOperation>, e: seq<CrdtOperation>, d: PubId)
    requires AllStamped(a, d) && AllStamped(b, d) && AllStamped(c, d) && AllStamped(e, d)
    ensures AllStamped(a + b + c + e, d)
  {
    StampedAppend(a, b, d);
    StampedAppend(a + b, c, d);
    StampedAppend(a + b + c, e, d);
  }

  lemma StatisticsIsLocal(rows: seq<KeyedRow<StorageStatisticsRecord>>, sync: SyncManager, id: int)
    ensures AllStamped(StatisticsOps(rows, sync, id), sync.devicePubId)
  {
  }

  lemma Wave1IsLocal(db: LibraryDatabase, sync: SyncManager, id: int)
    ensures AllStamped(Wave1Ops(db, sync, id), sync.devicePubId)
  {
    var d := sync.devicePubId;
    var s := StatisticsOps(db.storageStatistics, sync, id);
    var t := Ops(Scoped(db.tags, None), TagConvert(sync));
    var l := Ops(Scoped(db.locations, Some(id)), LocationConvert(sync));
    var o := Ops(Scoped(db.objects, Some(id)), ObjectConvert(sync));
    var la := Ops(Scoped(db.labels, None), LabelConvert(sync));
    OpsStampedBy(Scoped(db.tags, None), TagConvert(sync), d);
    OpsStampedBy(Scoped(db.locations, Some(id)), LocationConvert(sync), d);
    OpsStampedBy(Scoped(db.objects, Some(id)), ObjectConvert(sync), d);
    OpsStampedBy(Scoped(db.labels, None), LabelConvert(sync), d);
    StatisticsIsLocal(db.storageStatistics, sync, id);
    StampedConcat4(s, t, l, o, d);
    StampedAppend(s + t + l + o, la, d);
  }

  lemma Wave2IsLocal(db: LibraryDatabase, sync: SyncManager, id: int)
    ensures AllStamped(Wave2Ops(db, sync, id), sync.devicePubId)
  {
    var d := sync.devicePubId;
    OpsStampedBy(Scoped(db.exifDatas, Some(id)), ExifDataConvert(sync), d);
    OpsStampedBy(Scoped(db.filePaths, Some(id)), FilePathConvert(sync), d);
    OpsStampedBy(Scoped(db.tagsOnObjects, Some(id)), TagOnObjectConvert(sync), d);
    OpsStampedBy(Scoped(db.labelsOnObjects, Some(id)), LabelOnObjectConvert(sync), d);
    StampedConcat4(Ops(Scoped(db.exifDatas, Some(id)), ExifDataConvert(sync)),
                   Ops(Scoped(db.filePaths, Some(id)), FilePathConvert(sync)),
                   Ops(Scoped(db.tagsOnObjects, Some(id)), TagOnObjectConvert(sync)),
                   Ops(Scoped(db.labelsOnObjects, Some(id)), LabelOnObjectConvert(sync)), d);
  }

  /** Every operation the backfill creates is stamped with the local device. */
  lemma RebuiltIsLocal(db: LibraryDatabase, sync: SyncManager, device: KeyedRow<DeviceRecord>)
    ensures AllStamped(Rebuilt(db, sync, device), sync.devicePubId)
  {
    var d := sync.devicePubId;
    var w1 := Wave1Ops(db, sync, device.key);
    Wave1IsLocal(db, sync, device.key);
    Wave2IsLocal(db, sync, device.key);
    assert AllStamped([DeviceOp(sync, device.data)], d);
    StampedAppend([DeviceOp(sync, device.data)], w1, d);
    StampedAppend([DeviceOp(sync, device.data)] + w1, Wave2Ops(db, sync, device.key), d);
  }

  /** A successful backfill leaves the operations of every other device as
      they were, in the same order. */
  lemma BackfillKeepsForeign(db: LibraryDatabase, sync: SyncManager, faults: Faults, log: seq<CrdtOperation>)
    requires WellFormed(db) && Backfill(db, sync, faults, log).Ok?
    ensures WithoutDevice(Backfill(db, sync, faults, log).value, sync.devicePubId) == WithoutDevice(log, sync.devicePubId)
  {
    var d := sync.devicePubId;
    var device := db.devices[FindDevice(db.devices, d).value];
    BackfillResult(db, sync, faults, log);
    WithoutDeviceAppend(WithoutDevice(log, d), Rebuilt(db, sync, device), d);
    WithoutDeviceIdempotent(log, d);
    RebuiltIsLocal(db, sync, device);
    WithoutDeviceDropsStamped(Rebuilt(db, sync, device), d);
  }

  /** Backfilling twice over the same database gives the same operation
      table as backfilling once. */
  lemma BackfillIdempotent(db: LibraryDatabase, sync: SyncManager, first: Faults, second: Faults, log: seq<CrdtOperation>)
    requires WellFormed(db) && Backfill(db, sync, first, log).Ok?
    requires Backfill(db, sync, second, Backfill(db, sync, first, log).value).Ok?
    ensures Backfill(db, sync, second, Backfill(db, sync, first, log).value) == Backfill(db, sync, first, log)
  {
    var d := sync.devicePubId;
    var once := Backfill(db, sync, first, log).value;
    var device := db.devices[FindDevice(db.devices, d).value];
    BackfillResult(db, sync, first, log);
    BackfillResult(db, sync, second, once);
    BackfillKeepsForeign(db, sync, first, log);
  }
}
