/** The per-table converters of the backfill: each turns one row, with the
    related rows its getter includes, into the create operation that
    reproduces it. Columns are kept as the values their entries carry; an
    included relation is the related row's public id, if any. */
module Converters {
  import opened Wrappers
  import opened SyncModel
  import opened Pagination

  datatype DeviceRecord = DeviceRecord(
    pubId: PubId, name: Option<Value>, os: Option<Value>, hardwareModel: Option<Value>,
    timestamp: Option<Value>, dateCreated: Option<Value>, dateDeleted: Option<Value>)

  datatype StorageStatisticsRecord = StorageStatisticsRecord(
    pubId: PubId, totalCapacity: Value, availableCapacity: Value, device: Option<PubId>)

  datatype TagRecord = TagRecord(
    pubId: PubId, name: Option<Value>, color: Option<Value>, dateCreated: Option<Value>,
    dateModified: Option<Value>)

  datatype LocationRecord = LocationRecord(
    pubId: PubId, name: Option<Value>, path: Option<Value>, totalCapacity: Option<Value>,
    availableCapacity: Option<Value>, sizeInBytes: Option<Value>, isArchived: Option<Value>,
    generatePreviewMedia: Option<Value>, syncPreviewMedia: Option<Value>, hidden: Option<Value>,
    dateCreated: Option<Value>, instance: Option<PubId>, device: Option<PubId>)

  datatype ObjectRecord = ObjectRecord(
    pubId: PubId, kind: Option<Value>, hidden: Option<Value>, favorite: Option<Value>,
    important: Option<Value>, note: Option<Value>, dateCreated: Option<Value>,
    dateAccessed: Option<Value>, device: Option<PubId>)

  /** An exif record has no public id of its own: its included object's is required. */
  datatype ExifDataRecord = ExifDataRecord(
    objectPubId: PubId, resolution: Option<Value>, mediaDate: Option<Value>,
    mediaLocation: Option<Value>, cameraData: Option<Value>, artist: Option<Value>,
    description: Option<Value>, copyright: Option<Value>, exifVersion: Option<Value>,
    epochTime: Option<Value>, device: Option<PubId>)

  datatype FilePathRecord = FilePathRecord(
    pubId: PubId, isDir: Option<Value>, casId: Option<Value>, integrityChecksum: Option<Value>,
    location: Option<PubId>, obj: Option<PubId>, materializedPath: Option<Value>,
    name: Option<Value>, extension: Option<Value>, hidden: Option<Value>,
    sizeInBytesBytes: Option<Value>, inode: Option<Value>, dateCreated: Option<Value>,
    dateModified: Option<Value>, dateIndexed: Option<Value>, device: Option<PubId>)

  /** A label is identified by its unique name. */
  datatype LabelRecord = LabelRecord(name: string, dateCreated: Option<Value>, dateModified: Option<Value>)

  datatype TagOnObjectRecord = TagOnObjectRecord(
    tagPubId: PubId, objectPubId: PubId, dateCreated: Option<Value>, device: Option<PubId>)

  /** Unlike a tag-on-object link, a label-on-object link always has a creation date. */
  datatype LabelOnObjectRecord = LabelOnObjectRecord(
    labelName: string, objectPubId: PubId, dateCreated: Value, device: Option<PubId>)

  // ---------------------------------------------------------------- references

  /** An included device as the value of a `device` entry. */
  function DeviceRef(d: Option<PubId>): Option<Value> {
    match d
    case None => None
    case Some(p) => Some(Ref(DeviceId(p)))
  }

  function InstanceRef(i: Option<PubId>): Option<Value> {
    match i
    case None => None
    case Some(p) => Some(Ref(InstanceId(p)))
  }

  function LocationRef(l: Option<PubId>): Option<Value> {
    match l
    case None => None
    case Some(p) => Some(Ref(LocationId(p)))
  }

  function ObjectRef(o: Option<PubId>): Option<Value> {
    match o
    case None => None
    case Some(p) => Some(Ref(ObjectId(p)))
  }

  // ---------------------------------------------------------------- optional columns, in listed order

  function DeviceColumns(d: DeviceRecord): seq<Option<Entry>> {
    [ OptionSyncEntry(d.name, "name"), OptionSyncEntry(d.os, "os"),
      OptionSyncEntry(d.hardwareModel, "hardware_model"), OptionSyncEntry(d.timestamp, "timestamp"),
      OptionSyncEntry(d.dateCreated, "date_created"), OptionSyncEntry(d.dateDeleted, "date_deleted") ]
  }

  function TagColumns(t: TagRecord): seq<Option<Entry>> {
    [ OptionSyncEntry(t.name, "name"), OptionSyncEntry(t.color, "color"),
      OptionSyncEntry(t.dateCreated, "date_created"), OptionSyncEntry(t.dateModified, "date_modified") ]
  }

  function LocationColumns(l: LocationRecord): seq<Option<Entry>> {
    [ OptionSyncEntry(l.name, "name"), OptionSyncEntry(l.path, "path"),
      OptionSyncEntry(l.totalCapacity, "total_capacity"),
      OptionSyncEntry(l.availableCapacity, "available_capacity"),
      OptionSyncEntry(l.sizeInBytes, "size_in_bytes"), OptionSyncEntry(l.isArchived, "is_archived"),
      OptionSyncEntry(l.generatePreviewMedia, "generate_preview_media"),
      OptionSyncEntry(l.syncPreviewMedia, "sync_preview_media"), OptionSyncEntry(l.hidden, "hidden"),
      OptionSyncEntry(l.dateCreated, "date_created"), OptionSyncEntry(InstanceRef(l.instance), "instance"),
      OptionSyncEntry(DeviceRef(l.device), "device") ]
  }

  function ObjectColumns(o: ObjectRecord): seq<Option<Entry>> {
    [ OptionSyncEntry(o.kind, "kind"), OptionSyncEntry(o.hidden, "hidden"),
      OptionSyncEntry(o.favorite, "favorite"), OptionSyncEntry(o.important, "important"),
      OptionSyncEntry(o.note, "note"), OptionSyncEntry(o.dateCreated, "date_created"),
      OptionSyncEntry(o.dateAccessed, "date_accessed"), OptionSyncEntry(DeviceRef(o.device), "device") ]
  }

  function ExifDataColumns(e: ExifDataRecord): seq<Option<Entry>> {
    [ OptionSyncEntry(e.resolution, "resolution"), OptionSyncEntry(e.mediaDate, "media_date"),
      OptionSyncEntry(e.mediaLocation, "media_location"), OptionSyncEntry(e.cameraData, "camera_data"),
      OptionSyncEntry(e.artist, "artist"), OptionSyncEntry(e.description, "description"),
      OptionSyncEntry(e.copyright, "copyright"), OptionSyncEntry(e.exifVersion, "exif_version"),
      OptionSyncEntry(e.epochTime, "epoch_time"), OptionSyncEntry(DeviceRef(e.device), "device") ]
  }

  function FilePathColumns(f: FilePathRecord): seq<Option<Entry>> {
    [ OptionSyncEntry(f.isDir, "is_dir"), OptionSyncEntry(f.casId, "cas_id"),
      OptionSyncEntry(f.integrityChecksum, "integrity_checksum"),
      OptionSyncEntry(LocationRef(f.location), "location"), OptionSyncEntry(ObjectRef(f.obj), "object"),
      OptionSyncEntry(f.materializedPath, "materialized_path"), OptionSyncEntry(f.name, "name"),
      OptionSyncEntry(f.extension, "extension"), OptionSyncEntry(f.hidden, "hidden"),
      OptionSyncEntry(f.sizeInBytesBytes, "size_in_bytes_bytes"), OptionSyncEntry(f.inode, "inode"),
      OptionSyncEntry(f.dateCreated, "date_created"), OptionSyncEntry(f.dateModified, "date_modified"),
      OptionSyncEntry(f.dateIndexed, "date_indexed"), OptionSyncEntry(DeviceRef(f.device), "device") ]
  }

  function LabelColumns(l: LabelRecord): seq<Option<Entry>> {
    [ OptionSyncEntry(l.dateCreated, "date_created"), OptionSyncEntry(l.dateModified, "date_modified") ]
  }

  // ---------------------------------------------------------------- converters

  /** `backfill_device`'s operation: a shared create of the local device,
      whose entries are exactly its present columns. */
  function DeviceOp(sync: SyncManager, d: DeviceRecord): (op: CrdtOperation)
    ensures op.devicePubId == sync.devicePubId && op.kind == SharedCreate
    ensures op.target == DeviceId(d.pubId)
    ensures forall e :: e in op.entries <==> Some(e) in DeviceColumns(d)
    ensures op.entries == Present(DeviceColumns(d))
  {
    SharedCreateOp(sync, DeviceId(d.pubId), ChainOptional([], DeviceColumns(d)))
  }

  /** `backfill_storage_statistics`'s operation: the two capacities always
      come first, in that order, then the device reference when there is one. */
  function StorageStatisticsOp(sync: SyncManager, s: StorageStatisticsRecord): (op: CrdtOperation)
    ensures op.devicePubId == sync.devicePubId && op.kind == SharedCreate
    ensures op.target == StorageStatisticsId(s.pubId)
    ensures |op.entries| == if s.device.Some? then 3 else 2
    ensures op.entries[0] == Entry("total_capacity", s.totalCapacity)
    ensures op.entries[1] == Entry("available_capacity", s.availableCapacity)
    ensures s.device.Some? ==> op.entries[2] == Entry("device", Ref(DeviceId(s.device.value)))
  {
    var required := [SyncEntry(s.totalCapacity, "total_capacity"), SyncEntry(s.availableCapacity, "available_capacity")];
    var optional := [OptionSyncEntry(DeviceRef(s.device), "device")];
    assert Present(optional[1..]) == [];
    SharedCreateOp(sync, StorageStatisticsId(s.pubId), ChainOptional(required, optional))
  }

  function TagOp(sync: SyncManager, t: TagRecord): (op: CrdtOperation)
    ensures op.devicePubId == sync.devicePubId && op.kind == SharedCreate
    ensures op.target == TagId(t.pubId)
    ensures forall e :: e in op.entries <==> Some(e) in TagColumns(t)
    ensures op.entries == Present(TagColumns(t))
  {
    SharedCreateOp(sync, TagId(t.pubId), ChainOptional([], TagColumns(t)))
  }

  function LocationOp(sync: SyncManager, l: LocationRecord): (op: CrdtOperation)
    ensures op.devicePubId == sync.devicePubId && op.kind == SharedCreate
    ensures op.target == LocationId(l.pubId)
    ensures forall e :: e in op.entries <==> Some(e) in LocationColumns(l)
    ensures op.entries == Present(LocationColumns(l))
  {
    SharedCreateOp(sync, LocationId(l.pubId), ChainOptional([], LocationColumns(l)))
  }

  function ObjectOp(sync: SyncManager, o: ObjectRecord): (op: CrdtOperation)
    ensures op.devicePubId == sync.devicePubId && op.kind == SharedCreate
    ensures op.target == ObjectId(o.pubId)
    ensures forall e :: e in op.entries <==> Some(e) in ObjectColumns(o)
    ensures op.entries == Present(ObjectColumns(o))
  {
    SharedCreateOp(sync, ObjectId(o.pubId), ChainOptional([], ObjectColumns(o)))
  }

  /** An exif record is identified through its object. */
  function ExifDataOp(sync: SyncManager, e: ExifDataRecord): (op: CrdtOperation)
    ensures op.devicePubId == sync.devicePubId && op.kind == SharedCreate
    ensures op.target == ExifDataId(ObjectId(e.objectPubId))
    ensures forall x :: x in op.entries <==> Some(x) in ExifDataColumns(e)
    ensures op.entries == Present(ExifDataColumns(e))
  {
    SharedCreateOp(sync, ExifDataId(ObjectId(e.objectPubId)), ChainOptional([], ExifDataColumns(e)))
  }

  function FilePathOp(sync: SyncManager, f: FilePathRecord): (op: CrdtOperation)
    ensures op.devicePubId == sync.devicePubId && op.kind == SharedCreate
    ensures op.target == FilePathId(f.pubId)
    ensures forall e :: e in op.entries <==> Some(e) in FilePathColumns(f)
    ensures op.entries == Present(FilePathColumns(f))
  {
    SharedCreateOp(sync, FilePathId(f.pubId), ChainOptional([], FilePathColumns(f)))
  }

  /** A label is identified by its name. */
  function LabelOp(sync: SyncManager, l: LabelRecord): (op: CrdtOperation)
    ensures op.devicePubId == sync.devicePubId && op.kind == SharedCreate
    ensures op.target == LabelId(l.name)
    ensures forall e :: e in op.entries <==> Some(e) in LabelColumns(l)
    ensures op.entries == Present(LabelColumns(l))
  {
    SharedCreateOp(sync, LabelId(l.name), ChainOptional([], LabelColumns(l)))
  }

  /** A relation create for the pair (tag, object); the creation date is
      optional and, when present, comes first. */
  function TagOnObjectOp(sync: SyncManager, t: TagOnObjectRecord): (op: CrdtOperation)
    ensures op.devicePubId == sync.devicePubId && op.kind == RelationCreate
    ensures op.target == TagOnObjectId(TagId(t.tagPubId), ObjectId(t.objectPubId))
    ensures |op.entries| == (if t.dateCreated.Some? then 1 else 0) + (if t.device.Some? then 1 else 0)
    ensures t.dateCreated.Some? ==> op.entries[0] == Entry("date_created", t.dateCreated.value)
    ensures t.dateCreated.None? ==> forall i :: 0 <= i < |op.entries| ==> op.entries[i].field != "date_created"
    ensures t.device.Some? ==> op.entries[|op.entries| - 1] == Entry("device", Ref(DeviceId(t.device.value)))
  {
    var optional := [OptionSyncEntry(t.dateCreated, "date_created"), OptionSyncEntry(DeviceRef(t.device), "device")];
    assert optional[1..][1..] == [];
    assert Present(optional[1..][1..]) == [];
    assert Present(optional[1..]) == (if t.device.Some? then [Entry("device", Ref(DeviceId(t.device.value)))] else []);
    assert ChainOptional([], optional)
        == (if t.dateCreated.Some? then [Entry("date_created", t.dateCreated.value)] else [])
         + (if t.device.Some? then [Entry("device", Ref(DeviceId(t.device.value)))] else []);
    RelationCreateOp(sync, TagOnObjectId(TagId(t.tagPubId), ObjectId(t.objectPubId)), ChainOptional([], optional))
  }

  /** A relation create for the pair (label, object); the creation date is
      required and always comes first. */
  function LabelOnObjectOp(sync: SyncManager, l: LabelOnObjectRecord): (op: CrdtOperation)
    ensures op.devicePubId == sync.devicePubId && op.kind == RelationCreate
    ensures op.target == LabelOnObjectId(LabelId(l.labelName), ObjectId(l.objectPubId))
    ensures |op.entries| == if l.device.Some? then 2 else 1
    ensures op.entries[0] == Entry("date_created", l.dateCreated)
    ensures l.device.Some? ==> op.entries[1] == Entry("device", Ref(DeviceId(l.device.value)))
  {
    var optional := [OptionSyncEntry(DeviceRef(l.device), "device")];
    assert Present(optional[1..]) == [];
    RelationCreateOp(sync, LabelOnObjectId(LabelId(l.labelName), ObjectId(l.objectPubId)),
                     ChainOptional([SyncEntry(l.dateCreated, "date_created")], optional))
  }

  // ---------------------------------------------------------------- the `operations` closures' row mapping

  function TagConvert(sync: SyncManager): (convert: KeyedRow<TagRecord> -> CrdtOperation)
    ensures forall x :: convert(x).devicePubId == sync.devicePubId
  {
    (r: KeyedRow<TagRecord>) => TagOp(sync, r.data)
  }

  function LocationConvert(sync: SyncManager): (convert: KeyedRow<LocationRecord> -> CrdtOperation)
    ensures forall x :: convert(x).devicePubId == sync.devicePubId
  {
    (r: KeyedRow<LocationRecord>) => LocationOp(sync, r.data)
  }

  function ObjectConvert(sync: SyncManager): (convert: KeyedRow<ObjectRecord> -> CrdtOperation)
    ensures forall x :: convert(x).devicePubId == sync.devicePubId
  {
    (r: KeyedRow<ObjectRecord>) => ObjectOp(sync, r.data)
  }

  function ExifDataConvert(sync: SyncManager): (convert: KeyedRow<ExifDataRecord> -> CrdtOperation)
    ensures forall x :: convert(x).devicePubId == sync.devicePubId
  {
    (r: KeyedRow<ExifDataRecord>) => ExifDataOp(sync, r.data)
  }

  function FilePathConvert(sync: SyncManager): (convert: KeyedRow<FilePathRecord> -> CrdtOperation)
    ensures forall x :: convert(x).devicePubId == sync.devicePubId
  {
    (r: KeyedRow<FilePathRecord>) => FilePathOp(sync, r.data)
  }

  function LabelConvert(sync: SyncManager): (convert: KeyedRow<LabelRecord> -> CrdtOperation)
    ensures forall x :: convert(x).devicePubId == sync.devicePubId
  {
    (r: KeyedRow<LabelRecord>) => LabelOp(sync, r.data)
  }

  function TagOnObjectConvert(sync: SyncManager): (convert: RelationRow<TagOnObjectRecord> -> CrdtOperation)
    ensures forall x :: convert(x).devicePubId == sync.devicePubId
  {
    (r: RelationRow<TagOnObjectRecord>) => TagOnObjectOp(sync, r.data)
  }

  function LabelOnObjectConvert(sync: SyncManager): (convert: RelationRow<LabelOnObjectRecord> -> CrdtOperation)
    ensures forall x :: convert(x).devicePubId == sync.devicePubId
  {
    (r: RelationRow<LabelOnObjectRecord>) => LabelOnObjectOp(sync, r.data)
  }
}
