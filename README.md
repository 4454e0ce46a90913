# Spacedrive sync backfill and location metadata, in Dafny

This project models three parts of Spacedrive's core and proves properties of each.

- **The sync backfill** (`core/crates/sync/src/backfill.rs`). Before a library can sync, `backfill_operations` does the following:
  - it finds the local device row;
  - it deletes every CRDT operation the local device has recorded;
  - it writes a shared-create operation for the device;
  - it rebuilds one create operation per syncable row, in two waves.
    - Wave 1 covers storage statistics, tags, locations, objects and labels.
    - Wave 2 covers exif data, file paths, tags on objects and labels on objects.
  - Rows are read with two cursor paginators. `paginate` works over tables keyed by one id. `paginate_relation` works over join tables keyed by a pair of ids.
  - Each row is turned into an operation by a per-table converter, whose entry list is built with `chain_optional_iter`.
- **The location metadata file** (`core/src/location/metadata.rs`). `SpacedriveLocationMetadataFile` holds the path of a location's `.spacedrive` file and a map from library id to the location's public id, name, path and timestamps in that library. Its operations change the map and end by writing the file, deleting it, or leaving it alone.
- **`MaybeUndefined<T>`** (`core/src/util/maybe_undefined.rs`). A field of an update request is either left out, explicitly null, or set. The type has a conversion to `Option<Option<T>>`, a `transpose`, and a serde form that writes the payload of `Value` and writes none (`serialize_none`) for both `Undefined` and `Null`, and reads through `Option<T>`.

Files:

| file | module | contents |
|---|---|---|
| `wrappers.dfy` | `Wrappers` | `Option` and `Result`, usable with `:-` |
| `maybe_undefined.dfy` | `MaybeUndefined` | the enum, its queries and conversions, serde round trips |
| `sync_model.dfy` | `SyncModel` | sync identities, entries, operations, `chain_optional_iter`, `crdt_op_unchecked_db` |
| `pagination.dfy` | `Pagination` | getters over in-memory tables, the two paginators as loops, their completeness, termination and turn-by-turn behaviour |
| `converters.dfy` | `Converters` | the row records and the per-table converters |
| `backfill.dfy` | `Backfill` | the library database, the wipe, the two waves, `backfill_operations` and its ordering, locality and idempotence |
| `location_metadata.dfy` | `LocationMetadata` | the file's fields, one transition function per operation, and the class whose methods follow them |

How the source's effects are represented:

- **Operation table.** The `crdt_operation` table is a sequence of operations. A successful `create_many` appends to it, and `delete_many` filters it.
- **Faults.** Every query and write may fail. This is modelled by a fault oracle per step, indexed by the number of the getter call. `crdt_op_unchecked_db` may also fail, modelled by an oracle saying which operations can be serialized.
- **Traces.** Each paginator returns the cursor of every getter call, and the size of every batch passed to `create_many`.
- **State-changing methods.** Each class method is proved to produce exactly the result and new fields of a pure transition function. The source's promises are then proved about that function.

Two behaviours of the paginators are worth stating, and the model keeps both exactly as the code has them:

- **Number of getter calls.** The loop stops only after a getter call returns an empty page, and that empty page is still passed to `create_many`. A table of N rows fetched k at a time takes ⌈N/k⌉ + 1 getter calls, the last on an empty page. A getter without `take` takes 2 calls, or 1 when nothing is in scope. `Pagination.PageCountClosed` and `Pagination.PageCountUnlimited` state this, and `Pagination.PageCountExample` works it out for 2,500 rows.
- **Relation filter.** The join-table getters filter each id separately (`tag_id > g AND object_id > i`), which is not a lexicographic cursor over the pair. `Pagination.ComponentwiseNotLexicographic` shows a row on which the two differ. Those getters have no `take`, so the first call returns every row in scope and the second returns none, and no row is lost.

## Model

| member | source | states |
|---|---|---|
| MaybeUndefined.IsUndefined | core/src/util/maybe_undefined.rs:18-20 | undefined exactly when the `Option<Option<T>>` form is `None` |
| MaybeUndefined.IsDefined | core/src/util/maybe_undefined.rs:18-25 | defined exactly when not undefined, and exactly when the `Option<Option<T>>` form is `Some` |
| MaybeUndefined.UnwrapOr | core/src/util/maybe_undefined.rs:27-32 | `Value(v)` gives v; `Undefined` and `Null` give the fallback |
| MaybeUndefined.ToOptionOption | core/src/util/maybe_undefined.rs:35-43 | `Undefined` is `None`, `Null` is `Some(None)`, `Value(v)` is `Some(Some(v))` |
| MaybeUndefined.FromAfterTo | core/src/util/maybe_undefined.rs:35-43 | the inverse conversion recovers every value |
| MaybeUndefined.ToAfterFrom | core/src/util/maybe_undefined.rs:35-43 | every `Option<Option<T>>` is the image of exactly one value |
| MaybeUndefined.ToOptionOptionInjective | core/src/util/maybe_undefined.rs:35-43 | distinct values convert to distinct options |
| MaybeUndefined.Transpose | core/src/util/maybe_undefined.rs:56-63 | `Undefined` and `Null` go to `Ok` of themselves, `Value(Ok v)` to `Ok(Value v)`, `Value(Err e)` to `Err e`; it fails exactly on `Value(Err _)` |
| MaybeUndefined.TransposeOfMapOk | core/src/util/maybe_undefined.rs:56-63 | transposing a value whose payload is wrapped in `Ok` gives `Ok` of the original |
| MaybeUndefined.Serialize | core/src/util/maybe_undefined.rs:66-73 | a payload is emitted exactly for `Value`, and it is that value |
| MaybeUndefined.Deserialize | core/src/util/maybe_undefined.rs:75-87 | never `Undefined`; none gives `Null`, some v gives `Value(v)` |
| MaybeUndefined.SerializeForgetsUndefined | core/src/util/maybe_undefined.rs:66-73 | `Undefined` and `Null` serialize identically |
| MaybeUndefined.DeserializeAfterSerialize | core/src/util/maybe_undefined.rs:66-87 | the round trip restores `Null` and `Value(v)` and turns `Undefined` into `Null` |
| MaybeUndefined.SerializeAfterDeserialize | core/src/util/maybe_undefined.rs:66-87 | the round trip through the type loses nothing |
| SyncModel.SyncEntry | core/crates/sync/src/backfill.rs:130-131 | an entry for the named field carrying the value |
| SyncModel.OptionSyncEntry | core/crates/sync/src/backfill.rs:86-97 | an entry exists exactly when the value does, and carries the field and value |
| SyncModel.Present | core/crates/sync/src/backfill.rs:86-97 | no more entries than listed fields; an entry is there exactly when some field carries it |
| SyncModel.ChainOptional | core/crates/sync/src/backfill.rs:128-141 | the required entries come first and unchanged; the rest are exactly the present optional entries |
| SyncModel.PresentAppend | core/crates/sync/src/backfill.rs:86-97 | filtering a concatenated field list filters each part, order kept |
| SyncModel.AbsentFieldOmitted | core/crates/sync/src/backfill.rs:86-97 | an absent field contributes no entry: deleting it from the list changes nothing |
| SyncModel.PresentFieldKept | core/crates/sync/src/backfill.rs:86-97 | a present field contributes exactly its entry, after those of earlier fields and before those of later ones |
| SyncModel.AllAbsentLeavesRequired | core/crates/sync/src/backfill.rs:128-141 | with every optional value absent only the required entries remain |
| SyncModel.SharedCreateOp | core/crates/sync/src/backfill.rs:82-98 | a shared create of the given identity and entries, stamped with the local device |
| SyncModel.RelationCreateOp | core/crates/sync/src/backfill.rs:553-561 | a relation create of the given identity and entries, stamped with the local device |
| SyncModel.CrdtOpUncheckedDb | core/crates/sync/src/backfill.rs:230-233 | succeeds exactly for serializable operations and returns the operation, else a serialization error |
| Pagination.Scoped | core/crates/sync/src/backfill.rs:249-250 | every row kept satisfies the getter's device condition |
| Pagination.Above | core/crates/sync/src/backfill.rs:249 | every row kept has an id above the cursor |
| Pagination.ScopedExactly | core/crates/sync/src/backfill.rs:249-250 | the device condition keeps exactly the table's rows in scope: every row kept is from the table, and every row in scope is kept |
| Pagination.AboveExactly | core/crates/sync/src/backfill.rs:249 | `id > cursor` keeps exactly the rows above the cursor: every row kept is from the input, and every row above the cursor is kept |
| Pagination.Fetch | core/crates/sync/src/backfill.rs:247-254 | a page holds only rows above the cursor, at most `take` of them |
| Pagination.FetchInScope | core/crates/sync/src/backfill.rs:247-254 | whatever the cursor, every row a getter returns satisfies its device condition |
| Pagination.Ops | core/crates/sync/src/backfill.rs:216-231 | one operation per row, the i-th being the i-th row's |
| Pagination.OpsAppend | core/crates/sync/src/backfill.rs:216-231 | converting two pages converts their concatenation |
| Pagination.EncodePage | core/crates/sync/src/backfill.rs:230-233 | a page is serialized exactly when every row's operation is, and then in full and in order; otherwise the error is a serialization error and no batch exists |
| Pagination.Paginate | core/crates/sync/src/backfill.rs:149-175 | the loop's result and turns are exactly the specified pagination from cursor -1 |
| Pagination.FetchAdvances | core/crates/sync/src/backfill.rs:169-170 | after a non-empty page, fewer rows lie above the new cursor (termination) |
| Pagination.CursorSkipsPage | core/crates/sync/src/backfill.rs:169-170 | on an ascending table a page is a prefix of the rows left, and the rows above its last id are exactly the rest |
| Pagination.PageCountClosed | core/crates/sync/src/backfill.rs:163-172 | with `take(k)`, N rows take ⌈N/k⌉ + 1 getter calls |
| Pagination.PageCountUnlimited | core/crates/sync/src/backfill.rs:163-172 | without `take`, one call for an empty scope and two otherwise |
| Pagination.PageCountExample | core/crates/sync/src/backfill.rs:163-172 | 2,500 rows take 4 getter calls with `take(1000)` and 2 without |
| Pagination.RunCollectsAll | core/crates/sync/src/backfill.rs:163-172 | whenever pagination succeeds, every row in scope above the cursor has been written once, in ascending id order, after the existing operations |
| Pagination.RunPageCount | core/crates/sync/src/backfill.rs:163-172 | with no fault, the number of getter calls is `PageCount`: one per full page, one for a partial page, one empty |
| Pagination.PaginateComplete | core/crates/sync/src/backfill.rs:163-172 | with no fault and non-negative ids: success, every row in scope written once in order, `PageCount` calls, the last with an empty batch |
| Pagination.PaginateCollects | core/crates/sync/src/backfill.rs:163-172 | from cursor -1 with non-negative ids, any success has written every row in scope, in order |
| Pagination.LastTurn | core/crates/sync/src/backfill.rs:169-171 | a failed query, a page that cannot be serialized, a failed write or an empty page ends the loop on that turn, with the first error met; `create_many` is called exactly when the query succeeded and the page serialized |
| Pagination.PaginateTurns | core/crates/sync/src/backfill.rs:163-172 | the first call uses -1; every turn but the last went through on a non-empty page, and the next cursor is that page's last id; the last turn is the one that stopped the loop; success only appends |
| Pagination.AboveBoth | core/crates/sync/src/backfill.rs:535-536 | every row kept has both ids above the cursor's |
| Pagination.AboveBothExactly | core/crates/sync/src/backfill.rs:535-536 | the filter keeps exactly the rows with both ids above the cursor's |
| Pagination.FetchRelation | core/crates/sync/src/backfill.rs:533-541 | a join-table page holds only rows with both ids above the cursor's |
| Pagination.FetchRelationExactly | core/crates/sync/src/backfill.rs:533-541 | a join-table page holds exactly the table's rows that are in scope and have both ids above the cursor's |
| Pagination.PaginateRelation | core/crates/sync/src/backfill.rs:177-203 | the loop's result and turns are exactly the specified pagination from cursor (-1, -1) |
| Pagination.FetchRelationInScope | core/crates/sync/src/backfill.rs:533-540 | whatever the cursor, every row a join-table getter returns satisfies its device condition |
| Pagination.FetchRelationAdvances | core/crates/sync/src/backfill.rs:197-198 | after a non-empty page, the next call returns fewer rows (termination) |
| Pagination.RelationCollectsAll | core/crates/sync/src/backfill.rs:191-200 | on a join table in (group, item) order with non-negative ids, at most two calls are made, the first from (-1, -1) and the second from the last row's ids; any success has written every row in scope once, in order |
| Pagination.RelationReliable | core/crates/sync/src/backfill.rs:191-200 | with no fault such a pagination succeeds with two calls, or one when nothing is in scope |
| Pagination.ComponentwiseNotLexicographic | core/crates/sync/src/backfill.rs:535-536 | a row after the cursor in (group, item) order can fail the filter |
| Converters.DeviceOp | core/crates/sync/src/backfill.rs:82-98 | a shared create of `DeviceId(pub_id)` stamped with the local device, whose entries are the present device columns, one per present column, in column order |
| Converters.StorageStatisticsOp | core/crates/sync/src/backfill.rs:124-145 | a shared create of the statistics' id whose first entries are `total_capacity` then `available_capacity`, followed by the device reference exactly when there is one |
| Converters.TagOp | core/crates/sync/src/backfill.rs:218-229 | a shared create of `TagId(pub_id)` whose entries are the present tag columns, one per present column, in column order |
| Converters.LocationOp | core/crates/sync/src/backfill.rs:267-308 | a shared create of `LocationId(pub_id)` whose entries are the present location columns, with instance and device as references, one per present column, in column order |
| Converters.ObjectOp | core/crates/sync/src/backfill.rs:342-365 | a shared create of `ObjectId(pub_id)` whose entries are the present object columns, one per present column, in column order |
| Converters.ExifDataOp | core/crates/sync/src/backfill.rs:402-431 | a shared create identified by the owning object's id, whose entries are the present exif columns, one per present column, in column order |
| Converters.FilePathOp | core/crates/sync/src/backfill.rs:466-515 | a shared create of `FilePathId(pub_id)` whose entries are the present columns, with location, object and device as references, one per present column, in column order |
| Converters.LabelOp | core/crates/sync/src/backfill.rs:599-609 | a shared create identified by the label's name, whose entries are its present dates, in column order |
| Converters.TagOnObjectOp | core/crates/sync/src/backfill.rs:552-576 | a relation create of (tag id, object id), with one entry per present value; `date_created` comes first when present and does not appear when absent |
| Converters.LabelOnObjectOp | core/crates/sync/src/backfill.rs:646-667 | a relation create of (label name, object id) whose first entry is always `date_created`, followed by the device reference exactly when there is one |
| Converters.TagConvert | core/crates/sync/src/backfill.rs:216-229 | every tag operation is stamped with the local device |
| Converters.LocationConvert | core/crates/sync/src/backfill.rs:265-308 | every location operation is stamped with the local device |
| Converters.ObjectConvert | core/crates/sync/src/backfill.rs:340-365 | every object operation is stamped with the local device |
| Converters.ExifDataConvert | core/crates/sync/src/backfill.rs:400-431 | every exif operation is stamped with the local device |
| Converters.FilePathConvert | core/crates/sync/src/backfill.rs:464-515 | every file path operation is stamped with the local device |
| Converters.LabelConvert | core/crates/sync/src/backfill.rs:597-609 | every label operation is stamped with the local device |
| Converters.TagOnObjectConvert | core/crates/sync/src/backfill.rs:550-576 | every tag-on-object operation is stamped with the local device |
| Converters.LabelOnObjectConvert | core/crates/sync/src/backfill.rs:644-667 | every label-on-object operation is stamped with the local device |
| Backfill.FindDevice | core/crates/sync/src/backfill.rs:26-29 | finds a row with the public id when there is one; none means no row has it |
| Backfill.LookupDevice | core/crates/sync/src/backfill.rs:26-31 | a query error, else `DeviceNotFound` with the local public id exactly when no row has it, else the local device's row |
| Backfill.WithoutDevice | core/crates/sync/src/backfill.rs:40-45 | exactly the operations of other devices remain |
| Backfill.DeleteDeviceOps | core/crates/sync/src/backfill.rs:40-45 | on success the table holds only other devices' operations, else a database error |
| Backfill.WithoutDeviceAppend | core/crates/sync/src/backfill.rs:40-45 | wiping a concatenation wipes each part, order kept |
| Backfill.WithoutDeviceDropsStamped | core/crates/sync/src/backfill.rs:40-45 | every operation of the device is removed |
| Backfill.WithoutDeviceKeepsForeign | core/crates/sync/src/backfill.rs:40-45 | operations of other devices are kept, in order |
| Backfill.WithoutDeviceIdempotent | core/crates/sync/src/backfill.rs:40-45 | wiping twice is wiping once |
| Backfill.BackfillDevice | core/crates/sync/src/backfill.rs:76-102 | succeeds exactly when the device operation serializes and its write succeeds, and then appends it; an unserializable operation gives a serialization error |
| Backfill.FirstOnDevice | core/crates/sync/src/backfill.rs:112-116 | the first row of the device, or none when no row is the device's |
| Backfill.StorageStatisticsOutcome | core/crates/sync/src/backfill.rs:110-146 | it succeeds exactly when the query succeeds and either the device has no statistics row or that row's operation serializes and its write succeeds; an operation that does not serialize gives a serialization error |
| Backfill.BackfillStorageStatistics | core/crates/sync/src/backfill.rs:105-147 | a failed query is a database error; with no statistics row of the device it succeeds and appends nothing; any success appends the operation of the device's first statistics row; with no fault it succeeds |
| Backfill.BackfillOperations | core/crates/sync/src/backfill.rs:21-74 | on success the operation table becomes the specified backfill's; on any error it is left as it was |
| Backfill.TagsGetter | core/crates/sync/src/backfill.rs:208-212 | no device condition and no `take`: from any cursor, every tag above it |
| Backfill.LocationsGetter | core/crates/sync/src/backfill.rs:247-253 | only the local device's locations, at most 1000 per call |
| Backfill.ObjectsGetter | core/crates/sync/src/backfill.rs:326-332 | only the local device's objects, at most 1000 per call |
| Backfill.LabelsGetter | core/crates/sync/src/backfill.rs:589-593 | no device condition and no `take`: from any cursor, every label above it |
| Backfill.ExifDatasGetter | core/crates/sync/src/backfill.rs:388-391 | only the local device's exif data, at most 1000 per call |
| Backfill.FilePathsGetter | core/crates/sync/src/backfill.rs:449-454 | only the local device's file paths, and no `take`: every one of them above the cursor |
| Backfill.TagsOnObjectsGetter | core/crates/sync/src/backfill.rs:533-540 | only the local device's tags on objects |
| Backfill.LabelsOnObjectsGetter | core/crates/sync/src/backfill.rs:627-634 | only the local device's labels on objects |
| Backfill.UnscopedKeepsAll | core/crates/sync/src/backfill.rs:208-212 | the tag and label getters, having no device condition, see the whole table |
| Backfill.Wave1Collects | core/crates/sync/src/backfill.rs:49-57 | any success of wave 1 has appended the statistics operation and then every row in scope of tags, locations, objects and labels |
| Backfill.Wave1Succeeds | core/crates/sync/src/backfill.rs:49-57 | with no fault, wave 1 succeeds |
| Backfill.Wave2Collects | core/crates/sync/src/backfill.rs:59-66 | any success of wave 2 has appended every row in scope of exif data, file paths, tags on objects and labels on objects |
| Backfill.Wave2Succeeds | core/crates/sync/src/backfill.rs:59-66 | with no fault, wave 2 succeeds |
| Backfill.MissingDeviceFailsFirst | core/crates/sync/src/backfill.rs:26-31 | a missing local device gives `DeviceNotFound` before anything is deleted |
| Backfill.BackfillResult | core/crates/sync/src/backfill.rs:26-66 | any success found the local device and leaves the old table without the device's operations, then the device operation, then wave 1's, then wave 2's |
| Backfill.BackfillSucceeds | core/crates/sync/src/backfill.rs:21-74 | with the local device present and no fault, the backfill succeeds |
| Backfill.RebuiltIsLocal | core/crates/sync/src/backfill.rs:47-66 | every operation the backfill creates is stamped with the local device |
| Backfill.BackfillKeepsForeign | core/crates/sync/src/backfill.rs:40-66 | a successful backfill leaves other devices' operations as they were, in order |
| Backfill.BackfillIdempotent | core/crates/sync/src/backfill.rs:40-66 | backfilling again over the same database gives the same operation table |
| LocationMetadata.Join | core/src/location/metadata.rs:141-143 | the path gains exactly the one component |
| LocationMetadata.Created | core/src/location/metadata.rs:92-121 | the file lies in the location's directory, there is exactly one library entry, and every timestamp is the clock's |
| LocationMetadata.Relinked | core/src/location/metadata.rs:123-146 | `LibraryNotFound` or `RelinkSamePath` with nothing changed; otherwise a write, the library's path and `updated_at` renewed, the file path becomes the new directory's `.spacedrive` and the file is written there, everything else kept |
| LocationMetadata.Updated | core/src/location/metadata.rs:148-163 | `LibraryNotFound` with nothing changed; otherwise a write with only that library's name and `updated_at` changed |
| LocationMetadata.LibraryAdded | core/src/location/metadata.rs:165-185 | never fails and ends in a write; the key set gains the id, its entry is the new one, other entries kept, top-level `updated_at` renewed |
| LocationMetadata.LibraryRemoved | core/src/location/metadata.rs:202-220 | `LibraryNotFound` with nothing changed; otherwise only that key is removed, `updated_at` renewed, and the file is deleted when no library is left, else written |
| LocationMetadata.Retained | core/src/location/metadata.rs:226-229 | keeps exactly the keys in the set, with their entries |
| LocationMetadata.RetainedSameSize | core/src/location/metadata.rs:225-231 | the size comparison detects a removal exactly when some key is not in the set |
| LocationMetadata.StaleCleaned | core/src/location/metadata.rs:222-244 | keeps exactly the keys in the set; nothing changes and nothing is persisted exactly when every key is kept; otherwise `updated_at` is renewed and the file is deleted when empty, else written |
| LocationMetadata.RelinkAgainRefused | core/src/location/metadata.rs:134-145 | relinking again to the path just relinked to is refused with nothing changed |
| LocationMetadata.CleanIdempotent | core/src/location/metadata.rs:226-243 | a second clean against the same libraries does nothing |
| LocationMetadata.AddThenRemove | core/src/location/metadata.rs:202-220 | adding then removing a library leaves the other libraries as they were |
| LocationMetadata.SpacedriveLocationMetadataFile.CreateAndSave | core/src/location/metadata.rs:92-121 | the new object's fields are `Created`'s, which is the content the source writes to the file at that path |
| LocationMetadata.SpacedriveLocationMetadataFile.Relink | core/src/location/metadata.rs:123-146 | result and new fields are `Relinked`'s |
| LocationMetadata.SpacedriveLocationMetadataFile.Update | core/src/location/metadata.rs:148-163 | result and new fields are `Updated`'s |
| LocationMetadata.SpacedriveLocationMetadataFile.AddLibrary | core/src/location/metadata.rs:165-185 | result and new fields are `LibraryAdded`'s; afterwards `has_library`, `location_path` and `location_pub_id` report the new entry |
| LocationMetadata.SpacedriveLocationMetadataFile.HasLibrary | core/src/location/metadata.rs:187-189 | the location belongs to the library exactly when the map has an entry for it |
| LocationMetadata.SpacedriveLocationMetadataFile.LocationPath | core/src/location/metadata.rs:191-196 | a path exactly for a library the location belongs to, the one stored |
| LocationMetadata.SpacedriveLocationMetadataFile.IsEmpty | core/src/location/metadata.rs:198-200 | holds exactly when the location belongs to no library |
| LocationMetadata.SpacedriveLocationMetadataFile.RemoveLibrary | core/src/location/metadata.rs:202-220 | result and new fields are `LibraryRemoved`'s |
| LocationMetadata.SpacedriveLocationMetadataFile.CleanStaleLibraries | core/src/location/metadata.rs:222-244 | result and new fields are `StaleCleaned`'s |
| LocationMetadata.SpacedriveLocationMetadataFile.LocationPubId | core/src/location/metadata.rs:246-252 | `LibraryNotFound` exactly for a library the location does not belong to, else the stored public id |

## Left out

- The async lock, the transaction's timeout and the `try_join` concurrency of `backfill_operations` are not modelled. The steps of each wave run one after another in their listed order, which is one of the orders the source allows. The transaction is modelled only by its effect: on an error the operation table is unchanged.
- Prisma query building, `include!` joins and `create_many`/`delete_many` are not modelled as such. Tables are in-memory sequences in primary-key order, which is what the getters' `order_by` returns. `find_first` in `backfill_storage_statistics` has no `order_by`; the model takes the first statistics row of the device in primary-key order, which the database does not promise. A page's writes are an append.
- Tracing and the elapsed-time measurement are left out.
- The clock value and operation id that `shared_create` and `relation_create` attach are left out, because those functions are not shown. An operation records its device, its kind, its target identity and its entries.
- `chain_optional_iter` and the `sync_entry!` and `option_sync_entry!` macros are not shown. The model assumes their semantics: required entries, then the present optional ones, order kept.
- Column values are abstract `Value`s. How entries are encoded is not modelled.
- `crdt_op_unchecked_db` is not shown. It is an oracle that says which operations serialize.
- Backfill.RebuiltIsLocal, Backfill.BackfillKeepsForeign and Backfill.BackfillIdempotent rest on two assumptions about code that is not shown. First, `shared_create` and `relation_create` stamp every operation with `sync.device_pub_id`. Second, `crdt_op_unchecked_db` stores the operation with that device id unchanged. Only together do these make the next run's `delete_many(device_pub_id::equals(..))` remove everything an earlier run created.
- MaybeUndefined.DeserializeAfterSerialize: the wire form is modelled as `Option<T>`, with `Value(v)` written as `v`. The round trip holds only for a self-describing format in which no `v` is written as none. In JSON, `Value(None)` of a `MaybeUndefined<Option<U>>` is written as `null` and read back as `Null`. In a format that is not self-describing, omitting the `Some` tag breaks the round trip.
- Error types are reduced to three: `DeviceNotFound`, a database error, and a serialization error.
- 32-bit ids are unbounded integers. The completeness results assume ids are never negative, as database ids are, and do not model i32 overflow.
- `find_unique` on the unique `pub_id` column is modelled as a search for a row with that public id. Uniqueness itself is not modelled.
- Pagination.RunCollectsAll: stated for getters whose `take` is not 0. The source's takes are 1000 or none; with `take(0)` the loop would stop after one empty page.
- `try_load` and `write_metadata` of the metadata file are file I/O with JSON serialization. The persistence action is returned as `Write`, `DeleteFile` or `NoAction` instead. The `Read`, `Write`, `Serialize`, `Deserialize` and `Delete` errors are therefore not modelled.
- The Windows hidden-file attribute and the debug-build branch for a corrupt file are left out.
- `Utc::now()` is a `now` parameter. `create_and_save` reads the clock four times and `add_library` three times (`core/src/location/metadata.rs:109-116` and `core/src/location/metadata.rs:178-183`); the model gives all the reads of one call the same value.
- Paths are sequences of components. `join` appends a component; path equality is component-wise.
- `crates/crypto/src/protected.rs` is not part of this model.
