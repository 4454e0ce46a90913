/** The `.spacedrive` file of a location: for every library the location
    belongs to, the location's public id, name and path there. A value of
    `SpacedriveLocationMetadataFile` holds the file's path and its contents;
    each operation changes them and then says what is to be done with the
    file: write it, delete it, or nothing. */
module LocationMetadata {
  import opened Wrappers

  type Uuid = seq<bv8>

  type LibraryId = Uuid

  /** A path, as its components. */
  type Path = seq<string>

  /** A `DateTime<Utc>`, as read from the clock. */
  type Instant = int

  const MetadataFileName: string := ".spacedrive"

  /** `path.join(name)`. */
  function Join(p: Path, name: string): (r: Path)
    ensures |r| == |p| + 1 && r[..|p|] == p && r[|p|] == name
  {
    p + [name]
  }

  datatype LocationMetadataEntry = LocationMetadataEntry(
    pubId: Uuid, name: string, path: Path, createdAt: Instant, updatedAt: Instant)

  datatype SpacedriveLocationMetadata = SpacedriveLocationMetadata(
    libraries: map<LibraryId, LocationMetadataEntry>, createdAt: Instant, updatedAt: Instant)

  /** What an operation does with the file once the contents are changed. */
  datatype Persist = Write | DeleteFile | NoAction

  /** The errors raised by the in-memory logic (those of file I/O are not modelled). */
  datatype MetadataError = LibraryNotFound(id: LibraryId) | RelinkSamePath(path: Path)

  /** The fields of a `SpacedriveLocationMetadataFile`. */
  datatype FileState = FileState(path: Path, metadata: SpacedriveLocationMetadata)

  /** An operation's result and the fields afterwards. */
  datatype Transition = Transition(result: Result<Persist, MetadataError>, state: FileState)

  /** Every library other than `id` keeps its entry. */
  ghost predicate OthersUntouched(before: map<LibraryId, LocationMetadataEntry>,
                                  after: map<LibraryId, LocationMetadataEntry>, id: LibraryId) {
    forall k :: k in before && k != id ==> k in after && after[k] == before[k]
  }

  // ---------------------------------------------------------------- the operations on the fields

  /** `create_and_save`'s fields: the file inside the location's directory,
      one library entry, every timestamp the clock's. */
  function Created(id: LibraryId, pubId: Uuid, locationPath: Path, name: string, now: Instant): (s: FileState)
    ensures s.path == Join(locationPath, MetadataFileName)
    ensures s.metadata.libraries.Keys == {id}
    ensures s.metadata.libraries[id] == LocationMetadataEntry(pubId, name, locationPath, now, now)
    ensures s.metadata.createdAt == now && s.metadata.updatedAt == now
  {
    FileState(Join(locationPath, MetadataFileName),
              SpacedriveLocationMetadata(map[id := LocationMetadataEntry(pubId, name, locationPath, now, now)], now, now))
  }

  /** `relink`: move a library's location to a new path, and the file with it. */
  function Relinked(s: FileState, id: LibraryId, locationPath: Path, now: Instant): (t: Transition)
    ensures id !in s.metadata.libraries ==> t == Transition(Err(LibraryNotFound(id)), s)
    ensures id in s.metadata.libraries && s.metadata.libraries[id].path == locationPath
            ==> t == Transition(Err(RelinkSamePath(locationPath)), s)
    ensures t.result.Ok? <==> id in s.metadata.libraries && s.metadata.libraries[id].path != locationPath
    ensures t.result.Ok? ==>
              var before, after := s.metadata.libraries, t.state.metadata.libraries;
              && t.result.value == Write
              && t.state.path == Join(locationPath, MetadataFileName)
              && after.Keys == before.Keys
              && after[id].path == locationPath && after[id].updatedAt == now
              && after[id].pubId == before[id].pubId && after[id].name == before[id].name
              && after[id].createdAt == before[id].createdAt
              && OthersUntouched(before, after, id)
              && t.state.metadata.createdAt == s.metadata.createdAt
              && t.state.metadata.updatedAt == s.metadata.updatedAt
  {
    var libraries := s.metadata.libraries;
    if id !in libraries then Transition(Err(LibraryNotFound(id)), s)
    else if libraries[id].path == locationPath then Transition(Err(RelinkSamePath(locationPath)), s)
    else
      var entry := libraries[id].(path := locationPath, updatedAt := now);
      Transition(Ok(Write), FileState(Join(locationPath, MetadataFileName),
                                      s.metadata.(libraries := libraries[id := entry])))
  }

  /** `update`: rename the location in one library. */
  function Updated(s: FileState, id: LibraryId, name: string, now: Instant): (t: Transition)
    ensures id !in s.metadata.libraries ==> t == Transition(Err(LibraryNotFound(id)), s)
    ensures t.result.Ok? <==> id in s.metadata.libraries
    ensures t.result.Ok? ==>
              var before, after := s.metadata.libraries, t.state.metadata.libraries;
              && t.result.value == Write
              && t.state.path == s.path
              && after.Keys == before.Keys
              && after[id].name == name && after[id].updatedAt == now
              && after[id].pubId == before[id].pubId && after[id].path == before[id].path
              && after[id].createdAt == before[id].createdAt
              && OthersUntouched(before, after, id)
              && t.state.metadata.createdAt == s.metadata.createdAt
              && t.state.metadata.updatedAt == s.metadata.updatedAt
  {
    var libraries := s.metadata.libraries;
    if id !in libraries then Transition(Err(LibraryNotFound(id)), s)
    else
      var entry := libraries[id].(name := name, updatedAt := now);
      Transition(Ok(Write), s.(metadata := s.metadata.(libraries := libraries[id := entry])))
  }

  /** `add_library`: insert the library's entry, replacing any earlier one. */
  function LibraryAdded(s: FileState, id: LibraryId, pubId: Uuid, locationPath: Path, name: string, now: Instant)
    : (t: Transition)
    ensures t.result == Ok(Write)
    ensures t.state.path == s.path
    ensures t.state.metadata.libraries.Keys == s.metadata.libraries.Keys + {id}
    ensures t.state.metadata.libraries[id] == LocationMetadataEntry(pubId, name, locationPath, now, now)
    ensures OthersUntouched(s.metadata.libraries, t.state.metadata.libraries, id)
    ensures t.state.metadata.createdAt == s.metadata.createdAt && t.state.metadata.updatedAt == now
  {
    var entry := LocationMetadataEntry(pubId, name, locationPath, now, now);
    Transition(Ok(Write), s.(metadata := s.metadata.(libraries := s.metadata.libraries[id := entry], updatedAt := now)))
  }

  /** `remove_library`: drop a library's entry; the file goes once no library is left. */
  function LibraryRemoved(s: FileState, id: LibraryId, now: Instant): (t: Transition)
    ensures id !in s.metadata.libraries ==> t == Transition(Err(LibraryNotFound(id)), s)
    ensures t.result.Ok? <==> id in s.metadata.libraries
    ensures t.result.Ok? ==>
              var before, after := s.metadata.libraries, t.state.metadata.libraries;
              && after.Keys == before.Keys - {id}
              && OthersUntouched(before, after, id)
              && t.result.value == (if after.Keys == {} then DeleteFile else Write)
              && t.state.path == s.path
              && t.state.metadata.createdAt == s.metadata.createdAt && t.state.metadata.updatedAt == now
  {
    var libraries := s.metadata.libraries;
    if id !in libraries then Transition(Err(LibraryNotFound(id)), s)
    else
      var remaining := libraries - {id};
      Transition(Ok(if |remaining| != 0 then Write else DeleteFile),
                 s.(metadata := s.metadata.(libraries := remaining, updatedAt := now)))
  }

  /** The entries of the libraries still in `existing`: `retain`. */
  function Retained(libraries: map<LibraryId, LocationMetadataEntry>, existing: set<LibraryId>)
    : (r: map<LibraryId, LocationMetadataEntry>)
    ensures r.Keys == libraries.Keys * existing
    ensures forall k :: k in r ==> r[k] == libraries[k]
  {
    map k | k in libraries && k in existing :: libraries[k]
  }

  /** Keeping some keys of a map leaves it as large iff it keeps them all. */
  lemma RetainedSameSize(libraries: map<LibraryId, LocationMetadataEntry>, existing: set<LibraryId>)
    ensures |Retained(libraries, existing)| == |libraries| <==> libraries.Keys <= existing
  {
    var kept, keys := Retained(libraries, existing).Keys, libraries.Keys;
    assert |Retained(libraries, existing)| == |kept|;
    assert |libraries| == |keys|;
    assert keys == kept + (keys - existing);
    assert kept * (keys - existing) == {};
    if !(keys <= existing) {
      var k :| k in keys && k !in existing;
      assert k in keys - existing;
    }
  }

  /** `clean_stale_libraries`: forget the libraries not in `existing`. When
      none is forgotten nothing changes, not even the timestamp, and the
      file is left alone; otherwise the file is written, or deleted once no
      library is left. */
  function StaleCleaned(s: FileState, existing: set<LibraryId>, now: Instant): (t: Transition)
    ensures s.metadata.libraries.Keys <= existing <==> t == Transition(Ok(NoAction), s)
    ensures t.result.Ok?
    ensures t.state.path == s.path && t.state.metadata.createdAt == s.metadata.createdAt
    ensures t.state.metadata.libraries.Keys == s.metadata.libraries.Keys * existing
    ensures forall k :: k in t.state.metadata.libraries ==> t.state.metadata.libraries[k] == s.metadata.libraries[k]
    ensures !(s.metadata.libraries.Keys <= existing) ==>
              && t.state.metadata.updatedAt == now
              && t.result.value == (if t.state.metadata.libraries.Keys == {} then DeleteFile else Write)
  {
    var libraries := s.metadata.libraries;
    var retained := Retained(libraries, existing);
    RetainedSameSize(libraries, existing);
    if |retained| != |libraries| then
      Transition(Ok(if |retained| != 0 then Write else DeleteFile),
                 s.(metadata := s.metadata.(libraries := retained, updatedAt := now)))
    else
      assert retained == libraries;
      Transition(Ok(NoAction), s)
  }

  // ---------------------------------------------------------------- properties relating operations

  /** Relinking again to the path just relinked to is refused. */
  lemma RelinkAgainRefused(s: FileState, id: LibraryId, locationPath: Path, now: Instant, later: Instant)
    requires Relinked(s, id, locationPath, now).result.Ok?
    ensures var t := Relinked(s, id, locationPath, now);
            Relinked(t.state, id, locationPath, later) == Transition(Err(RelinkSamePath(locationPath)), t.state)
  {
  }

  /** Cleaning twice against the same libraries: the second pass does nothing. */
  lemma CleanIdempotent(s: FileState, existing: set<LibraryId>, now: Instant, later: Instant)
    ensures var t := StaleCleaned(s, existing, now);
            StaleCleaned(t.state, existing, later) == Transition(Ok(NoAction), t.state)
  {
  }

  /** Adding a library and removing it again leaves the other libraries as they were. */
  lemma AddThenRemove(s: FileState, id: LibraryId, pubId: Uuid, locationPath: Path, name: string,
                      now: Instant, later: Instant)
    ensures var t := LibraryRemoved(LibraryAdded(s, id, pubId, locationPath, name, now).state, id, later);
            t.result.Ok? && t.state.metadata.libraries == s.metadata.libraries - {id}
  {
    var added := LibraryAdded(s, id, pubId, locationPath, name, now).state;
    var t := LibraryRemoved(added, id, later);
    assert t.state.metadata.libraries == added.metadata.libraries - {id};
  }

  /** A location's file, as loaded or created. */
  class SpacedriveLocationMetadataFile {
    var path: Path
    var metadata: SpacedriveLocationMetadata

    function State(): FileState
      reads this
    {
      FileState(path, metadata)
    }

    /** `create_and_save`, with every clock read giving `now`. Its one effect
        is the write of the file at the new `path`; the constructed state is
        exactly the content written. */
    constructor CreateAndSave(id: LibraryId, pubId: Uuid, locationPath: Path, name: string, now: Instant)
      ensures State() == Created(id, pubId, locationPath, name, now)
    {
      var s := Created(id, pubId, locationPath, name, now);
      path := s.path;
      metadata := s.metadata;
    }

    method Relink(id: LibraryId, locationPath: Path, now: Instant) returns (r: Result<Persist, MetadataError>)
      modifies this
      ensures Transition(r, State()) == Relinked(old(State()), id, locationPath, now)
    {
      if id !in metadata.libraries {
        return Err(LibraryNotFound(id));
      }
      var entry := metadata.libraries[id];
      if entry.path == locationPath {
        return Err(RelinkSamePath(locationPath));
      }
      entry := entry.(path := locationPath, updatedAt := now);
      metadata := metadata.(libraries := metadata.libraries[id := entry]);
      path := Join(locationPath, MetadataFileName);
      r := Ok(Write);
    }

    method Update(id: LibraryId, name: string, now: Instant) returns (r: Result<Persist, MetadataError>)
      modifies this
      ensures Transition(r, State()) == Updated(old(State()), id, name, now)
    {
      if id !in metadata.libraries {
        return Err(LibraryNotFound(id));
      }
      var entry := metadata.libraries[id].(name := name, updatedAt := now);
      metadata := metadata.(libraries := metadata.libraries[id := entry]);
      r := Ok(Write);
    }

    /** Afterwards the queries report the new entry. */
    method AddLibrary(id: LibraryId, pubId: Uuid, locationPath: Path, name: string, now: Instant)
      returns (r: Result<Persist, MetadataError>)
      modifies this
      ensures Transition(r, State()) == LibraryAdded(old(State()), id, pubId, locationPath, name, now)
      ensures HasLibrary(id) && LocationPath(id) == Some(locationPath) && LocationPubId(id) == Ok(pubId)
    {
      var entry := LocationMetadataEntry(pubId, name, locationPath, now, now);
      metadata := metadata.(libraries := metadata.libraries[id := entry]);
      metadata := metadata.(updatedAt := now);
      r := Ok(Write);
    }

    /** The location belongs to the library exactly when the file holds an entry for it. */
    predicate HasLibrary(id: LibraryId)
      reads this
      ensures HasLibrary(id) <==> id in State().metadata.libraries.Keys
    {
      id in metadata.libraries
    }

    /** The location's path in the library, if the location belongs to it. */
    function LocationPath(id: LibraryId): (p: Option<Path>)
      reads this
      ensures p.Some? <==> HasLibrary(id)
      ensures p.Some? ==> p.value == metadata.libraries[id].path
    {
      if id in metadata.libraries then Some(metadata.libraries[id].path) else None
    }

    /** No library is left. */
    predicate IsEmpty()
      reads this
      ensures IsEmpty() <==> forall id :: !HasLibrary(id)
    {
      assert forall id :: HasLibrary(id) <==> id in metadata.libraries.Keys;
      |metadata.libraries| == 0
    }

    method RemoveLibrary(id: LibraryId, now: Instant) returns (r: Result<Persist, MetadataError>)
      modifies this
      ensures Transition(r, State()) == LibraryRemoved(old(State()), id, now)
    {
      if id !in metadata.libraries {
        return Err(LibraryNotFound(id));
      }
      metadata := metadata.(libraries := metadata.libraries - {id});
      metadata := metadata.(updatedAt := now);
      if !IsEmpty() {
        r := Ok(Write);
      } else {
        r := Ok(DeleteFile);
      }
    }

    method CleanStaleLibraries(existing: set<LibraryId>, now: Instant) returns (r: Result<Persist, MetadataError>)
      modifies this
      ensures Transition(r, State()) == StaleCleaned(old(State()), existing, now)
    {
      var previousCount := |metadata.libraries|;
      metadata := metadata.(libraries := Retained(metadata.libraries, existing));
      if |metadata.libraries| != previousCount {
        metadata := metadata.(updatedAt := now);
        if !IsEmpty() {
          r := Ok(Write);
        } else {
          r := Ok(DeleteFile);
        }
      } else {
        r := Ok(NoAction);
      }
    }

    /** The location's public id in the library, or `LibraryNotFound`. */
    function LocationPubId(id: LibraryId): (r: Result<Uuid, MetadataError>)
      reads this
      ensures r.Err? <==> !HasLibrary(id)
      ensures r.Err? ==> r.error == LibraryNotFound(id)
      ensures r.Ok? ==> r.value == metadata.libraries[id].pubId
    {
      if id in metadata.libraries then Ok(metadata.libraries[id].pubId) else Err(LibraryNotFound(id))
    }
  }
}
