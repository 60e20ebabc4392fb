/** BotStateService.deleteKey: stat, get, edit, stat again, put - over an object store that other writers
    use between any two of these calls. */
module BotState {
  import opened Results

  // ---------- the store ----------

  /** One stored archive: its etag, its size, and the files of its state directory (None when the archive
      has no such directory). */
  datatype Version = Version(etag: nat, size: nat, files: Option<map<string, string>>)

  /** The object of one bot; `nextEtag` is an etag that was never used. */
  datatype Store = Store(current: Option<Version>, nextEtag: nat)

  /** What another writer may do in one call. */
  datatype Write = Put(size: nat, files: Option<map<string, string>>) | Remove

  predicate ValidStore(s: Store) {
    s.current.Some? ==> s.current.value.etag < s.nextEtag
  }

  /** Every put makes a version with an etag of its own. */
  function Written(s: Store, w: Write): Store {
    match w
    case Put(size, files) => Store(Some(Version(s.nextEtag, size, files)), s.nextEtag + 1)
    case Remove => Store(None, s.nextEtag)
  }

  function WrittenAll(s: Store, ws: seq<Write>): Store
    decreases ws
  {
    if ws == [] then s else WrittenAll(Written(s, ws[0]), ws[1..])
  }

  // ---------- keys ----------

  const EXTENSION := ".json"

  function FileOf(key: string): string {
    key + EXTENSION
  }

  predicate IsStateFile(name: string) {
    |name| >= |EXTENSION| && name[|name| - |EXTENSION|..] == EXTENSION
  }

  /** The state that keys stand for: the .json files. */
  function State(files: map<string, string>): map<string, string> {
    map name | name in files && IsStateFile(name) :: files[name]
  }

  // ---------- one deletion ----------

  datatype StateError = InvalidBotId | InvalidKey | StorageError | ConcurrentModification

  /** Which storage calls fail with an error other than "not found". */
  datatype Faults = Faults(firstStat: bool, get: bool, secondStat: bool, put: bool, remove: bool)

  /** What other writers do between the calls: before the first stat, between stat and get, between get
      and the second stat, and in the window between the second stat and the final write. */
  datatype Interference = Interference(first: seq<Write>, second: seq<Write>, third: seq<Write>, window: seq<Write>)

  class ObjectStore {
    var store: Store

    constructor (s: Store)
      ensures store == s
    {
      store := s;
    }

    method Others(ws: seq<Write>)
      modifies this
      ensures store == WrittenAll(old(store), ws)
    {
      ghost var start := store;
      assert ws[0..] == ws;
      for i := 0 to |ws|
        invariant WrittenAll(start, ws) == WrittenAll(store, ws[i..])
      {
        assert ws[i..][1..] == ws[i + 1..];
        store := Written(store, ws[i]);
      }
    }

    method PutObject(size: nat, files: Option<map<string, string>>)
      modifies this
      ensures store == Written(old(store), Put(size, files))
    {
      store := Written(store, Put(size, files));
    }

    method RemoveObject()
      modifies this
      ensures store == Written(old(store), Remove)
    {
      store := Written(store, Remove);
    }
  }

  /** The store as each call of a deletion finds it when this deletion has not written yet. */
  function AtFirstStat(s: Store, g: Interference): Store { WrittenAll(s, g.first) }
  function AtGet(s: Store, g: Interference): Store { WrittenAll(AtFirstStat(s, g), g.second) }
  function AtSecondStat(s: Store, g: Interference): Store { WrittenAll(AtGet(s, g), g.third) }
  function AtWrite(s: Store, g: Interference): Store { WrittenAll(AtSecondStat(s, g), g.window) }

  /** The files left in the temp directory after the key's file is unlinked. */
  function Edited(files: map<string, string>, key: string): map<string, string> {
    files - {FileOf(key)}
  }

  predicate ValidIdChar(c: char) {
    'a' <= c <= 'z' || 'A' <= c <= 'Z' || '0' <= c <= '9' || c == '_' || c == '-'
  }

  predicate ValidKey(key: string) {
    1 <= |key| <= 255 && forall c :: c in key ==> ValidIdChar(c)
  }

  class BotStateService {
    const maxArchiveSize: nat

    constructor (maxArchiveSize: nat)
      ensures this.maxArchiveSize == maxArchiveSize
    {
      this.maxArchiveSize := maxArchiveSize;
    }

    /** downloadAndExtractStateWithEtag: the etag is the stat's, the files are the get's. */
    method Download(bucket: ObjectStore, g: Interference, f: Faults)
      returns (r: Result<Option<(nat, Option<map<string, string>>)>, StateError>)
      modifies bucket
      ensures r == Downloaded(old(bucket.store), g, f, maxArchiveSize)
      ensures bucket.store == if StopsAtFirstStat(old(bucket.store), g, f, maxArchiveSize)
                              then AtFirstStat(old(bucket.store), g) else AtGet(old(bucket.store), g)
    {
      bucket.Others(g.first);
      if f.firstStat {
        return Err(StorageError);
      }
      var found := bucket.store.current;
      if found.None? {
        return Ok(None);
      }
      if found.value.size > maxArchiveSize {
        return Err(StorageError);
      }
      var etag := found.value.etag;
      bucket.Others(g.second);
      if f.get || bucket.store.current.None? {
        return Err(StorageError);
      }
      return Ok(Some((etag, bucket.store.current.value.files)));
    }

    /** uploadStateWithLocking: compare the etag, then put, or remove when no .json file is left. The size
        of the new archive is whatever packing gives. */
    method Upload(bucket: ObjectStore, files: map<string, string>, etag: nat, packed: nat,
                  third: seq<Write>, window: seq<Write>, f: Faults) returns (r: Result<bool, StateError>)
      modifies bucket
      ensures (r, bucket.store) == Uploaded(old(bucket.store), files, etag, packed, third, window, f)
    {
      bucket.Others(third);
      if f.secondStat {
        return Err(StorageError);
      }
      var current := bucket.store.current;
      if State(files) == map[] {
        if current.Some? && current.value.etag != etag {
          return Ok(false);
        }
        bucket.Others(window);
        if !f.remove {
          bucket.RemoveObject();
        }
        return Ok(true);
      }
      if current.None? || current.value.etag != etag {
        return Ok(false);
      }
      bucket.Others(window);
      if f.put {
        return Err(StorageError);
      }
      bucket.PutObject(packed, Some(files));
      return Ok(true);
    }

    method DeleteKey(bucket: ObjectStore, botId: string, key: string, packed: nat, g: Interference, f: Faults)
      returns (r: Result<bool, StateError>)
      modifies bucket
      ensures (r, bucket.store) == Deletion(old(bucket.store), botId, key, packed, g, f, maxArchiveSize)
    {
      if botId == "" || exists c :: c in botId && !ValidIdChar(c) {
        return Err(InvalidBotId);
      }
      if !ValidKey(key) {
        return Err(InvalidKey);
      }
      var downloaded := Download(bucket, g, f);
      if downloaded.Err? {
        return Err(StorageError);
      }
      if downloaded.value.None? {
        return Ok(false);
      }
      var (etag, dir) := downloaded.value.value;
      if dir.None? || FileOf(key) !in dir.value {
        return Ok(false);
      }
      var uploaded := Upload(bucket, Edited(dir.value, key), etag, packed, g.third, g.window, f);
      if uploaded.Err? {
        return uploaded;
      }
      if !uploaded.value {
        return Err(ConcurrentModification);
      }
      return Ok(true);
    }
  }

  predicate StopsAtFirstStat(s: Store, g: Interference, f: Faults, maxArchiveSize: nat) {
    var found := AtFirstStat(s, g).current;
    f.firstStat || found.None? || found.value.size > maxArchiveSize
  }

  function Downloaded(s: Store, g: Interference, f: Faults, maxArchiveSize: nat)
    : Result<Option<(nat, Option<map<string, string>>)>, StateError>
  {
    var found, got := AtFirstStat(s, g).current, AtGet(s, g).current;
    if f.firstStat then Err(StorageError)
    else if found.None? then Ok(None)
    else if found.value.size > maxArchiveSize || f.get || got.None? then Err(StorageError)
    else Ok(Some((found.value.etag, got.value.files)))
  }

  /** The result and the final store of one deletion. */
  function Deletion(s: Store, botId: string, key: string, packed: nat, g: Interference, f: Faults, maxArchiveSize: nat)
    : (Result<bool, StateError>, Store)
  {
    if botId == "" || exists c :: c in botId && !ValidIdChar(c) then (Err(InvalidBotId), s)
    else if !ValidKey(key) then (Err(InvalidKey), s)
    else
      var downloaded := Downloaded(s, g, f, maxArchiveSize);
      var after := if StopsAtFirstStat(s, g, f, maxArchiveSize) then AtFirstStat(s, g) else AtGet(s, g);
      if downloaded.Err? then (Err(StorageError), after)
      else if downloaded.value.None? then (Ok(false), after)
      else
        var (etag, dir) := downloaded.value.value;
        if dir.None? || FileOf(key) !in dir.value then (Ok(false), after)
        else
          var (uploaded, after) := Uploaded(AtGet(s, g), Edited(dir.value, key), etag, packed, g.third, g.window, f);
          (if uploaded == Ok(false) then Err(ConcurrentModification) else uploaded, after)
  }

  /** The compare-and-write half; Ok(false) is a conflict. A missing object is a conflict only when there
      is something to put. */
  function Uploaded(s: Store, files: map<string, string>, etag: nat, packed: nat, third: seq<Write>,
                    window: seq<Write>, f: Faults)
    : (Result<bool, StateError>, Store)
  {
    var seen := WrittenAll(s, third);
    var now := WrittenAll(seen, window);
    var last := State(files) == map[];
    if f.secondStat then (Err(StorageError), seen)
    else if (if seen.current.Some? then seen.current.value.etag != etag else !last) then (Ok(false), seen)
    else if last then (Ok(true), if f.remove then now else Written(now, Remove))
    else if f.put then (Err(StorageError), now)
    else (Ok(true), Written(now, Put(packed, Some(files))))
  }

  // ---------- etags ----------

  lemma {:induction false} WritesKeepValid(s: Store, ws: seq<Write>)
    requires ValidStore(s)
    ensures ValidStore(WrittenAll(s, ws)) && WrittenAll(s, ws).nextEtag >= s.nextEtag
    decreases ws
  {
    if ws == [] {
    } else {
      WritesKeepValid(Written(s, ws[0]), ws[1..]);
    }
  }

  lemma {:induction false} GoneStaysNew(s: Store, ws: seq<Write>, etag: nat)
    requires ValidStore(s) && etag < s.nextEtag
    requires s.current.Some? ==> s.current.value.etag != etag
    ensures var t := WrittenAll(s, ws); t.current.Some? ==> t.current.value.etag != etag
    decreases ws
  {
    if ws == [] {
    } else {
      GoneStaysNew(Written(s, ws[0]), ws[1..], etag);
    }
  }

  /** If the object has the same etag before and after other writers' calls, it is the same object at the
      end of every prefix of these calls: nobody wrote. */
  lemma SameEtagSameObject(s: Store, before: seq<Write>, after: seq<Write>)
    requires ValidStore(s) && s.current.Some?
    requires var t := WrittenAll(WrittenAll(s, before), after);
             t.current.Some? && t.current.value.etag == s.current.value.etag
    ensures WrittenAll(s, before) == s && WrittenAll(WrittenAll(s, before), after) == s
  {
    if before != [] {
      var rest := Written(s, before[0]);
      WritesKeepValid(rest, before[1..]);
      GoneStaysNew(rest, before[1..], s.current.value.etag);
      GoneStaysNew(WrittenAll(s, before), after, s.current.value.etag);
    } else if after != [] {
      GoneStaysNew(Written(s, after[0]), after[1..], s.current.value.etag);
    }
  }

  // ---------- main results ----------

  /** The archive a reader would find. */
  function StateOf(s: Store): map<string, string> {
    if s.current.Some? && s.current.value.files.Some? then State(s.current.value.files.value) else map[]
  }

  /** A result other than Ok(true) never writes: the store is only what the other writers made of it. */
  lemma NoWriteUnlessTrue(s: Store, botId: string, key: string, packed: nat, g: Interference, f: Faults, size: nat)
    ensures var (r, t) := Deletion(s, botId, key, packed, g, f, size);
            r != Ok(true) ==> t in {s, AtFirstStat(s, g), AtGet(s, g), AtSecondStat(s, g), AtWrite(s, g)}
  {
  }

  // ---------- what each result means ----------

  predicate EndsInJson(name: string) {
    |name| >= 5 && name[|name| - 5..] == ".json"
  }

  /** The archive that was got has the key's file. */
  predicate GotKey(s: Store, key: string, g: Interference) {
    var got := AtGet(s, g).current;
    got.Some? && got.value.files.Some? && key + ".json" in got.value.files.value
  }

  /** It has other keys as well. */
  predicate GotOthers(s: Store, key: string, g: Interference) {
    GotKey(s, key, g) &&
    exists name :: name in AtGet(s, g).current.value.files.value && name != key + ".json" && EndsInJson(name)
  }

  /** The first two calls went through: a small enough object was there, and it could be got. */
  predicate Readable(s: Store, g: Interference, f: Faults, size: nat) {
    var first := AtFirstStat(s, g).current;
    !f.firstStat && first.Some? && first.value.size <= size && !f.get && AtGet(s, g).current.Some?
  }

  /** The second stat tells of another writer: another version, or no object although there is something to put. */
  predicate Conflicts(s: Store, key: string, g: Interference)
    requires AtFirstStat(s, g).current.Some?
  {
    var first, second := AtFirstStat(s, g).current.value, AtSecondStat(s, g).current;
    if second.Some? then second.value.etag != first.etag else GotOthers(s, key, g)
  }

  predicate GoodId(id: string) {
    id != "" && forall c :: c in id ==> 'a' <= c <= 'z' || 'A' <= c <= 'Z' || '0' <= c <= '9' || c == '_' || c == '-'
  }

  lemma OthersAreLeft(files: map<string, string>, key: string)
    requires key + ".json" in files
    ensures State(Edited(files, key)) != map[] <==>
      exists name :: name in files && name != key + ".json" && EndsInJson(name)
  {
    var left := State(Edited(files, key));
    if name :| name in files && name != key + ".json" && EndsInJson(name) {
      assert name in left;
    }
    if left != map[] {
      var name :| name in left;
      assert name in files && name != key + ".json" && EndsInJson(name);
    }
  }

  /** Which result a deletion has, for every store, every interference and every failing call. A caller that sees
      false knows that there was no such key, and one that sees a conflict that another writer came in between. */
  lemma ResultExactlyWhen(s: Store, botId: string, key: string, packed: nat, g: Interference, f: Faults, size: nat)
    requires GoodId(botId) && GoodId(key) && |key| <= 255
    ensures var r, first, read := Deletion(s, botId, key, packed, g, f, size).0, AtFirstStat(s, g).current,
                                  Readable(s, g, f, size);
      && (r == Ok(false) <==> (!f.firstStat && first.None?) || (read && !GotKey(s, key, g)))
      && (r == Err(ConcurrentModification) <==>
            read && GotKey(s, key, g) && !f.secondStat && Conflicts(s, key, g))
      && (r == Ok(true) <==>
            && read && GotKey(s, key, g) && !f.secondStat && !Conflicts(s, key, g)
            && (GotOthers(s, key, g) ==> !f.put))
      && (r == Err(StorageError) <==>
            || f.firstStat || (first.Some? && !read)
            || (read && GotKey(s, key, g) &&
                (f.secondStat || (!Conflicts(s, key, g) && GotOthers(s, key, g) && f.put))))
  {
    if GotKey(s, key, g) {
      OthersAreLeft(AtGet(s, g).current.value.files.value, key);
    }
  }

  /** Malformed ids and keys are refused before any call. */
  lemma MalformedIsRefused(s: Store, botId: string, key: string, packed: nat, g: Interference, f: Faults, size: nat)
    ensures !GoodId(botId) ==> Deletion(s, botId, key, packed, g, f, size) == (Err(InvalidBotId), s)
    ensures GoodId(botId) && !(GoodId(key) && |key| <= 255) ==>
      Deletion(s, botId, key, packed, g, f, size) == (Err(InvalidKey), s)
  {
  }

  /** What a true result writes: the archive that was got without the key's one file, or no object when that was the
      last key - unless the removal failed. */
  lemma TrueWrites(s: Store, botId: string, key: string, packed: nat, g: Interference, f: Faults, size: nat)
    requires Deletion(s, botId, key, packed, g, f, size).0 == Ok(true)
    ensures GotKey(s, key, g)
    ensures var t, now := Deletion(s, botId, key, packed, g, f, size).1, AtWrite(s, g);
      if GotOthers(s, key, g)
      then
        var files := AtGet(s, g).current.value.files.value;
        t.current == Some(Version(now.nextEtag, packed, Some(files - {key + ".json"})))
      else if f.remove then t == now
      else t == now.(current := None)
  {
    OthersAreLeft(AtGet(s, g).current.value.files.value, key);
  }

  /** A true result on an object still present at the second stat, with nothing in the window: the state
      just before the write becomes that state minus the key - unless the last key was deleted and the
      removal failed, an error the service swallows. */
  lemma TrueMeansDeleted(s: Store, botId: string, key: string, packed: nat, g: Interference, f: Faults, size: nat)
    requires ValidStore(s) && g.window == []
    requires Deletion(s, botId, key, packed, g, f, size).0 == Ok(true)
    requires AtSecondStat(s, g).current.Some?
    ensures var before, after := StateOf(AtSecondStat(s, g)), StateOf(Deletion(s, botId, key, packed, g, f, size).1);
            && FileOf(key) in before
            && (after == before - {FileOf(key)} <==> !(f.remove && before.Keys == {FileOf(key)}))
            && (f.remove && before.Keys == {FileOf(key)} ==> after == before)
  {
    WindowIsErased(s, botId, key, packed, g, f, size);
  }

  /** Every other writer's version between the first stat and the second stat makes the deletion a
      conflict (or an error, or a false): it can only succeed on the version it read. */
  lemma TrueMeansUndisturbed(s: Store, botId: string, key: string, packed: nat, g: Interference, f: Faults, size: nat)
    requires ValidStore(s)
    requires Deletion(s, botId, key, packed, g, f, size).0 == Ok(true)
    requires AtSecondStat(s, g).current.Some?
    ensures AtFirstStat(s, g) == AtGet(s, g) == AtSecondStat(s, g)
  {
    WritesKeepValid(s, g.first);
    SameEtagSameObject(AtFirstStat(s, g), g.second, g.third);
  }

  /** The removal of the object was due and failed: its last key was deleted, or it was gone already. */
  predicate Swallowed(s: Store, key: string, g: Interference, f: Faults) {
    f.remove && (AtSecondStat(s, g).current.None? || StateOf(AtSecondStat(s, g)).Keys == {FileOf(key)})
  }

  /** What a true result leaves behind, for every window: the state of the second stat minus the key (nothing, when the
      object was gone by then) - or, when the removal of the object failed, whatever the window made of it. */
  lemma WindowIsErased(s: Store, botId: string, key: string, packed: nat, g: Interference, f: Faults, size: nat)
    requires ValidStore(s)
    requires Deletion(s, botId, key, packed, g, f, size).0 == Ok(true)
    ensures var seen, after := StateOf(AtSecondStat(s, g)), StateOf(Deletion(s, botId, key, packed, g, f, size).1);
            && (AtSecondStat(s, g).current.Some? ==> FileOf(key) in seen)
            && after == if Swallowed(s, key, g, f) then StateOf(AtWrite(s, g)) else seen - {FileOf(key)}
  {
    var first := AtFirstStat(s, g);
    WritesKeepValid(s, g.first);
    if AtSecondStat(s, g).current.Some? {
      SameEtagSameObject(first, g.second, g.third);
      EditedState(first.current.value.files.value, key);
    }
  }

  lemma EditedState(files: map<string, string>, key: string)
    requires FileOf(key) in files
    ensures FileOf(key) in State(files)
    ensures State(Edited(files, key)) == State(files) - {FileOf(key)}
    ensures State(Edited(files, key)) == map[] <==> State(files).Keys == {FileOf(key)}
  {
    IsState(key);
    if State(Edited(files, key)) == map[] {
      assert (State(files) - {FileOf(key)}).Keys == State(files).Keys - {FileOf(key)} == {};
    }
  }

  /** A true result turns the state just before the write into that state minus the key exactly when the window left
      the other keys alone; when the removal failed, exactly when the window left no file of the key. */
  lemma DeletionIsRightExactlyWhen(s: Store, botId: string, key: string, packed: nat, g: Interference, f: Faults,
                                   size: nat)
    requires ValidStore(s)
    requires Deletion(s, botId, key, packed, g, f, size).0 == Ok(true)
    ensures var seen, before := StateOf(AtSecondStat(s, g)), StateOf(AtWrite(s, g));
            StateOf(Deletion(s, botId, key, packed, g, f, size).1) == before - {FileOf(key)} <==>
              if Swallowed(s, key, g, f) then FileOf(key) !in before
              else before - {FileOf(key)} == seen - {FileOf(key)}
  {
    WindowIsErased(s, botId, key, packed, g, f, size);
    var before := StateOf(AtWrite(s, g));
    if FileOf(key) !in before {
      assert before - {FileOf(key)} == before;
    }
  }

  /** The swallowed error: for every valid key, deleting it as the last one with a failing removal reports true and
      changes nothing. */
  lemma FailedRemovalReportsTrue(key: string, value: string, botId: string)
    requires ValidKey(key) && botId != "" && forall c :: c in botId ==> ValidIdChar(c)
    ensures var s := Store(Some(Version(0, 1, Some(map[FileOf(key) := value]))), 1);
            var f := Faults(false, false, false, false, true);
            && Deletion(s, botId, key, 1, Interference([], [], [], []), f, 10) == (Ok(true), s)
            && FileOf(key) in StateOf(s)
  {
    var files := map[FileOf(key) := value];
    EditedState(files, key);
    assert State(files).Keys == {FileOf(key)};
  }

  /** An instance: another writer adds a key in the window, the deletion still reports true, and the added key is
      gone. */
  lemma WindowLosesAnUpdate(key: string, kept: string, added: string, botId: string)
    requires ValidKey(key) && ValidKey(kept) && ValidKey(added) && key != kept && added != kept && added != key
    requires botId != "" && forall c :: c in botId ==> ValidIdChar(c)
    ensures var stored := map[FileOf(key) := "1", FileOf(kept) := "2"];
            var more := stored[FileOf(added) := "3"];
            var s := Store(Some(Version(0, 1, Some(stored))), 1);
            var g := Interference([], [], [], [Put(1, Some(more))]);
            var (r, t) := Deletion(s, botId, key, 1, g, Faults(false, false, false, false, false), 10);
            && r == Ok(true)
            && FileOf(added) in StateOf(AtWrite(s, g))
            && FileOf(added) !in StateOf(t)
            && StateOf(t) != StateOf(AtWrite(s, g)) - {FileOf(key)}
  {
    FileOfInjective(key, kept);
    FileOfInjective(key, added);
    FileOfInjective(added, kept);
    IsState(key);
    IsState(kept);
    IsState(added);
    var stored := map[FileOf(key) := "1", FileOf(kept) := "2"];
    assert FileOf(kept) in State(Edited(stored, key));
    var more := stored[FileOf(added) := "3"];
    var s := Store(Some(Version(0, 1, Some(stored))), 1);
    assert WrittenAll(s, [Put(1, Some(more))]) == WrittenAll(Written(s, Put(1, Some(more))), []);
    assert FileOf(added) in State(more);
  }

  lemma FileOfInjective(a: string, b: string)
    requires a != b
    ensures FileOf(a) != FileOf(b)
  {
    assert FileOf(a)[..|a|] == a;
    assert FileOf(b)[..|b|] == b;
  }

  lemma IsState(key: string)
    ensures IsStateFile(FileOf(key))
  {
  }
}
