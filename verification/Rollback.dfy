/** Recording the current versions of objects in versioned buckets and rolling back to them later. */
module Rollback {
  import opened Values

  /** A bucket and a key in it. */
  type Object = (string, string)

  /** A version of an object; without a body it is a delete marker. */
  datatype Version = Version(id: nat, body: Option<string>)

  /** The histories of the objects, the next version id, and the buckets with versioning enabled. */
  datatype Store = Store(history: map<Object, seq<Version>>, next: nat, versioned: set<string>)

  function Versions(s: Store, o: Object): seq<Version> { if o in s.history then s.history[o] else [] }

  predicate Exists(s: Store, o: Object) {
    Versions(s, o) != [] && Versions(s, o)[|Versions(s, o)| - 1].body.Some?
  }

  /** The latest content, if the object exists. */
  function Content(s: Store, o: Object): Option<string> {
    if Exists(s, o) then Versions(s, o)[|Versions(s, o)| - 1].body else None
  }

  /** What asking for the head of an object gives. */
  datatype Head = Missing | NotVersioned | Found(id: nat)

  function HeadObject(s: Store, o: Object): Head {
    if !Exists(s, o) then Missing
    else if o.0 !in s.versioned then NotVersioned
    else Found(Versions(s, o)[|Versions(s, o)| - 1].id)
  }

  /** A new version, or a delete marker; without versioning it replaces what was there. */
  function Put(s: Store, o: Object, body: Option<string>): Store {
    var kept := if o.0 in s.versioned then Versions(s, o) else [];
    s.(history := s.history[o := kept + [Version(s.next, body)]], next := s.next + 1)
  }

  /** The content of a recorded version, or the latest one. */
  function VersionBody(s: Store, o: Object, version: Option<nat>): Option<string> {
    if version.None? then Content(s, o) else BodyOf(Versions(s, o), version.value)
  }

  function BodyOf(versions: seq<Version>, id: nat): Option<string> {
    if versions == [] then None else if versions[0].id == id then versions[0].body else BodyOf(versions[1..], id)
  }

  /** Version ids grow along every history. */
  ghost predicate Valid(s: Store) {
    forall o :: o in s.history ==> Growing(s.history[o], s.next)
  }

  ghost predicate Growing(versions: seq<Version>, next: nat) {
    && (forall i :: 0 <= i < |versions| ==> versions[i].id < next)
    && (forall i, j :: 0 <= i < j < |versions| ==> versions[i].id < versions[j].id)
  }

  // ------------------------------------------------------------ one object

  /** `revert_object`: the store afterwards, or nothing when it raises or exits. */
  function Revert(s: Store, o: Object, version: Option<nat>, dryrun: bool): Option<Store> {
    var head := HeadObject(s, o);
    if !head.Found? then None
    else if version == Some(head.id) || dryrun then Some(s)
    else if VersionBody(s, o, version).None? then None
    else Some(Put(s, o, VersionBody(s, o, version)))
  }

  /** Objects with their recorded version; nothing is recorded for an object that was missing. */
  type Recorded = map<Object, Option<nat>>

  /** The restore loop over the recorded objects in the given order; it stops at the first one that fails. */
  function Restore(s: Store, order: seq<Object>, recorded: Recorded, dryrun: bool): (Store, bool)
    requires forall o :: o in order ==> o in recorded
    decreases |order|
  {
    if order == [] then (s, true)
    else
      match Revert(s, order[0], recorded[order[0]], dryrun)
      case None => (s, false)
      case Some(s') => Restore(s', order[1..], recorded, dryrun)
  }

  // ------------------------------------------------------------ what happens in between

  datatype Event = Upload(o: Object, data: string) | Delete(o: Object)

  function Happen(s: Store, events: seq<Event>): Store
    decreases |events|
  {
    if events == [] then s
    else
      var e := events[0];
      Happen(Put(s, e.o, if e.Upload? then Some(e.data) else None), events[1..])
  }

  /** Nothing is lost: every version is still in its place. */
  ghost predicate Keeps(s: Store, s': Store) {
    && s.versioned == s'.versioned
    && forall o: Object :: o.0 in s.versioned ==> Versions(s, o) <= Versions(s', o)
  }

  lemma PutKeeps(s: Store, o: Object, body: Option<string>)
    requires Valid(s)
    ensures Valid(Put(s, o, body)) && Keeps(s, Put(s, o, body))
    ensures Content(Put(s, o, body), o) == body
  {
  }

  lemma {:induction false} HappenKeeps(s: Store, events: seq<Event>)
    requires Valid(s)
    ensures Valid(Happen(s, events)) && Keeps(s, Happen(s, events))
    decreases |events|
  {
    if events != [] {
      var e := events[0];
      var body := if e.Upload? then Some(e.data) else None;
      PutKeeps(s, e.o, body);
      HappenKeeps(Put(s, e.o, body), events[1..]);
    }
  }

  /** A version that was the current one is found by its id ever after. */
  lemma {:induction false} VersionStays(versions: seq<Version>, later: seq<Version>, next: nat)
    requires versions != [] && versions <= later && Growing(later, next)
    ensures BodyOf(later, versions[|versions| - 1].id) == versions[|versions| - 1].body
    decreases |versions|
  {
    if |versions| > 1 {
      assert versions[0].id < versions[|versions| - 1].id by {
        assert later[0] == versions[0] && later[|versions| - 1] == versions[|versions| - 1];
      }
      assert later[0] == versions[0];
      VersionStays(versions[1..], later[1..], next);
    }
  }

  // ------------------------------------------------------------ the round trip

  /** The recorded versions are those the store had at the snapshot. */
  ghost predicate SnapshotOf(recorded: Recorded, s: Store) {
    forall o :: o in recorded ==>
      && (recorded[o].Some? ==> HeadObject(s, o) == Found(recorded[o].value))
      && (recorded[o].None? ==> !Exists(s, o))
  }

  ghost predicate Once(order: seq<Object>) { forall i, j :: 0 <= i < j < |order| ==> order[i] != order[j] }

  /** An object that is at its recorded version already is left alone; any other gets one version more. */
  ghost predicate OneVersion(s: Store, s': Store, o: Object, version: Option<nat>) {
    if version.Some? && HeadObject(s, o) == Found(version.value) then Versions(s', o) == Versions(s, o)
    else |Versions(s', o)| == |Versions(s, o)| + 1
  }

  /** Where the restored store differs from the one before: listed objects have the content of the snapshot. */
  ghost predicate Restored(start: Store, s: Store, s': Store, order: seq<Object>, recorded: Recorded) {
    && Keeps(s, s')
    && (forall o :: o !in order ==> Versions(s', o) == Versions(s, o))
    && forall o :: o in order && o in recorded ==>
         && Content(s', o) == (if recorded[o].Some? then Content(start, o) else Content(s, o))
         && OneVersion(s, s', o, recorded[o])
  }

  lemma RevertRestores(start: Store, s: Store, o: Object, version: Option<nat>)
    requires Valid(start) && Valid(s) && Keeps(start, s)
    requires version.Some? ==> HeadObject(start, o) == Found(version.value)
    ensures Revert(s, o, version, false).Some? <==> HeadObject(s, o).Found?
    ensures Revert(s, o, version, false).Some? ==>
              var s' := Revert(s, o, version, false).value;
              && Valid(s') && Keeps(s, s')
              && Content(s', o) == (if version.Some? then Content(start, o) else Content(s, o))
              && OneVersion(s, s', o, version)
              && forall p :: p != o ==> Versions(s', p) == Versions(s, p)
  {
    if HeadObject(s, o).Found? {
      if version.Some? {
        VersionStays(Versions(start, o), Versions(s, o), s.next);
        if version.value == HeadObject(s, o).id {
          SameId(Versions(start, o), Versions(s, o), s.next);
        }
      }
      if VersionBody(s, o, version).Some? {
        PutKeeps(s, o, VersionBody(s, o, version));
      }
    }
  }

  /** If the last versions of a history and of a longer one have the same id, the histories are the same. */
  lemma SameId(versions: seq<Version>, later: seq<Version>, next: nat)
    requires versions != [] && versions <= later && Growing(later, next)
    requires versions[|versions| - 1].id == later[|later| - 1].id
    ensures versions == later
  {
    assert later[|versions| - 1] == versions[|versions| - 1];
    assert |versions| == |later|;
  }

  /** One object after the other: what the first step and the rest did together. */
  lemma RestoredTogether(start: Store, s: Store, s': Store, s'': Store, order: seq<Object>, recorded: Recorded)
    requires order != [] && Once(order) && order[0] in recorded
    requires Keeps(s, s') && Restored(start, s', s'', order[1..], recorded)
    requires forall p :: p != order[0] ==> Versions(s', p) == Versions(s, p)
    requires var version := recorded[order[0]];
             && Content(s', order[0]) == (if version.Some? then Content(start, order[0]) else Content(s, order[0]))
             && OneVersion(s, s', order[0], version)
    ensures Restored(start, s, s'', order, recorded)
  {
    var o, rest := order[0], order[1..];
    FirstOnly(order);
    KeepsOn(s, s', s'');
    hide Versions, Keeps, Once, Content, OneVersion;
    forall p | p in order && p in recorded
      ensures Content(s'', p) == if recorded[p].Some? then Content(start, p) else Content(s, p)
      ensures OneVersion(s, s'', p, recorded[p])
    {
      if p == o {
        SameContent(s', s'', o);
        SameVersions(s, s', s'', o, recorded[o]);
      } else {
        SameContent(s, s', p);
        SameBefore(s, s', s'', p, recorded[p]);
      }
    }
  }

  lemma SameVersions(s: Store, s': Store, s'': Store, o: Object, version: Option<nat>)
    requires OneVersion(s, s', o, version) && Versions(s'', o) == Versions(s', o)
    ensures OneVersion(s, s'', o, version)
  {
  }

  lemma SameBefore(s: Store, s': Store, s'': Store, o: Object, version: Option<nat>)
    requires OneVersion(s', s'', o, version) && Versions(s', o) == Versions(s, o) && s'.versioned == s.versioned
    ensures OneVersion(s, s'', o, version)
  {
  }

  lemma FirstOnly(order: seq<Object>)
    requires order != [] && Once(order)
    ensures order[0] !in order[1..] && forall p :: p in order <==> p == order[0] || p in order[1..]
  {
    assert forall i :: 0 <= i < |order[1..]| ==> order[1..][i] == order[i + 1];
  }

  lemma SameContent(s: Store, s': Store, o: Object)
    requires Versions(s', o) == Versions(s, o)
    ensures Content(s', o) == Content(s, o)
  {
  }

  /** The index of the first object that cannot be reverted, or the length of the list. */
  function FirstMissing(s: Store, order: seq<Object>): (n: nat)
    ensures n <= |order|
    ensures forall i :: 0 <= i < n ==> HeadObject(s, order[i]).Found?
    ensures n < |order| ==> !HeadObject(s, order[n]).Found?
  {
    if order == [] || !HeadObject(s, order[0]).Found? then 0 else 1 + FirstMissing(s, order[1..])
  }

  /** The objects before the first missing one are restored, all others are left as they are. */
  lemma {:induction false} RestoreRestores(start: Store, s: Store, order: seq<Object>, recorded: Recorded)
    requires Valid(start) && Valid(s) && Keeps(start, s) && SnapshotOf(recorded, start) && Once(order)
    requires forall o :: o in order ==> o in recorded
    ensures var n := FirstMissing(s, order);
            && (Restore(s, order, recorded, false).1 <==> n == |order|)
            && Restored(start, s, Restore(s, order, recorded, false).0, order[..n], recorded)
    decreases |order|
  {
    hide Revert, Restored, Valid, Keeps, HeadObject;
    if order != [] {
      var o, rest := order[0], order[1..];
      assert forall i :: 0 <= i < |rest| ==> rest[i] == order[i + 1];
      RevertRestores(start, s, o, recorded[o]);
      if HeadObject(s, o).Found? {
        var s' := Revert(s, o, recorded[o], false).value;
        KeepsOn(start, s, s');
        RestoreRestores(start, s', rest, recorded);
        FirstOnly(order);
        HeadsUnchanged(s, s', o, rest);
        SameFirstMissing(s, s', rest);
        var n := FirstMissing(s, order);
        assert order[..n][0] == o && order[..n][1..] == rest[..n - 1];
        RestoredTogether(start, s, s', Restore(s', rest, recorded, false).0, order[..n], recorded);
      } else {
        NothingRestored(start, s, recorded);
      }
    } else {
      NothingRestored(start, s, recorded);
    }
  }

  lemma {:induction false} SameFirstMissing(s: Store, s': Store, order: seq<Object>)
    requires forall o :: o in order ==> HeadObject(s', o) == HeadObject(s, o)
    ensures FirstMissing(s', order) == FirstMissing(s, order)
    decreases |order|
  {
    if order != [] {
      SameFirstMissing(s, s', order[1..]);
    }
  }

  lemma NothingRestored(start: Store, s: Store, recorded: Recorded)
    ensures Restored(start, s, s, [], recorded)
  {
  }

  lemma KeepsOn(s: Store, s': Store, s'': Store)
    requires Keeps(s, s') && Keeps(s', s'')
    ensures Keeps(s, s'')
  {
    assert forall o: Object :: o.0 in s.versioned ==> Versions(s, o) <= Versions(s', o) <= Versions(s'', o);
  }

  lemma HeadsUnchanged(s: Store, s': Store, o: Object, rest: seq<Object>)
    requires o !in rest && Keeps(s, s') && forall p :: p != o ==> Versions(s', p) == Versions(s, p)
    ensures forall p :: p in rest ==> HeadObject(s', p) == HeadObject(s, p)
  {
  }

  /** After a snapshot and any uploads and deletions, the rollback completes if and only if every recorded object exists,
      in whatever order the objects are restored. Every recorded object before the first missing one that existed at the
      snapshot has the content it had then, every other object has the content it had before the rollback, and no version
      is lost. An object that is at its recorded version gets no new one. If the rollback completes, these are all recorded
      objects. */
  lemma {:induction false} RollbackRoundTrip(start: Store, recorded: Recorded, events: seq<Event>, order: seq<Object>)
    requires Valid(start) && SnapshotOf(recorded, start)
    requires Once(order) && forall o :: o in order <==> o in recorded
    requires forall o :: o in recorded ==> o.0 in start.versioned
    ensures var s := Happen(start, events);
            var (s', completed) := Restore(s, order, recorded, false);
            var n := FirstMissing(s, order);
            && (completed <==> forall o :: o in recorded ==> Exists(s, o))
            && (completed ==> n == |order|)
            && (forall o :: o in order[..n] && Exists(start, o) ==> Content(s', o) == Content(start, o))
            && (forall o :: o !in order[..n] || !Exists(start, o) ==> Content(s', o) == Content(s, o))
            && (forall o :: o !in order[..n] ==> Versions(s', o) == Versions(s, o))
            && (forall o :: o in order[..n] ==> OneVersion(s, s', o, recorded[o]))
            && Keeps(start, s')
  {
    HappenKeeps(start, events);
    var s := Happen(start, events);
    RestoreRestores(start, s, order, recorded);
    hide Happen, Restore, FirstMissing, Restored, Keeps, Content;
    var s', n := Restore(s, order, recorded, false).0, FirstMissing(s, order);
    AllExistIff(s, order, recorded);
    assert order[..|order|] == order;
    RestoredContents(start, s, s', order[..n], recorded);
  }

  lemma AllExistIff(s: Store, order: seq<Object>, recorded: Recorded)
    requires (forall o :: o in order <==> o in recorded) && forall o :: o in recorded ==> o.0 in s.versioned
    ensures FirstMissing(s, order) == |order| <==> forall o :: o in recorded ==> Exists(s, o)
  {
    var n := FirstMissing(s, order);
    if n < |order| {
      assert order[n] in order;
    }
  }

  lemma RestoredContents(start: Store, s: Store, s': Store, done: seq<Object>, recorded: Recorded)
    requires SnapshotOf(recorded, start) && Keeps(start, s) && Restored(start, s, s', done, recorded)
    requires forall o :: o in done ==> o in recorded
    ensures forall o :: o in done && Exists(start, o) ==> Content(s', o) == Content(start, o)
    ensures forall o :: o !in done || !Exists(start, o) ==> Content(s', o) == Content(s, o)
    ensures forall o :: o !in done ==> Versions(s', o) == Versions(s, o)
    ensures forall o :: o in done ==> OneVersion(s, s', o, recorded[o])
    ensures Keeps(start, s')
  {
    KeepsOn(start, s, s');
    hide Keeps;
  }

  /** Rolling back once more completes and changes no content. */
  lemma {:induction false} RollbackIsIdempotent(start: Store, recorded: Recorded, events: seq<Event>, order: seq<Object>,
                                                again: seq<Object>)
    requires Valid(start) && SnapshotOf(recorded, start)
    requires Once(order) && forall o :: o in order <==> o in recorded
    requires Once(again) && forall o :: o in again <==> o in recorded
    requires forall o :: o in recorded ==> o.0 in start.versioned
    requires Restore(Happen(start, events), order, recorded, false).1
    ensures var s' := Restore(Happen(start, events), order, recorded, false).0;
            var (s'', completed) := Restore(s', again, recorded, false);
            completed && forall o :: Content(s'', o) == Content(s', o)
  {
    hide Happen, Restore, Valid, Keeps, Restored, HeadObject;
    HappenKeeps(start, events);
    var s := Happen(start, events);
    RestoreRestores(start, s, order, recorded);
    RestoreValid(s, order, recorded);
    var s' := Restore(s, order, recorded, false).0;
    assert order[..|order|] == order && again[..|again|] == again;
    RestoredKeeps(start, s, s', order, recorded);
    AllFound(start, s, s', order, recorded);
    RestoreRestores(start, s', again, recorded);
    SameContents(start, s, s', Restore(s', again, recorded, false).0, order, again, recorded);
  }

  lemma RestoredKeeps(start: Store, s: Store, s': Store, order: seq<Object>, recorded: Recorded)
    requires Keeps(start, s) && Restored(start, s, s', order, recorded)
    ensures Keeps(start, s')
  {
    hide Valid;
    KeepsOn(start, s, s');
  }

  /** Restored objects exist. */
  lemma AllFound(start: Store, s: Store, s': Store, order: seq<Object>, recorded: Recorded)
    requires Keeps(start, s) && SnapshotOf(recorded, start) && Restored(start, s, s', order, recorded)
    requires forall o :: o in order ==> o in recorded && HeadObject(s, o).Found?
    ensures forall o :: o in order ==> HeadObject(s', o).Found?
  {
    forall o | o in order
      ensures HeadObject(s', o).Found?
    {
      assert Content(s', o).Some?;
    }
  }

  lemma SameContents(start: Store, s: Store, s': Store, s'': Store, order: seq<Object>, again: seq<Object>,
                     recorded: Recorded)
    requires Restored(start, s, s', order, recorded) && Restored(start, s', s'', again, recorded)
    requires forall o :: o in order <==> o in recorded
    requires forall o :: o in again <==> o in recorded
    ensures forall o :: Content(s'', o) == Content(s', o)
  {
    hide Keeps;
  }

  lemma {:induction false} RestoreValid(s: Store, order: seq<Object>, recorded: Recorded)
    requires Valid(s) && forall o :: o in order ==> o in recorded
    ensures Valid(Restore(s, order, recorded, false).0)
    decreases |order|
  {
    if order != [] {
      var o := order[0];
      if VersionBody(s, o, recorded[o]).Some? {
        PutKeeps(s, o, VersionBody(s, o, recorded[o]));
      }
      if Revert(s, o, recorded[o], false).Some? {
        RestoreValid(Revert(s, o, recorded[o], false).value, order[1..], recorded);
      }
    }
  }

  /** Without deploying nothing changes, and the run completes if and only if deploying would find every object. */
  lemma {:induction false} DryRunChangesNothing(s: Store, order: seq<Object>, recorded: Recorded)
    requires forall o :: o in order ==> o in recorded
    ensures Restore(s, order, recorded, true).0 == s
    ensures Restore(s, order, recorded, true).1 <==> forall o :: o in order ==> Exists(s, o) && o.0 in s.versioned
    decreases |order|
  {
    if order != [] {
      assert forall i :: 0 < i < |order| ==> order[i] == order[1..][i - 1];
      if HeadObject(s, order[0]).Found? {
        DryRunChangesNothing(s, order[1..], recorded);
      }
    }
  }

  // ------------------------------------------------------------ the scripts as they run

  /** What the snapshot keeps for a bucket: the versions by key. */
  type Files = map<string, Option<nat>>

  /** The recorded versions by bucket and key. */
  function AllRecorded(data: map<string, Files>): Recorded {
    map b, k | b in data && k in data[b] :: (b, k) := data[b][k]
  }

  /** The document manager and the store behind it. */
  class S3DocumentManager {
    var store: Store

    constructor (store: Store)
      ensures this.store == store
    {
      this.store := store;
    }

    /** `get_current_version` without raising for a missing object; exits on a bucket without versioning. */
    method CurrentVersion(o: Object) returns (ok: bool, version: Option<nat>)
      ensures ok <==> !HeadObject(store, o).NotVersioned?
      ensures ok ==> version == if HeadObject(store, o).Found? then Some(HeadObject(store, o).id) else None
    {
      match HeadObject(store, o)
      case Missing => return true, None;
      case NotVersioned => return false, None;
      case Found(id) => return true, Some(id);
    }

    /** `generate_rollback_data`: the versions of every file in the bucket of every region. */
    method GenerateRollbackData(regions: seq<string>, bucketOf: string -> string, files: seq<string>,
                                pathOf: string -> string)
      returns (ok: bool, data: map<string, Files>)
      ensures ok ==> SnapshotOf(AllRecorded(data), store)
      ensures ok ==> data.Keys == Image(regions, bucketOf) && forall b :: b in data ==> data[b].Keys == Image(files, pathOf)
      ensures ok <==> forall i :: 0 <= i < |regions| ==> Versioned(store, bucketOf(regions[i]), files, pathOf)
    {
      hide Image, SnapshotOf, AllRecorded, HeadObject, FileSnapshot, Versioned;
      data := map[];
      NoBuckets(store, bucketOf);
      assert regions[..0] == [];
      for i := 0 to |regions|
        invariant SnapshotOf(AllRecorded(data), store)
        invariant forall k :: 0 <= k < i ==> Versioned(store, bucketOf(regions[k]), files, pathOf)
        invariant data.Keys == Image(regions[..i], bucketOf)
        invariant forall b :: b in data ==> data[b].Keys == Image(files, pathOf)
      {
        var bucket := bucketOf(regions[i]);
        var recorded;
        ok, recorded := BucketVersions(bucket, files, pathOf);
        if !ok {
          return;
        }
        BucketRecorded(store, data, bucket, recorded);
        ImageStep(regions, i, bucketOf);
        data := data[bucket := recorded];
      }
      assert regions[..|regions|] == regions;
      ok := true;
    }

    /** The versions of the files in one bucket. */
    method BucketVersions(bucket: string, files: seq<string>, pathOf: string -> string)
      returns (ok: bool, recorded: Files)
      ensures ok ==> recorded.Keys == Image(files, pathOf)
      ensures ok ==> forall k :: k in recorded ==> FileSnapshot(store, bucket, k, recorded[k])
      ensures ok <==> Versioned(store, bucket, files, pathOf)
    {
      recorded := map[];
      for j := 0 to |files|
        invariant recorded.Keys == Image(files[..j], pathOf)
        invariant forall k :: 0 <= k < j && Exists(store, (bucket, pathOf(files[k]))) ==> bucket in store.versioned
        invariant forall k :: k in recorded ==> FileSnapshot(store, bucket, k, recorded[k])
      {
        var version;
        ok, version := CurrentVersion((bucket, pathOf(files[j])));
        if !ok {
          return;
        }
        ImageStep(files, j, pathOf);
        recorded := recorded[pathOf(files[j]) := version];
      }
      assert files[..|files|] == files;
      ok := true;
    }

    /** `revert_object`. */
    method RevertObject(o: Object, version: Option<nat>, dryrun: bool) returns (ok: bool)
      modifies this
      ensures match Revert(old(store), o, version, dryrun)
              case None => !ok && store == old(store)
              case Some(s) => ok && store == s
    {
      var found, current := CurrentVersion(o);
      if !found || current.None? {
        return false;
      }
      if version != current && !dryrun {
        var body := VersionBody(store, o, version);
        if body.None? {
          return false;
        }
        store := Put(store, o, body);
      }
      ok := true;
    }

    /** `execute_rollback`: bucket by bucket, file by file, in whatever order the file lists them; the first failure ends
        it. The objects it came to are in `order`. */
    method ExecuteRollback(data: map<string, Files>, deploy: bool) returns (ok: bool, ghost order: seq<Object>)
      modifies this
      ensures Once(order) && forall o :: o in order ==> o in AllRecorded(data)
      ensures ok ==> forall o :: o in AllRecorded(data) ==> o in order
      ensures (store, ok) == Restore(old(store), order, AllRecorded(data), !deploy)
    {
      hide Revert, Restore;
      ghost var recorded := AllRecorded(data);
      var buckets := data.Keys;
      order := [];
      RestoreNone(store, recorded, !deploy);
      while buckets != {}
        invariant buckets <= data.Keys
        invariant Once(order) && forall o: Object :: o in order <==> o in recorded && o.0 !in buckets
        invariant (store, true) == Restore(old(store), order, recorded, !deploy)
        decreases buckets
      {
        var bucket :| bucket in buckets;
        buckets := buckets - {bucket};
        var files := data[bucket].Keys;
        while files != {}
          invariant files <= data[bucket].Keys
          invariant Once(order)
          invariant forall o: Object :: o in order <==>
                                          o in recorded && o.0 !in buckets && (o.0 == bucket ==> o.1 !in files)
          invariant (store, true) == Restore(old(store), order, recorded, !deploy)
          decreases files
        {
          var file :| file in files;
          files := files - {file};
          ghost var o := (bucket, file);
          assert o in recorded && recorded[o] == data[bucket][file];
          RestoreOneMore(old(store), order, o, recorded, !deploy);
          ok := RevertObject((bucket, file), data[bucket][file], !deploy);
          order := order + [o];
          if !ok {
            return;
          }
        }
      }
      ok := true;
    }
  }

  lemma RestoreNone(s: Store, recorded: Recorded, dryrun: bool)
    ensures Restore(s, [], recorded, dryrun) == (s, true)
  {
  }

  /** Restoring one more object after the others were restored. */
  lemma {:induction false} RestoreOneMore(s: Store, order: seq<Object>, o: Object, recorded: Recorded, dryrun: bool)
    requires o in recorded && forall p :: p in order ==> p in recorded
    requires Restore(s, order, recorded, dryrun).1
    ensures var s' := Restore(s, order, recorded, dryrun).0;
            Restore(s, order + [o], recorded, dryrun)
            == match Revert(s', o, recorded[o], dryrun)
               case None => (s', false)
               case Some(next) => (next, true)
    decreases |order|
  {
    hide Revert;
    if order == [] {
      assert [o][1..] == [] && [] + [o] == [o];
    } else {
      assert (order + [o])[1..] == order[1..] + [o];
      RestoreOneMore(Revert(s, order[0], recorded[order[0]], dryrun).value, order[1..], o, recorded, dryrun);
    }
  }

  /** No file of the bucket is there without versioning. */
  predicate Versioned(s: Store, bucket: string, files: seq<string>, pathOf: string -> string) {
    forall k :: 0 <= k < |files| && Exists(s, (bucket, pathOf(files[k]))) ==> bucket in s.versioned
  }

  lemma NoBuckets(s: Store, f: string -> string)
    ensures Image([], f) == {} && SnapshotOf(AllRecorded(map[]), s)
  {
  }

  function Image(names: seq<string>, f: string -> string): set<string> { set i | 0 <= i < |names| :: f(names[i]) }

  lemma ImageStep(names: seq<string>, i: nat, f: string -> string)
    requires i < |names|
    ensures Image(names[..i + 1], f) == Image(names[..i], f) + {f(names[i])}
  {
    assert names[..i + 1] == names[..i] + [names[i]];
    assert forall k :: 0 <= k < i ==> names[..i + 1][k] == names[..i][k];
    assert names[..i + 1][i] == names[i];
  }

  ghost predicate FileSnapshot(s: Store, bucket: string, key: string, version: Option<nat>) {
    && (version.Some? ==> HeadObject(s, (bucket, key)) == Found(version.value))
    && (version.None? ==> !Exists(s, (bucket, key)))
  }

  lemma BucketRecorded(s: Store, data: map<string, Files>, bucket: string, files: Files)
    requires SnapshotOf(AllRecorded(data), s) && forall k :: k in files ==> FileSnapshot(s, bucket, k, files[k])
    ensures SnapshotOf(AllRecorded(data[bucket := files]), s)
  {
    hide HeadObject, Exists;
    var after := AllRecorded(data[bucket := files]);
    forall o | o in after
      ensures FileSnapshot(s, o.0, o.1, after[o])
    {
      if o.0 != bucket {
        assert o in AllRecorded(data) && AllRecorded(data)[o] == after[o];
      }
    }
  }
}
