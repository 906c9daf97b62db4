/** What an allowed update does to shared storage: what is mounted at the home directory neither comes nor goes, while
    nodes run only external file systems of the live types come and go, and what stays keeps its mount directory. With
    nothing running what stays may be moved, also to or from the home directory. */
module StorageSafety {
  import opened Values
  import opened Schema
  import opened ConfigDiff
  import opened DiffShape
  import opened Routes
  import opened ResizeSafety
  import opened UpdatePolicy
  import PolicyLaws
  import PolicyConditions

  function StorageField(storage: Schema): Field {
    Field("SharedStorage", Many("Name", storage), SharedStorageUpdate)
  }

  function StorageList(config: Node): seq<Item> { ListOf(config, "SharedStorage") }

  predicate MountedAtHome(it: Item) { PolicyConditions.AtHome(it.body) }

  /** A file system that the cluster does not own, of a type that nodes can mount and unmount while they run. */
  predicate ExternalLive(it: Item) { PolicyConditions.LiveStorage(it.body) }

  /** The storage comes, or goes. */
  predicate Comes(patch: Patch, i: nat)
    requires i < |StorageList(patch.target)|
  {
    MatchOf(StorageList(patch.base), "Name", StorageList(patch.target)[i]) == |StorageList(patch.base)|
  }

  predicate Goes(patch: Patch, k: nat)
    requires k < |StorageList(patch.base)|
  {
    !Kept(StorageList(patch.base), StorageList(patch.target), "Name", k)
  }

  ghost predicate AllowedPatch(s: Schema, storage: Schema, patch: Patch, fleet: Fleet, parsers: Parsers) {
    && NoScript(s) && StorageField(storage) in s.fields
    && patch.changes == Diff(s, patch.base, patch.target, []) && Allowed(patch, fleet, parsers)
  }

  /** A coming or going storage was checked by the shared storage policy. */
  lemma ComingChecked(s: Schema, storage: Schema, patch: Patch, fleet: Fleet, parsers: Parsers, i: nat)
    requires AllowedPatch(s, storage, patch, fleet, parsers)
    requires i < |StorageList(patch.target)| && Comes(patch, i)
    ensures Added([], StorageField(storage), StorageList(patch.target)[i]) in patch.changes
    ensures exists cache ::
              SharedStorageCheck(Added([], StorageField(storage), StorageList(patch.target)[i]), patch, fleet, cache).verdict
              == Allow
  {
    hide SharedStorageCheck, Diff, CheckAll;
    var c := Added([], StorageField(storage), StorageList(patch.target)[i]);
    assert c in DiffItem(StorageField(storage), "Name", storage, StorageList(patch.base), StorageList(patch.target)[i],
                         [], []);
    ItemRecorded(s, StorageField(storage), patch.base, patch.target, [], i, c);
    EachPasses(patch.changes, patch, fleet, parsers, None, c);
    var cache :| Condition(c.policy, c, patch, fleet, parsers, cache).verdict == Allow;
    assert SharedStorageCheck(c, patch, fleet, cache).verdict == Allow;
  }

  lemma GoingChecked(s: Schema, storage: Schema, patch: Patch, fleet: Fleet, parsers: Parsers, k: nat)
    requires AllowedPatch(s, storage, patch, fleet, parsers)
    requires k < |StorageList(patch.base)| && Goes(patch, k)
    ensures RemovedItem([], StorageField(storage), StorageList(patch.base)[k]) in patch.changes
    ensures exists cache ::
              SharedStorageCheck(RemovedItem([], StorageField(storage), StorageList(patch.base)[k]), patch, fleet,
                                 cache).verdict == Allow
  {
    hide SharedStorageCheck, Diff, CheckAll;
    var c := RemovedItem([], StorageField(storage), StorageList(patch.base)[k]);
    RemovalRecorded(s, StorageField(storage), patch.base, patch.target, [], k);
    EachPasses(patch.changes, patch, fleet, parsers, None, c);
    var cache :| Condition(c.policy, c, patch, fleet, parsers, cache).verdict == Allow;
    assert SharedStorageCheck(c, patch, fleet, cache).verdict == Allow;
  }

  /** What the shared storage checker lets come or go. */
  lemma StorageChangePasses(c: Change, it: Item, patch: Patch, fleet: Fleet, cache: Option<bool>)
    requires c.key == "SharedStorage"
    requires (c.oldValue == NONE && c.newValue == Sec(it.body)) || (c.oldValue == Sec(it.body) && c.newValue == NONE)
    requires SharedStorageCheck(c, patch, fleet, cache).verdict == Allow
    ensures !MountedAtHome(it)
    ensures fleet.capacity && !PolicyConditions.SetsStrategy(patch.target) ==> ExternalLive(it)
  {
    PolicyConditions.StorageIff(c, patch, fleet, cache);
    hide SharedStorageCheck, PolicyConditions.SetsStrategy, PolicyConditions.LoginStopped, PolicyConditions.LiveStorage;
    assert MountedAtHome(it) ==> it.body != map[];
  }

  /** While the kept answer is that login nodes run, only storage that they can mount and unmount comes or goes. */
  lemma LoginKeepsLive(c: Change, it: Item, patch: Patch, fleet: Fleet, parsers: Parsers, cache: Option<bool>)
    requires c in patch.changes && c.policy == SharedStorageUpdate && c.key == "SharedStorage"
    requires (c.oldValue == NONE && c.newValue == Sec(it.body)) || (c.oldValue == Sec(it.body) && c.newValue == NONE)
    requires SharedStorageCheck(c, patch, fleet, cache).verdict == Allow
    requires Allowed(patch, fleet, parsers) && PolicyLaws.FirstAnswer(patch.changes, fleet) == Some(true)
    ensures ExternalLive(it)
  {
    hide StrategySet, LoginRunning, Allowed, PolicyLaws.FirstAnswer, PolicyLaws.PassesWith, PolicyConditions.LiveStorage,
      LiveUpdate;
    PolicyLaws.AllowedIff(patch, fleet, parsers);
    PolicyConditions.LiveIff(c);
    var i :| 0 <= i < |patch.changes| && patch.changes[i] == c;
    assert !PolicyLaws.NeedsStopped(patch.changes[i], fleet);
  }

  /** Nodes run that must be able to mount and unmount what comes and goes: compute capacity under the default strategy,
      or login nodes, as the kept answer has it. */
  ghost predicate NodesRun(patch: Patch, fleet: Fleet) {
    || (fleet.capacity && !PolicyConditions.SetsStrategy(patch.target))
    || PolicyLaws.FirstAnswer(patch.changes, fleet) == Some(true)
  }

  /** In an allowed update no storage mounted at the home directory comes or goes; and while nodes run, whatever comes or
      goes is external and of a live type, so no managed file system is dropped. */
  lemma AllowedKeepsStorage(s: Schema, storage: Schema, patch: Patch, fleet: Fleet, parsers: Parsers)
    requires AllowedPatch(s, storage, patch, fleet, parsers)
    ensures forall i :: 0 <= i < |StorageList(patch.target)| && Comes(patch, i) ==>
              var it := StorageList(patch.target)[i];
              !MountedAtHome(it) && (NodesRun(patch, fleet) ==> ExternalLive(it))
    ensures forall k :: 0 <= k < |StorageList(patch.base)| && Goes(patch, k) ==>
              var it := StorageList(patch.base)[k];
              !MountedAtHome(it) && (NodesRun(patch, fleet) ==> ExternalLive(it))
  {
    assert Allowed(patch, fleet, parsers);
    hide AllowedPatch, Allowed, Comes, Goes, SharedStorageCheck, ExternalLive, MountedAtHome,
      PolicyConditions.SetsStrategy,
      PolicyLaws.FirstAnswer;
    forall i | 0 <= i < |StorageList(patch.target)| && Comes(patch, i)
      ensures var it := StorageList(patch.target)[i];
              !MountedAtHome(it) && (NodesRun(patch, fleet) ==> ExternalLive(it))
    {
      ComingChecked(s, storage, patch, fleet, parsers, i);
      StorageChangeSafe(Added([], StorageField(storage), StorageList(patch.target)[i]), StorageList(patch.target)[i],
                        patch, fleet, parsers);
    }
    forall k | 0 <= k < |StorageList(patch.base)| && Goes(patch, k)
      ensures var it := StorageList(patch.base)[k];
              !MountedAtHome(it) && (NodesRun(patch, fleet) ==> ExternalLive(it))
    {
      GoingChecked(s, storage, patch, fleet, parsers, k);
      StorageChangeSafe(RemovedItem([], StorageField(storage), StorageList(patch.base)[k]), StorageList(patch.base)[k],
                        patch, fleet, parsers);
    }
  }

  lemma StorageChangeSafe(c: Change, it: Item, patch: Patch, fleet: Fleet, parsers: Parsers)
    requires c in patch.changes && c.policy == SharedStorageUpdate && c.key == "SharedStorage"
    requires (c.oldValue == NONE && c.newValue == Sec(it.body)) || (c.oldValue == Sec(it.body) && c.newValue == NONE)
    requires Allowed(patch, fleet, parsers) && exists cache :: SharedStorageCheck(c, patch, fleet, cache).verdict == Allow
    ensures !MountedAtHome(it) && (NodesRun(patch, fleet) ==> ExternalLive(it))
  {
    hide Allowed, SharedStorageCheck, ExternalLive, MountedAtHome, PolicyConditions.SetsStrategy,
      PolicyLaws.FirstAnswer;
    var cache :| SharedStorageCheck(c, patch, fleet, cache).verdict == Allow;
    StorageChangePasses(c, it, patch, fleet, cache);
    if PolicyLaws.FirstAnswer(patch.changes, fleet) == Some(true) {
      LoginKeepsLive(c, it, patch, fleet, parsers, cache);
    }
  }

  // ------------------------------------------------------------ storage that stays

  const MOUNT_DIR := Field("MountDir", Param, SharedStorageUpdate)

  function MountDir(it: Item): Node { Get(it.body, "MountDir") }

  /** Target storage `i` stays under its name. */
  predicate Remains(patch: Patch, i: nat)
    requires i < |StorageList(patch.target)|
  {
    MatchOf(StorageList(patch.base), "Name", StorageList(patch.target)[i]) < |StorageList(patch.base)|
  }

  function Before(patch: Patch, i: nat): Item
    requires i < |StorageList(patch.target)| && Remains(patch, i)
  {
    StorageList(patch.base)[MatchOf(StorageList(patch.base), "Name", StorageList(patch.target)[i])]
  }

  predicate Moved(patch: Patch, i: nat)
    requires i < |StorageList(patch.target)| && Remains(patch, i)
  {
    MountDir(Before(patch, i)) != MountDir(StorageList(patch.target)[i])
  }

  function Move(patch: Patch, i: nat): Change
    requires i < |StorageList(patch.target)| && Remains(patch, i)
  {
    var t := StorageList(patch.target)[i];
    Change([Segment("SharedStorage", Get(t.body, "Name"))], "MountDir", MountDir(Before(patch, i)), MountDir(t),
           SharedStorageUpdate, false)
  }

  /** The patch is what the comparison is meant to record, and mount directories are plain values. */
  ghost predicate Compared(s: Schema, storage: Schema, patch: Patch) {
    && NoScript(s) && StorageField(storage) in s.fields && NoScript(storage) && MOUNT_DIR in storage.fields
    && patch.changes == Diff(s, patch.base, patch.target, [])
    && (forall i :: 0 <= i < |StorageList(patch.base)| ==> MountDir(StorageList(patch.base)[i]).Leaf?)
    && (forall i :: 0 <= i < |StorageList(patch.target)| ==> MountDir(StorageList(patch.target)[i]).Leaf?)
  }

  lemma MoveRecorded(s: Schema, storage: Schema, patch: Patch, i: nat)
    requires Compared(s, storage, patch) && i < |StorageList(patch.target)| && Remains(patch, i) && Moved(patch, i)
    ensures Move(patch, i) in patch.changes
  {
    var bi, ti := Before(patch, i), StorageList(patch.target)[i];
    var path: Path := [Segment("SharedStorage", Get(ti.body, "Name"))];
    assert [] + path == path;
    assert ReadParam("MountDir", Sec(bi.body)) == (MountDir(bi), "MountDir");
    assert ReadParam("MountDir", Sec(ti.body)) == (MountDir(ti), "MountDir");
    assert Move(patch, i) in DiffField(MOUNT_DIR, Sec(bi.body), Sec(ti.body), path, path);
    hide Diff, DiffField, Segment, FirstMatch;
    FieldRecorded(storage, MOUNT_DIR, Sec(bi.body), Sec(ti.body), path, Move(patch, i));
    assert DiffItem(StorageField(storage), "Name", storage, StorageList(patch.base), ti, [], [])
        == Diff(storage, Sec(bi.body), Sec(ti.body), path);
    ItemRecorded(s, StorageField(storage), patch.base, patch.target, [], i, Move(patch, i));
  }

  /** Nodes run, as the kept answer has it for login nodes; no update strategy helps. */
  ghost predicate AnythingRuns(patch: Patch, fleet: Fleet) {
    fleet.capacity || PolicyLaws.FirstAnswer(patch.changes, fleet) == Some(true)
  }

  /** A move passes exactly when nothing runs. */
  lemma MovePassesIff(s: Schema, storage: Schema, patch: Patch, fleet: Fleet, parsers: Parsers, i: nat)
    requires Compared(s, storage, patch) && i < |StorageList(patch.target)| && Remains(patch, i) && Moved(patch, i)
    ensures PolicyLaws.PassesWith(Move(patch, i), patch, fleet, parsers, PolicyLaws.FirstAnswer(patch.changes, fleet))
            <==> !AnythingRuns(patch, fleet)
  {
    var c, answer := Move(patch, i), PolicyLaws.FirstAnswer(patch.changes, fleet);
    MoveRecorded(s, storage, patch, i);
    PolicyLaws.MountDirRaisesIffRunning(c, patch, fleet, parsers, answer);
    var k :| 0 <= k < |patch.changes| && patch.changes[k] == c;
    assert PolicyLaws.Answer(c, fleet).Some?;
    PolicyLaws.NoAnswer(patch.changes, fleet, k);
    assert LoginRunning(fleet, "", answer) == answer;
  }

  /** Every patch whose other changes pass: it is allowed if and only if no storage that stays is moved, or nothing runs.
      Directories do not matter: with nothing running what is mounted at the home directory may be moved away and
      something else be moved there. */
  lemma AllowedIffMovesPass(s: Schema, storage: Schema, patch: Patch, fleet: Fleet, parsers: Parsers)
    requires Compared(s, storage, patch)
    requires forall k :: 0 <= k < |patch.changes| ==>
               || PolicyLaws.PassesWith(patch.changes[k], patch, fleet, parsers,
                                        PolicyLaws.FirstAnswer(patch.changes, fleet))
               || exists i :: 0 <= i < |StorageList(patch.target)| && Remains(patch, i) && Moved(patch, i)
                              && patch.changes[k] == Move(patch, i)
    ensures Allowed(patch, fleet, parsers)
            <==> !AnythingRuns(patch, fleet)
                 || forall i :: 0 <= i < |StorageList(patch.target)| && Remains(patch, i) ==> !Moved(patch, i)
  {
    hide Compared, Remains, Moved, Move, CheckAll, PolicyLaws.PassesWith, PolicyLaws.FirstAnswer, AnythingRuns;
    AllowedEach(patch, fleet, parsers);
    forall i | 0 <= i < |StorageList(patch.target)| && Remains(patch, i) && Moved(patch, i)
      ensures exists k :: 0 <= k < |patch.changes| && patch.changes[k] == Move(patch, i)
      ensures PolicyLaws.PassesWith(Move(patch, i), patch, fleet, parsers, PolicyLaws.FirstAnswer(patch.changes, fleet))
              <==> !AnythingRuns(patch, fleet)
    {
      MoveRecorded(s, storage, patch, i);
      MovePassesIff(s, storage, patch, fleet, parsers, i);
    }
  }

  lemma AllowedEach(patch: Patch, fleet: Fleet, parsers: Parsers)
    ensures Allowed(patch, fleet, parsers) <==>
            forall k :: 0 <= k < |patch.changes| ==>
              PolicyLaws.PassesWith(patch.changes[k], patch, fleet, parsers,
                                    PolicyLaws.FirstAnswer(patch.changes, fleet))
  {
    hide CheckAll, PolicyLaws.PassesWith, PolicyLaws.FirstAnswer;
    PolicyLaws.PassesIffEachWithFirst(patch.changes, patch, fleet, parsers, None);
    assert Allowed(patch, fleet, parsers) == PolicyLaws.Passes(patch.changes, patch, fleet, parsers, None);
  }

  /** So while anything runs an allowed patch leaves all storage that stays where it is mounted. */
  lemma AllowedKeepsMountDirs(s: Schema, storage: Schema, patch: Patch, fleet: Fleet, parsers: Parsers)
    requires Compared(s, storage, patch) && Allowed(patch, fleet, parsers) && AnythingRuns(patch, fleet)
    ensures forall i :: 0 <= i < |StorageList(patch.target)| && Remains(patch, i) ==>
              MountDir(StorageList(patch.target)[i]) == MountDir(Before(patch, i))
  {
    AllowedEach(patch, fleet, parsers);
    hide Compared, Remains, CheckAll, Allowed, Move, PolicyLaws.PassesWith, PolicyLaws.FirstAnswer, AnythingRuns;
    forall i | 0 <= i < |StorageList(patch.target)| && Remains(patch, i)
      ensures !Moved(patch, i)
    {
      if Moved(patch, i) {
        MoveRecorded(s, storage, patch, i);
        MovePassesIff(s, storage, patch, fleet, parsers, i);
      }
    }
  }

  // ------------------------------------------------------------ moving the home directory

  const NAME := Field("Name", Param, Unsupported)
  const STORAGE_TYPE := Field("StorageType", Param, Unsupported)
  const STORAGE := Schema([MOUNT_DIR, NAME, STORAGE_TYPE])
  const CLUSTER := Schema([StorageField(STORAGE)])

  function Storage(id: nat, directory: string, name: string, kind: string): Item {
    Item(id, map["MountDir" := Leaf(Str(directory)), "Name" := Leaf(Str(name)), "StorageType" := Leaf(Str(kind))])
  }

  function Config(it: Item): Node { Sec(map["SharedStorage" := Items([it])]) }

  lemma OneParam(fs: seq<Field>, b: Node, t: Node, path: Path)
    requires fs != [] && fs[0].kind.Param? && fs[0].key != "Script" && b.Sec? && t.Sec?
    ensures var (bv, tv) := (Entry(b, fs[0].key), Entry(t, fs[0].key));
            DiffFields(fs, b, t, path, path)
            == (if tv == bv then [] else [Change(path, fs[0].key, bv, tv, fs[0].policy, false)])
               + DiffFields(fs[1..], b, t, path, path)
  {
    var f := fs[0];
    assert ReadParam(f.key, b) == (Entry(b, f.key), f.key) && ReadParam(f.key, t) == (Entry(t, f.key), f.key);
    assert Step(f, b, t, path) == path;
  }

  lemma StorageDiff(ids: (nat, nat), before: string, after: string, name: string, kind: string, path: Path)
    requires before != after
    ensures Diff(STORAGE, Sec(Storage(ids.0, before, name, kind).body), Sec(Storage(ids.1, after, name, kind).body), path)
            == [Change(path, "MountDir", Leaf(Str(before)), Leaf(Str(after)), SharedStorageUpdate, false)]
  {
    var b, t := Sec(Storage(ids.0, before, name, kind).body), Sec(Storage(ids.1, after, name, kind).body);
    var fs := [MOUNT_DIR, NAME, STORAGE_TYPE];
    assert Entry(b, "MountDir") == Leaf(Str(before)) && Entry(t, "MountDir") == Leaf(Str(after));
    assert Entry(b, "Name") == Entry(t, "Name") && Entry(b, "StorageType") == Entry(t, "StorageType");
    assert fs[1..] == [NAME, STORAGE_TYPE] && [NAME, STORAGE_TYPE][1..] == [STORAGE_TYPE] && [STORAGE_TYPE][1..] == [];
    hide DiffFields, FinalPath, Storage;
    PathStays(fs, b, t, path);
    OneParam(fs, b, t, path);
    OneParam([NAME, STORAGE_TYPE], b, t, path);
    OneParam([STORAGE_TYPE], b, t, path);
    NoFields(b, t, path);
  }

  lemma NoFields(b: Node, t: Node, path: Path)
    ensures DiffFields([], b, t, path, path) == []
  {
  }

  /** One storage on each side, under one name. */
  lemma OneStorageDiff(b: Item, t: Item, move: Change)
    requires b.body != map[] && Get(b.body, "Name") == Get(t.body, "Name")
    requires Diff(STORAGE, Sec(b.body), Sec(t.body), [Segment("SharedStorage", Get(t.body, "Name"))]) == [move]
    ensures Diff(CLUSTER, Config(b), Config(t), []) == [move]
  {
    hide Diff, STORAGE, Segment;
    var f := StorageField(STORAGE);
    var path: Path := [Segment("SharedStorage", Get(t.body, "Name"))];
    assert [] + path == path;
    assert ListOf(Config(b), "SharedStorage") == [b] && ListOf(Config(t), "SharedStorage") == [t];
    assert MatchOf([b], "Name", t) == 0 && [t][1..] == [];
    assert DiffItem(f, "Name", STORAGE, [b], t, [], []) == [move];
    assert DiffItems(f, "Name", STORAGE, [b], [], [], []) == [];
    assert DiffItems(f, "Name", STORAGE, [b], [t], [], []) == [move];
    assert MatchOf([b], "Name", [t][0]) == 0;
    assert Kept([b], [t], "Name", 0) && DiffRemoved(f, "Name", [b], [t], 1, []) == [];
    assert DiffField(f, Config(b), Config(t), [], []) == [move];
    OneFieldDiff(f, Config(b), Config(t), [move]);
  }

  lemma OneFieldDiff(f: Field, b: Node, t: Node, cs: seq<Change>)
    requires !Switches(f, b, t) && DiffField(f, b, t, [], []) == cs
    ensures Diff(Schema([f]), b, t, []) == cs
  {
    hide DiffField;
    PathStays([f], b, t, []);
    assert [f][1..] == [] && Step(f, b, t, []) == [];
    assert DiffFields([], b, t, [], []) == [] && cs + [] == cs;
  }

  /** For every storage and every two directories, `/home` among them: moving it is one change, which is allowed if and only
      if neither compute nor login nodes run. */
  lemma MovedStorageAllowedIff(ids: (nat, nat), before: string, after: string, name: string, kind: string, fleet: Fleet,
                               parsers: Parsers)
    requires before != after
    ensures var base, target := Config(Storage(ids.0, before, name, kind)), Config(Storage(ids.1, after, name, kind));
            var move := Change([Segment("SharedStorage", Leaf(Str(name)))], "MountDir", Leaf(Str(before)),
                               Leaf(Str(after)), SharedStorageUpdate, false);
            && Diff(CLUSTER, base, target, []) == [move]
            && (Allowed(Patch(base, target, [move]), fleet, parsers) <==> !fleet.capacity && !fleet.login)
  {
    var b, t := Storage(ids.0, before, name, kind), Storage(ids.1, after, name, kind);
    var path: Path := [Segment("SharedStorage", Leaf(Str(name)))];
    var move := Change(path, "MountDir", Leaf(Str(before)), Leaf(Str(after)), SharedStorageUpdate, false);
    assert "Name" in b.body && Get(b.body, "Name") == Leaf(Str(name)) && Get(t.body, "Name") == Leaf(Str(name));
    hide Diff, Segment, Storage, STORAGE;
    StorageDiff(ids, before, after, name, kind, path);
    OneStorageDiff(b, t, move);
    OneMoveAllowedIff(Patch(Config(b), Config(t), [move]), move, fleet, parsers);
  }

  lemma OneMoveAllowedIff(patch: Patch, move: Change, fleet: Fleet, parsers: Parsers)
    requires patch.changes == [move] && move.policy == SharedStorageUpdate && move.key == "MountDir"
    requires move.oldValue.Leaf? && move.newValue.Leaf?
    ensures Allowed(patch, fleet, parsers) <==> !fleet.capacity && !fleet.login
  {
    AllowedEach(patch, fleet, parsers);
    assert PolicyLaws.FirstAnswer([move], fleet) == Some(fleet.login) by {
      assert PolicyLaws.Answer(move, fleet) == Some(fleet.login);
    }
    PolicyLaws.MountDirRaisesIffRunning(move, patch, fleet, parsers, Some(fleet.login));
    hide CheckAll, PolicyLaws.PassesWith;
    assert patch.changes[0] == move;
    assert PolicyLaws.PassesWith(move, patch, fleet, parsers, Some(fleet.login)) <==> !fleet.capacity && !fleet.login;
  }
}
