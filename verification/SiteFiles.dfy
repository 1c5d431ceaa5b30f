/**
 The files behind an app's routes, one system call at a time
 (crates/riku-route/src/site_files.rs).

 The disk is a map from paths to files. Every system call may be refused by the
 environment: the methods of `Disk` choose that with `*`, and `faults` counts
 the refusals. `trace` records the disk after every single system call that
 changed it, so a property of `trace` is a property of every state a crash or a
 concurrent reader can see.
 */
module SiteFiles {
  import opened Wrappers

  /** A path by its components, as `PathBuf` compares paths. */
  type Path = seq<string>

  newtype Byte = x: int | 0 <= x < 256
  type Bytes = seq<Byte>

  datatype File = File(mode: nat, bytes: Bytes)
  type Files = map<Path, File>

  const PUBLIC_FILE: nat := 0x1A4   // 0o644
  const PRIVATE_FILE: nat := 0x180  // 0o600

  function At(files: Files, path: Path): Option<File> {
    if path in files then Some(files[path]) else None
  }

  /** The name beside `path` that its next content is prepared under. */
  function Staged(path: Path): (temp: Path)
    ensures temp != path
  {
    if path == [] then [".new"]
    else
      var last := path[|path| - 1];
      assert |last + ".new"| != |last|;
      path[..|path| - 1] + [last + ".new"]
  }

  /** One file of a change, with the bytes it is to have; no bytes means no file. */
  datatype Planned = Planned(path: Path, mode: nat, contents: Option<Bytes>)

  function Wanted(plan: Planned): Option<File> {
    match plan.contents
    case Some(bytes) => Some(File(plan.mode, bytes))
    case None => None
  }

  function Write(files: Files, plan: Planned): Files {
    match plan.contents
    case Some(bytes) => (files - {Staged(plan.path)})[plan.path := File(plan.mode, bytes)]
    case None => files - {plan.path}
  }

  /** The disk once every planned file holds what the plan says, in order. */
  function Installed(files: Files, plan: seq<Planned>): Files {
    if plan == [] then files
    else Write(Installed(files, plan[..|plan| - 1]), plan[|plan| - 1])
  }

  ghost function Paths(plan: seq<Planned>): set<Path> {
    set each <- plan :: each.path
  }

  ghost function StagedNames(plan: seq<Planned>): set<Path> {
    set each <- plan :: Staged(each.path)
  }

  /** No two planned files share a path and none is the staged name of another. */
  ghost predicate WellPlanned(plan: seq<Planned>) {
    && (forall i, j | 0 <= i < j < |plan| :: plan[i].path != plan[j].path)
    && (forall i, j | 0 <= i < |plan| && 0 <= j < |plan| :: plan[i].path != Staged(plan[j].path))
  }

  ghost predicate SameBut(a: Files, b: Files, changed: set<Path>) {
    forall path | path !in changed :: At(a, path) == At(b, path)
  }

  /** The first `k` planned files are in place, the others as before, and only staged names differ besides. */
  ghost predicate PrefixState(now: Files, before: Files, plan: seq<Planned>, k: nat)
    requires k <= |plan|
  {
    SameBut(now, Installed(before, plan[..k]), StagedNames(plan))
  }

  ghost predicate InstallState(now: Files, before: Files, plan: seq<Planned>) {
    exists k | 0 <= k <= |plan| :: PrefixState(now, before, plan, k)
  }

  /** What a snapshot of `plan`'s files would put back: the old bytes under the planned mode. */
  function SnapshotOf(files: Files, plan: seq<Planned>): (before: seq<Planned>)
    ensures |before| == |plan|
    ensures forall i | 0 <= i < |plan| :: before[i].path == plan[i].path && before[i].mode == plan[i].mode
  {
    if plan == [] then []
    else
      var each := plan[|plan| - 1];
      SnapshotOf(files, plan[..|plan| - 1])
      + [Planned(each.path, each.mode, if each.path in files then Some(files[each.path].bytes) else None)]
  }

  predicate IsEmpty(snapshot: seq<Planned>) {
    forall each <- snapshot :: each.contents.None?
  }

  /** Every planned file that exists carries the mode the plan gives it. */
  ghost predicate ModesAsPlanned(files: Files, plan: seq<Planned>) {
    forall each <- plan :: each.path in files ==> files[each.path].mode == each.mode
  }

  /** Every target path of `plan` holds one of its two whole values; nothing but targets and staged names differs. */
  ghost predicate Whole(now: Files, before: Files, plan: seq<Planned>, put: seq<Planned>)
    requires |plan| == |put|
  {
    && SameBut(now, before, Paths(plan) + StagedNames(plan))
    && (forall i | 0 <= i < |plan| ::
          At(now, plan[i].path) in {At(before, plan[i].path), Wanted(plan[i]), Wanted(put[i])})
  }

  // ---- What installing a plan does to each path ----

  lemma {:induction false} InstalledElsewhere(files: Files, plan: seq<Planned>, path: Path)
    requires path !in Paths(plan) && path !in StagedNames(plan)
    ensures At(Installed(files, plan), path) == At(files, path)
  {
    if plan != [] {
      var init := plan[..|plan| - 1];
      assert plan[|plan| - 1] in plan;
      assert Paths(init) <= Paths(plan) && StagedNames(init) <= StagedNames(plan);
      InstalledElsewhere(files, init, path);
    }
  }

  lemma {:induction false} WellPlannedPrefix(plan: seq<Planned>, k: nat)
    requires WellPlanned(plan) && k <= |plan|
    ensures WellPlanned(plan[..k])
    ensures Paths(plan[..k]) <= Paths(plan) && StagedNames(plan[..k]) <= StagedNames(plan)
  {
    assert forall each <- plan[..k] :: each in plan;
  }

  lemma {:induction false} InstalledAt(files: Files, plan: seq<Planned>, i: nat)
    requires WellPlanned(plan) && i < |plan|
    ensures At(Installed(files, plan), plan[i].path) == Wanted(plan[i])
  {
    if i < |plan| - 1 {
      var init := plan[..|plan| - 1];
      WellPlannedPrefix(plan, |plan| - 1);
      assert init[i] == plan[i];
      InstalledAt(files, init, i);
    }
  }

  /**
   In a state of `install` a prefix of the plan is wholly new and the rest
   wholly old, and nothing else but staged names has changed.
   */
  lemma {:induction false} PrefixIsNewRestIsOld(now: Files, before: Files, plan: seq<Planned>, k: nat)
    requires WellPlanned(plan) && k <= |plan| && PrefixState(now, before, plan, k)
    ensures forall i | 0 <= i < k :: At(now, plan[i].path) == Wanted(plan[i])
    ensures forall i | k <= i < |plan| :: At(now, plan[i].path) == At(before, plan[i].path)
    ensures SameBut(now, before, Paths(plan) + StagedNames(plan))
  {
    var head := plan[..k];
    WellPlannedPrefix(plan, k);
    forall i | 0 <= i < |plan|
      ensures At(now, plan[i].path) == if i < k then Wanted(plan[i]) else At(before, plan[i].path)
    {
      assert plan[i] in plan && plan[i].path in Paths(plan);
      if i < k {
        assert head[i] == plan[i];
        InstalledAt(before, head, i);
      } else {
        assert forall each <- head :: each.path != plan[i].path;
        InstalledElsewhere(before, head, plan[i].path);
      }
    }
    forall path | path !in Paths(plan) + StagedNames(plan)
      ensures At(now, path) == At(before, path)
    {
      InstalledElsewhere(before, head, path);
    }
  }

  lemma {:induction false} SnapshotAt(files: Files, plan: seq<Planned>, i: nat)
    requires i < |plan|
    ensures SnapshotOf(files, plan)[i].contents
         == if plan[i].path in files then Some(files[plan[i].path].bytes) else None
  {
    if i < |plan| - 1 {
      assert plan[..|plan| - 1][i] == plan[i];
      SnapshotAt(files, plan[..|plan| - 1], i);
    }
  }

  lemma {:induction false} SnapshotShape(files: Files, plan: seq<Planned>)
    ensures Paths(SnapshotOf(files, plan)) == Paths(plan)
    ensures StagedNames(SnapshotOf(files, plan)) == StagedNames(plan)
    ensures WellPlanned(plan) ==> WellPlanned(SnapshotOf(files, plan))
  {
    var before := SnapshotOf(files, plan);
    forall path
      ensures path in Paths(before) <==> path in Paths(plan)
      ensures path in StagedNames(before) <==> path in StagedNames(plan)
    {
      if path in Paths(before) {
        var i :| 0 <= i < |before| && before[i].path == path;
        assert plan[i] in plan;
      }
      if path in Paths(plan) {
        var i :| 0 <= i < |plan| && plan[i].path == path;
        assert before[i] in before;
      }
      if path in StagedNames(before) {
        var i :| 0 <= i < |before| && Staged(before[i].path) == path;
        assert plan[i] in plan;
      }
      if path in StagedNames(plan) {
        var i :| 0 <= i < |plan| && Staged(plan[i].path) == path;
        assert before[i] in before;
      }
    }
  }

  /**
   A restore that reported no failure is exact, whatever `install` had done
   before it, if and only if every planned file carried its planned mode when
   the snapshot was taken: the snapshot keeps bytes, and takes the mode from
   the plan.
   */
  lemma {:induction false} RollbackIsExactIffModesArePlanned(
      before: Files, now: Files, plan: seq<Planned>)
    requires WellPlanned(plan)
    requires SameBut(now, before, Paths(plan) + StagedNames(plan))
    ensures SameBut(Installed(now, SnapshotOf(before, plan)), before, StagedNames(plan))
       <==> ModesAsPlanned(before, plan)
  {
    var snapshot := SnapshotOf(before, plan);
    var after := Installed(now, snapshot);
    SnapshotShape(before, plan);
    forall i | 0 <= i < |plan|
      ensures At(after, plan[i].path) == Wanted(snapshot[i])
      ensures At(after, plan[i].path) == At(before, plan[i].path)
         <==> (plan[i].path in before ==> before[plan[i].path].mode == plan[i].mode)
    {
      InstalledAt(now, snapshot, i);
      SnapshotAt(before, plan, i);
    }
    forall path | path !in Paths(plan) + StagedNames(plan)
      ensures At(after, path) == At(before, path)
    {
      InstalledElsewhere(now, snapshot, path);
    }
    if ModesAsPlanned(before, plan) {
      forall path | path !in StagedNames(plan)
        ensures At(after, path) == At(before, path)
      {
        if path in Paths(plan) {
          var i :| 0 <= i < |plan| && plan[i].path == path;
          assert plan[i] in plan;
        }
      }
    }
    if SameBut(after, before, StagedNames(plan)) {
      forall each | each in plan
        ensures each.path in before ==> before[each.path].mode == each.mode
      {
        var i :| 0 <= i < |plan| && plan[i] == each;
        assert each.path in Paths(plan);
      }
    }
  }

  datatype Unlinked = Done | Missing | Refused

  /** Such a file exists: one with another mode comes back with the planned mode. */
  lemma {:induction false} ARestoreCanChangeAMode(path: Path, mode: nat, other: nat, bytes: Bytes)
    requires mode != other
    ensures var before: Files := map[path := File(other, bytes)];
            var plan := [Planned(path, mode, None)];
            && WellPlanned(plan)
            && At(Installed(before, SnapshotOf(before, plan)), path) == Some(File(mode, bytes))
            && !SameBut(Installed(before, SnapshotOf(before, plan)), before, StagedNames(plan))
  {
    var before: Files := map[path := File(other, bytes)];
    var plan := [Planned(path, mode, None)];
    SnapshotShape(before, plan);
    SnapshotAt(before, plan, 0);
    InstalledAt(before, SnapshotOf(before, plan), 0);
    assert plan[0] in plan;
    RollbackIsExactIffModesArePlanned(before, before, plan);
  }

  /** The disk of the host, with one method for each system call and file operation. */
  class Disk {
    var files: Files
    /** How many system calls the environment has refused. */
    var faults: nat
    /** Files whose content has been written but not synced. */
    var unsynced: set<Path>
    /** The disk after each change, oldest first. */
    ghost var trace: seq<Files>

    constructor (initial: Files)
      ensures files == initial && faults == 0 && unsynced == {} && trace == []
    {
      files, faults, unsynced, trace := initial, 0, {}, [];
    }

    ghost predicate Steps(from: nat, before: Files, temp: Path)
      reads this
    {
      forall i | from <= i < |trace| :: SameBut(trace[i], before, {temp})
    }

    // ---- System calls ----

    method Unlink(path: Path) returns (r: Unlinked)
      modifies this
      ensures old(trace) <= trace && forall i | |old(trace)| <= i < |trace| :: trace[i] == files
      ensures files == old(files) || trace == old(trace) + [files]
      ensures r.Done? ==> path in old(files) && files == old(files) - {path}
      ensures r.Missing? ==> path !in files
      ensures !r.Done? ==> files == old(files)
      ensures unsynced == if r.Done? then old(unsynced) - {path} else old(unsynced)
      ensures faults == old(faults) + if r.Refused? then 1 else 0
    {
      var refused: bool := *;
      if refused {
        faults := faults + 1;
        return Refused;
      }
      if path !in files {
        return Missing;
      }
      files, unsynced := files - {path}, unsynced - {path};
      trace := trace + [files];
      return Done;
    }

    method CreateNew(path: Path) returns (ok: bool)
      modifies this
      ensures old(trace) <= trace && forall i | |old(trace)| <= i < |trace| :: trace[i] == files
      ensures files == old(files) || trace == old(trace) + [files]
      ensures ok ==> path !in old(files) && files == old(files)[path := File(PRIVATE_FILE, [])]
      ensures !ok ==> files == old(files)
      ensures unsynced == if ok then old(unsynced) + {path} else old(unsynced)
      ensures !ok && path !in old(files) ==> faults > old(faults)
      ensures faults >= old(faults) && (ok ==> faults == old(faults))
    {
      var refused: bool := *;
      if refused {
        faults := faults + 1;
        return false;
      }
      if path in files {
        return false;
      }
      files, unsynced := files[path := File(PRIVATE_FILE, [])], unsynced + {path};
      trace := trace + [files];
      return true;
    }

    method SetMode(path: Path, mode: nat) returns (ok: bool)
      requires path in files
      modifies this
      ensures old(trace) <= trace && forall i | |old(trace)| <= i < |trace| :: trace[i] == files
      ensures files == old(files) || trace == old(trace) + [files]
      ensures files == if ok then old(files)[path := old(files)[path].(mode := mode)] else old(files)
      ensures unsynced == old(unsynced)
      ensures faults == old(faults) + if ok then 0 else 1
    {
      var refused: bool := *;
      if refused {
        faults := faults + 1;
        return false;
      }
      files := files[path := files[path].(mode := mode)];
      trace := trace + [files];
      return true;
    }

    /** Appends `contents`; a refused write leaves any prefix of it behind. */
    method WriteAll(path: Path, contents: Bytes) returns (ok: bool)
      requires path in files
      modifies this
      ensures old(trace) <= trace && forall i | |old(trace)| <= i < |trace| :: trace[i] == files
      ensures files == old(files) || trace == old(trace) + [files]
      ensures SameBut(files, old(files), {path}) && path in files && unsynced == old(unsynced) + {path}
      ensures ok ==> files == old(files)[path := old(files)[path].(bytes := old(files)[path].bytes + contents)]
      ensures faults == old(faults) + if ok then 0 else 1
    {
      var refused: bool := *;
      var written: nat :| written <= |contents|;
      var reached := if refused then contents[..written] else contents;
      files, unsynced := files[path := files[path].(bytes := files[path].bytes + reached)], unsynced + {path};
      trace := trace + [files];
      if refused {
        faults := faults + 1;
        return false;
      }
      return true;
    }

    method Sync(path: Path) returns (ok: bool)
      modifies this
      ensures files == old(files) && trace == old(trace)
      ensures unsynced == if ok then old(unsynced) - {path} else old(unsynced)
      ensures faults == old(faults) + if ok then 0 else 1
    {
      ok := *;
      if !ok {
        faults := faults + 1;
        return;
      }
      unsynced := unsynced - {path};
    }

    method Rename(from: Path, to: Path) returns (ok: bool)
      requires from in files
      modifies this
      ensures old(trace) <= trace && forall i | |old(trace)| <= i < |trace| :: trace[i] == files
      ensures files == old(files) || trace == old(trace) + [files]
      ensures files == if ok then (old(files) - {from})[to := old(files)[from]] else old(files)
      ensures ok ==> (to in unsynced <==> from in old(unsynced))
      ensures faults == old(faults) + if ok then 0 else 1
    {
      var refused: bool := *;
      if refused {
        faults := faults + 1;
        return false;
      }
      files := (files - {from})[to := files[from]];
      unsynced := if from in unsynced then unsynced - {from} + {to} else unsynced - {to};
      trace := trace + [files];
      return true;
    }

    // ---- File operations ----

    method CreateStaged(temp: Path, mode: nat) returns (ok: bool)
      modifies this
      ensures old(trace) <= trace && Steps(|old(trace)|, old(files), temp)
      ensures SameBut(files, old(files), {temp})
      ensures ok ==> files == old(files)[temp := File(mode, [])]
      ensures faults >= old(faults) && (ok <==> faults == old(faults))
    {
      var removed := Unlink(temp);
      if removed.Refused? {
        return false;
      }
      ok := CreateNew(temp);
      if !ok {
        return false;
      }
      ok := SetMode(temp, mode);
      assert ok ==> files == old(files)[temp := File(mode, [])];
    }

    method Fill(temp: Path, contents: Bytes, mode: nat) returns (ok: bool)
      modifies this
      ensures old(trace) <= trace && Steps(|old(trace)|, old(files), temp)
      ensures SameBut(files, old(files), {temp})
      ensures ok ==> files == old(files)[temp := File(mode, contents)] && temp !in unsynced
      ensures faults >= old(faults) && (ok <==> faults == old(faults))
    {
      ok := CreateStaged(temp, mode);
      if !ok {
        return false;
      }
      ok := WriteAll(temp, contents);
      if !ok {
        return false;
      }
      assert files == old(files)[temp := File(mode, [] + contents)];
      assert [] + contents == contents;
      ok := Sync(temp);
    }

    /**
     Writes `contents` to `path` with exactly `mode`. A failure leaves `path`
     as it was, and a reader of `path` sees the old file or the new one at
     every step. What is renamed into place has been synced.
     */
    method WriteFile(path: Path, contents: Bytes, mode: nat) returns (ok: bool)
      modifies this
      ensures ok ==> files == Write(old(files), Planned(path, mode, Some(contents))) && path !in unsynced
      ensures !ok ==> SameBut(files, old(files), {Staged(path)})
      ensures old(trace) <= trace
      ensures forall i | |old(trace)| <= i < |trace| ::
                SameBut(trace[i], old(files), {Staged(path)}) || (ok && trace[i] == files)
      ensures faults >= old(faults) && (faults == old(faults) ==> ok)
    {
      var temp := Staged(path);
      ok := Fill(temp, contents, mode);
      if !ok {
        var _ := Unlink(temp);
        return false;
      }
      ok := Rename(temp, path);
      if !ok {
        var _ := Unlink(temp);
        return false;
      }
      assert files == Write(old(files), Planned(path, mode, Some(contents)));
    }

    /** Unlinks `path`; only a refusal counts as a failure. */
    method RemoveFile(path: Path) returns (ok: bool)
      modifies this
      ensures files == if ok then old(files) - {path} else old(files)
      ensures old(trace) <= trace && forall i | |old(trace)| <= i < |trace| :: trace[i] == files
      ensures faults == old(faults) + if ok then 0 else 1
    {
      var removed := Unlink(path);
      assert removed.Missing? ==> files == files - {path};
      return !removed.Refused?;
    }

    method Put(each: Planned) returns (ok: bool)
      modifies this
      ensures ok ==> files == Write(old(files), each)
      ensures !ok ==> SameBut(files, old(files), {Staged(each.path)})
      ensures old(trace) <= trace
      ensures forall i | |old(trace)| <= i < |trace| ::
                SameBut(trace[i], old(files), {Staged(each.path)}) || (ok && trace[i] == files)
      ensures faults >= old(faults) && (faults == old(faults) ==> ok)
    {
      match each.contents {
        case Some(bytes) => ok := WriteFile(each.path, bytes, each.mode);
        case None => ok := RemoveFile(each.path);
      }
    }

    /** Reads every planned file; a read the environment refuses gives no snapshot. */
    method TakeSnapshot(plan: seq<Planned>) returns (snapshot: Option<seq<Planned>>)
      modifies this
      ensures files == old(files) && trace == old(trace)
      ensures snapshot.Some? ==> snapshot.value == SnapshotOf(files, plan) && faults == old(faults)
      ensures snapshot.None? ==> faults > old(faults)
    {
      var before: seq<Planned> := [];
      for i := 0 to |plan|
        invariant files == old(files) && trace == old(trace) && faults == old(faults)
        invariant before == SnapshotOf(files, plan[..i])
      {
        var refused: bool := *;
        if refused {
          faults := faults + 1;
          return None;
        }
        var each := plan[i];
        before := before + [Planned(each.path, each.mode,
                                    if each.path in files then Some(files[each.path].bytes) else None)];
        assert plan[..i + 1][..i] == plan[..i];
      }
      assert plan[..|plan|] == plan;
      return Some(before);
    }

    /** Puts the files of the plan in place one after the other, up to the first that fails. */
    method Install(plan: seq<Planned>) returns (ok: bool)
      modifies this
      ensures ok ==> files == Installed(old(files), plan)
      ensures !ok ==> exists k | 0 <= k < |plan| ::
                SameBut(files, Installed(old(files), plan[..k]), {Staged(plan[k].path)})
      ensures old(trace) <= trace
      ensures forall i | |old(trace)| <= i < |trace| :: InstallState(trace[i], old(files), plan)
      ensures faults >= old(faults) && (faults == old(faults) ==> ok)
    {
      for n := 0 to |plan|
        invariant files == Installed(old(files), plan[..n])
        invariant old(trace) <= trace
        invariant forall i | |old(trace)| <= i < |trace| :: InstallState(trace[i], old(files), plan)
        invariant faults >= old(faults)
      {
        assert plan[..n + 1][..n] == plan[..n];
        assert Staged(plan[n].path) in StagedNames(plan);
        ghost var mid, seen := files, |trace|;
        ok := Put(plan[n]);
        forall i | seen <= i < |trace|
          ensures InstallState(trace[i], old(files), plan)
        {
          if SameBut(trace[i], mid, {Staged(plan[n].path)}) {
            assert PrefixState(trace[i], old(files), plan, n);
          } else {
            assert PrefixState(trace[i], old(files), plan, n + 1);
          }
        }
        if !ok {
          return false;
        }
      }
      assert plan[..|plan|] == plan;
      return true;
    }

    /** Writes the snapshot back in order; a failure is counted and does not stop it. */
    method Restore(snapshot: seq<Planned>) returns (failures: nat)
      requires WellPlanned(snapshot)
      modifies this
      ensures failures <= |snapshot| && (failures == 0 ==> files == Installed(old(files), snapshot))
      ensures Whole(files, old(files), snapshot, snapshot)
      ensures old(trace) <= trace
      ensures forall i | |old(trace)| <= i < |trace| :: Whole(trace[i], old(files), snapshot, snapshot)
      ensures faults >= old(faults) && (faults == old(faults) ==> failures == 0)
    {
      failures := 0;
      for n := 0 to |snapshot|
        invariant failures <= n && (failures == 0 ==> files == Installed(old(files), snapshot[..n]))
        invariant Whole(files, old(files), snapshot, snapshot)
        invariant old(trace) <= trace
        invariant forall i | |old(trace)| <= i < |trace| :: Whole(trace[i], old(files), snapshot, snapshot)
        invariant faults >= old(faults) && (faults == old(faults) ==> failures == 0)
      {
        assert snapshot[..n + 1][..n] == snapshot[..n];
        ghost var mid, seen := files, |trace|;
        var ok := Put(snapshot[n]);
        if !ok {
          failures := failures + 1;
        }
        PutKeepsWhole(mid, old(files), snapshot, n);
        forall i | seen <= i < |trace|
          ensures Whole(trace[i], old(files), snapshot, snapshot)
        {
          if SameBut(trace[i], mid, {Staged(snapshot[n].path)}) {
            StagedKeepsWhole(trace[i], mid, old(files), snapshot, snapshot, n);
          }
        }
        if !ok {
          StagedKeepsWhole(files, mid, old(files), snapshot, snapshot, n);
        }
      }
      assert snapshot[..|snapshot|] == snapshot;
    }
  }

  lemma {:induction false} StagedKeepsWhole(
      now: Files, mid: Files, before: Files, plan: seq<Planned>, put: seq<Planned>, n: nat)
    requires WellPlanned(plan) && |put| == |plan| && n < |plan|
    requires Whole(mid, before, plan, put) && SameBut(now, mid, {Staged(plan[n].path)})
    ensures Whole(now, before, plan, put)
  {
    assert plan[n] in plan && Staged(plan[n].path) in StagedNames(plan);
    forall i | 0 <= i < |plan|
      ensures At(now, plan[i].path) == At(mid, plan[i].path)
    {
      assert plan[i] in plan && plan[i].path in Paths(plan);
    }
  }

  lemma {:induction false} PutKeepsWhole(mid: Files, before: Files, snapshot: seq<Planned>, n: nat)
    requires WellPlanned(snapshot) && n < |snapshot|
    requires Whole(mid, before, snapshot, snapshot)
    ensures Whole(Write(mid, snapshot[n]), before, snapshot, snapshot)
  {
    var now := Write(mid, snapshot[n]);
    assert snapshot[n] in snapshot && Staged(snapshot[n].path) in StagedNames(snapshot);
    forall i | 0 <= i < |snapshot|
      ensures At(now, snapshot[i].path)
           == if i == n then Wanted(snapshot[n]) else At(mid, snapshot[i].path)
    {
      assert snapshot[i] in snapshot && snapshot[i].path in Paths(snapshot);
    }
  }
}
