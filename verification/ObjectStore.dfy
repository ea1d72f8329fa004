/** The revisioned object store: ids allocated by `mkdir`, revisions written by exclusive
    create, and `patch` as a compare-and-swap on the head.  The disk is a set of directories
    and a map of revision files; each file operation is one atomic step. */
module ObjectStore {
  import opened Wrappers

  datatype ObjectType =
    | Geometry | Material | BoundaryCondition | LoadCase | Design | Study | Optimization

  datatype Ref = Ref(kind: ObjectType, number: nat)

  type Body = string
  type Patch = string

  datatype Record = Record(ref: Ref, revision: nat, owner: string, body: Body, title: Option<string>)

  /** What is foreign here: how a JSON Patch applies, and which bodies a type accepts. */
  datatype Rules = Rules(apply: (Body, Patch) -> Option<Body>, accepts: (ObjectType, Body) -> bool)

  datatype Disk = Disk(directories: set<Ref>, files: map<(Ref, nat), Record>)

  const EmptyDisk := Disk({}, map[])

  datatype Refusal =
    | CannotPatchRevision | UnknownObject | InvalidPatch | PatchChangedNothing | InvalidObject | RevisionExists

  // ----------------------------------------------------------------------- file operations

  /** `mkdir`: creates the directory, or reports that it is there. */
  function Mkdir(disk: Disk, ref: Ref): Option<Disk> {
    if ref in disk.directories then None
    else Some(disk.(directories := disk.directories + {ref}))
  }

  /** Exclusive create of one revision file. */
  function CreateExclusive(disk: Disk, record: Record): Option<Disk> {
    var key := (record.ref, record.revision);
    if key in disk.files then None else Some(disk.(files := disk.files[key := record]))
  }

  ghost function Revisions(disk: Disk, ref: Ref): set<nat> {
    set key | key in disk.files && key.0 == ref :: key.1
  }

  ghost function MaxOf(s: set<nat>): (m: nat)
    requires s != {}
    ensures m in s && forall x :: x in s ==> x <= m
  {
    var x :| x in s;
    if s == {x} then x
    else
      var rest := MaxOf(s - {x});
      assert forall y :: y in s ==> y == x || y in s - {x};
      if x < rest then rest else x
  }

  /** The highest revision written, 0 when there is none. */
  ghost function Head(disk: Disk, ref: Ref): nat {
    if Revisions(disk, ref) == {} then 0 else MaxOf(Revisions(disk, ref))
  }

  /** The record a patch of `current` would write, or why it writes nothing. */
  function Patched(rules: Rules, current: Record, patch: Patch, owner: string, title: Option<string>)
    : Result<Record, Refusal>
  {
    match rules.apply(current.body, patch)
    case None => Err(InvalidPatch)
    case Some(body) =>
      if body == current.body then Err(PatchChangedNothing)
      else if !rules.accepts(current.ref.kind, body) then Err(InvalidObject)
      else Ok(Record(current.ref, current.revision + 1, owner, body,
                     if title.Some? then title else current.title))
  }

  /** What a patch is for: the next revision of the same object, by whoever patched it, whose body is
      exactly what the patch makes of the one before; it is another body, and one the type accepts. */
  ghost predicate IsPatchOf(
    rules: Rules, current: Record, patch: Patch, owner: string, title: Option<string>, record: Record)
  {
    && record.ref == current.ref && record.revision == current.revision + 1 && record.owner == owner
    && rules.apply(current.body, patch) == Some(record.body)
    && record.body != current.body && rules.accepts(current.ref.kind, record.body)
    && (title.Some? ==> record.title == title) && (title.None? ==> record.title == current.title)
  }

  /** Why a patch of `current` writes nothing: it does not apply, or it changes nothing, or what it
      makes is not such an object. */
  ghost predicate IsRefusalOf(rules: Rules, current: Record, patch: Patch, reason: Refusal) {
    match rules.apply(current.body, patch)
    case None => reason == InvalidPatch
    case Some(body) =>
      || (body == current.body && reason == PatchChangedNothing)
      || (body != current.body && !rules.accepts(current.ref.kind, body) && reason == InvalidObject)
  }

  lemma PatchedMeansPatch(
    rules: Rules, current: Record, patch: Patch, owner: string, title: Option<string>, record: Record)
    ensures Patched(rules, current, patch, owner, title) == Ok(record)
            <==> IsPatchOf(rules, current, patch, owner, title, record)
    ensures forall reason :: Patched(rules, current, patch, owner, title) == Err(reason)
                             <==> IsRefusalOf(rules, current, patch, reason)
  {
  }

  // ------------------------------------------------------------------- one caller at a time

  /** Every revision file names itself, lies in a directory, and has its predecessor. */
  ghost predicate Sound(disk: Disk) {
    && (forall key :: key in disk.files ==>
          && disk.files[key].ref == key.0 && disk.files[key].revision == key.1
          && key.1 >= 1 && key.0 in disk.directories)
    && (forall ref, k :: (ref, k) in disk.files && k > 1 ==> (ref, k - 1) in disk.files)
  }

  class ObjectFileStore {
    var disk: Disk

    constructor ()
      ensures disk == EmptyDisk
    {
      disk := EmptyDisk;
    }

    /** One past the highest number in use. */
    method NextNumber(kind: ObjectType) returns (number: nat)
      ensures number >= 1
      ensures forall ref :: ref in disk.directories && ref.kind == kind ==> ref.number < number
      ensures number == 1 || Ref(kind, number - 1) in disk.directories
    {
      var highest := 0;
      var rest := disk.directories;
      while rest != {}
        invariant rest <= disk.directories
        invariant forall ref :: ref in disk.directories - rest && ref.kind == kind ==> ref.number <= highest
        invariant highest == 0 || Ref(kind, highest) in disk.directories
        decreases |rest|
      {
        var ref :| ref in rest;
        if ref.kind == kind && ref.number > highest {
          highest := ref.number;
        }
        rest := rest - {ref};
      }
      number := highest + 1;
    }

    /** Tries numbers from `start` on; somebody having taken one is not an error. */
    method Allocate(kind: ObjectType, start: nat) returns (number: nat)
      modifies this
      ensures number >= start && Ref(kind, number) !in old(disk).directories
      ensures forall n :: start <= n < number ==> Ref(kind, n) in old(disk).directories
      ensures disk == old(disk).(directories := old(disk).directories + {Ref(kind, number)})
    {
      number := start;
      ghost var above := set ref | ref in disk.directories && ref.kind == kind && ref.number >= number;
      while true
        invariant number >= start && disk == old(disk)
        invariant forall n :: start <= n < number ==> Ref(kind, n) in disk.directories
        invariant above == set ref | ref in disk.directories && ref.kind == kind && ref.number >= number
        decreases |above|
      {
        var made := Mkdir(disk, Ref(kind, number));
        if made.Some? {
          disk := made.value;
          return;
        }
        assert Ref(kind, number) in above;
        above := above - {Ref(kind, number)};
        number := number + 1;
      }
    }

    method Create(kind: ObjectType, owner: string, body: Body, title: Option<string>) returns (record: Record)
      requires Sound(disk)
      modifies this
      ensures Sound(disk)
      ensures record.ref !in old(disk).directories && record.ref.kind == kind && record.revision == 1
      ensures record.owner == owner && record.body == body && record.title == title
      ensures disk == Disk(old(disk).directories + {record.ref}, old(disk).files[(record.ref, 1) := record])
    {
      var start := NextNumber(kind);
      var number := Allocate(kind, start);
      record := Record(Ref(kind, number), 1, owner, body, title);
      disk := CreateExclusive(disk, record).value;
    }

    method HeadRevision(ref: Ref) returns (head: nat)
      ensures head == Head(disk, ref)
    {
      head := 0;
      var rest: set<(Ref, nat)> := disk.files.Keys;
      while rest != {}
        invariant rest <= disk.files.Keys
        invariant forall key :: key in disk.files && key !in rest && key.0 == ref ==> key.1 <= head
        invariant head == 0 || (ref, head) in disk.files
        decreases |rest|
      {
        var key: (Ref, nat) :| key in rest;
        if key.0 == ref && key.1 > head {
          head := key.1;
        }
        rest := rest - {key};
      }
      HeadIsMax(disk, ref, head);
    }

    /** Pinned, or the head; somebody else's object is no object. */
    method Get(ref: Ref, pinned: Option<nat>, owner: string) returns (found: Option<Record>)
      ensures var k := if pinned.Some? then pinned.value else Head(disk, ref);
              found == if (ref, k) in disk.files && disk.files[(ref, k)].owner == owner
                       then Some(disk.files[(ref, k)]) else None
    {
      var k;
      if pinned.Some? {
        k := pinned.value;
      } else {
        k := HeadRevision(ref);
      }
      if (ref, k) !in disk.files || disk.files[(ref, k)].owner != owner {
        return None;
      }
      return Some(disk.files[(ref, k)]);
    }

    /** Applies a patch to the head and writes the next revision; a pinned reference is refused,
        and a refusal writes nothing. */
    method PatchHead(rules: Rules, ref: Ref, pinned: Option<nat>, patch: Patch, owner: string,
                     title: Option<string>)
      returns (written: Result<Record, Refusal>)
      requires Sound(disk)
      modifies this
      ensures Sound(disk)
      ensures pinned.Some? <==> written == Err(CannotPatchRevision)
      ensures written.Err? ==> disk == old(disk) && written.error != RevisionExists
      ensures written.Ok? ==>
                var head := Head(old(disk), ref);
                && (ref, head) in old(disk).files && old(disk).files[(ref, head)].owner == owner
                && written == Patched(rules, old(disk).files[(ref, head)], patch, owner, title)
                && disk == old(disk).(files := old(disk).files[(ref, head + 1) := written.value])
                && Head(disk, ref) == head + 1
      ensures var head := Head(old(disk), ref);
              var known := (ref, head) in old(disk).files && old(disk).files[(ref, head)].owner == owner;
              && (written == Err(UnknownObject) <==> pinned.None? && !known)
              && (pinned.None? && known ==>
                    var current := old(disk).files[(ref, head)];
                    match written
                    case Ok(record) => current.ref == ref && IsPatchOf(rules, current, patch, owner, title, record)
                    case Err(reason) => IsRefusalOf(rules, current, patch, reason))
    {
      if pinned.Some? {
        return Err(CannotPatchRevision);
      }
      var current := Get(ref, None, owner);
      if current.None? {
        return Err(UnknownObject);
      }
      written := Patched(rules, current.value, patch, owner, title);
      if written.Err? {
        PatchedMeansPatch(rules, current.value, patch, owner, title, current.value);
        return;
      }
      PatchedMeansPatch(rules, current.value, patch, owner, title, written.value);
      SoundHead(disk, ref);
      var next := CreateExclusive(disk, written.value);
      disk := next.value;
      HeadIsMax(disk, ref, written.value.revision);
    }
  }

  lemma HeadIsMax(disk: Disk, ref: Ref, head: nat)
    requires forall key :: key in disk.files && key.0 == ref ==> key.1 <= head
    requires head == 0 || (ref, head) in disk.files
    ensures Head(disk, ref) == head
  {
    if head != 0 {
      assert (ref, head).1 in Revisions(disk, ref);
    }
    if Revisions(disk, ref) != {} {
      var m := MaxOf(Revisions(disk, ref));
      var key :| key in disk.files && key.0 == ref && key.1 == m;
    }
  }

  lemma {:induction false} DownFrom(disk: Disk, ref: Ref, k: nat, n: nat)
    requires Sound(disk) && (ref, n) in disk.files && 1 <= k <= n
    ensures (ref, k) in disk.files
    decreases n
  {
    if k < n {
      DownFrom(disk, ref, k, n - 1);
    }
  }

  /** On a sound disk each object's revisions are exactly 1 .. head. */
  lemma SoundHead(disk: Disk, ref: Ref)
    requires Sound(disk)
    ensures forall k :: (ref, k) in disk.files <==> 1 <= k <= Head(disk, ref)
  {
    forall k
      ensures (ref, k) in disk.files <==> 1 <= k <= Head(disk, ref)
    {
      if (ref, k) in disk.files {
        assert (ref, k).1 in Revisions(disk, ref);
      }
      if 1 <= k <= Head(disk, ref) {
        var key :| key in disk.files && key.0 == ref && key.1 == Head(disk, ref);
        DownFrom(disk, ref, k, Head(disk, ref));
      }
    }
  }

  // ----------------------------------------------------- any number of callers, interleaved

  type Pid = nat

  /** Where a create or a patch is between two of its file operations. */
  datatype Process =
    | CreateScan(kind: ObjectType, owner: string, body: Body, title: Option<string>)
    | CreateTry(kind: ObjectType, owner: string, body: Body, title: Option<string>, number: nat)
    | CreateWrite(record: Record)
    | Created(record: Record)
    | PatchList(ref: Ref, patch: Patch, owner: string, title: Option<string>)
    | PatchRead(ref: Ref, patch: Patch, owner: string, title: Option<string>, revision: nat)
    | PatchWrite(base: Record, patch: Patch, owner: string, title: Option<string>, record: Record)
    | PatchDone(base: Record, patch: Patch, owner: string, title: Option<string>, record: Record)
    | Refused(reason: Refusal)

  datatype Workspace = Workspace(disk: Disk, processes: map<Pid, Process>)

  /** One file operation.  What a directory scan reports is a choice: a listing that races with
      writers may be stale, so any starting number may come back, and any revision present or none. */
  datatype Step = Spawn(pid: Pid, process: Process) | Act(pid: Pid, choice: nat)

  predicate Starting(p: Process) {
    p.CreateScan? || p.PatchList?
  }

  predicate Over(p: Process) {
    p.Created? || p.PatchDone? || p.Refused?
  }

  ghost predicate Enabled(w: Workspace, step: Step) {
    match step
    case Spawn(pid, process) => pid !in w.processes && Starting(process)
    case Act(pid, choice) =>
      && pid in w.processes && !Over(w.processes[pid])
      && (w.processes[pid].CreateScan? ==> choice >= 1)
      && (w.processes[pid].PatchList? ==>
            choice == 0 || (w.processes[pid].ref, choice) in w.disk.files)
  }

  ghost function ActOf(rules: Rules, disk: Disk, p: Process, choice: nat): (Disk, Process)
    requires !Over(p)
  {
    match p
    case CreateScan(kind, owner, body, title) => (disk, CreateTry(kind, owner, body, title, choice))
    case CreateTry(kind, owner, body, title, number) =>
      var made := Mkdir(disk, Ref(kind, number));
      if made.Some? then (made.value, CreateWrite(Record(Ref(kind, number), 1, owner, body, title)))
      else (disk, CreateTry(kind, owner, body, title, number + 1))
    case CreateWrite(record) =>
      var made := CreateExclusive(disk, record);
      if made.Some? then (made.value, Created(record)) else (disk, Refused(RevisionExists))
    case PatchList(ref, patch, owner, title) =>
      if choice == 0 then (disk, Refused(UnknownObject))
      else (disk, PatchRead(ref, patch, owner, title, choice))
    case PatchRead(ref, patch, owner, title, revision) =>
      if (ref, revision) !in disk.files || disk.files[(ref, revision)].owner != owner then
        (disk, Refused(UnknownObject))
      else
        var current := disk.files[(ref, revision)];
        (match Patched(rules, current, patch, owner, title)
         case Err(reason) => (disk, Refused(reason))
         case Ok(record) => (disk, PatchWrite(current, patch, owner, title, record)))
    case PatchWrite(base, patch, owner, title, record) =>
      var made := CreateExclusive(disk, record);
      if made.Some? then (made.value, PatchDone(base, patch, owner, title, record))
      else (disk, Refused(RevisionExists))
  }

  /** What is true of each process between its operations. */
  ghost predicate ProcessInv(rules: Rules, disk: Disk, p: Process) {
    match p
    case CreateTry(_, _, _, _, number) => number >= 1
    case CreateWrite(record) =>
      && record.ref in disk.directories && record.revision == 1
      && Revisions(disk, record.ref) == {}
    case Created(record) =>
      record.revision == 1 && (record.ref, 1) in disk.files && disk.files[(record.ref, 1)] == record
    case PatchWrite(base, patch, owner, title, record) =>
      && (base.ref, base.revision) in disk.files && disk.files[(base.ref, base.revision)] == base
      && base.revision >= 1
      && Patched(rules, base, patch, owner, title) == Ok(record)
    case PatchDone(base, patch, owner, title, record) =>
      && (base.ref, base.revision) in disk.files && disk.files[(base.ref, base.revision)] == base
      && base.revision >= 1
      && Patched(rules, base, patch, owner, title) == Ok(record)
      && (record.ref, record.revision) in disk.files
      && disk.files[(record.ref, record.revision)] == record
    case _ => true
  }

  /** The revision a finished process wrote. */
  predicate Wrote(p: Process, key: (Ref, nat)) {
    (p.Created? || p.PatchDone?) && (p.record.ref, p.record.revision) == key
  }

  ghost predicate SomebodyWrote(w: Workspace, key: (Ref, nat)) {
    exists pid :: pid in w.processes && Wrote(w.processes[pid], key)
  }

  predicate HoldsDirectory(p: Process, ref: Ref) {
    (p.CreateWrite? || p.Created?) && p.record.ref == ref
  }

  /** Nobody shares a directory, and no two processes wrote the same revision. */
  ghost predicate Exclusive(w: Workspace) {
    && (forall p, q, ref ::
          (p in w.processes && q in w.processes
           && HoldsDirectory(w.processes[p], ref) && HoldsDirectory(w.processes[q], ref)) ==> p == q)
    && (forall pid, ref :: pid in w.processes && HoldsDirectory(w.processes[pid], ref) ==>
          ref in w.disk.directories)
    && (forall p, q, key ::
          (p in w.processes && q in w.processes
           && Wrote(w.processes[p], key) && Wrote(w.processes[q], key)) ==> p == q)
    && (forall pid, key :: pid in w.processes && Wrote(w.processes[pid], key) ==> key in w.disk.files)
  }

  ghost predicate ProcessesInv(rules: Rules, w: Workspace) {
    forall pid :: pid in w.processes ==> ProcessInv(rules, w.disk, w.processes[pid])
  }

  ghost predicate AllWritten(w: Workspace) {
    forall key :: key in w.disk.files ==> SomebodyWrote(w, key)
  }

  ghost predicate Inv(rules: Rules, w: Workspace) {
    Sound(w.disk) && ProcessesInv(rules, w) && Exclusive(w) && AllWritten(w)
  }

  ghost function Apply(rules: Rules, w: Workspace, step: Step): Workspace
    requires Enabled(w, step)
  {
    match step
    case Spawn(pid, process) => w.(processes := w.processes[pid := process])
    case Act(pid, choice) =>
      var (disk, p) := ActOf(rules, w.disk, w.processes[pid], choice);
      Workspace(disk, w.processes[pid := p])
  }

  /** No operation removes or rewrites a file or a directory. */
  lemma ActOnlyAdds(rules: Rules, disk: Disk, p: Process, choice: nat)
    requires !Over(p)
    ensures var after := ActOf(rules, disk, p, choice).0;
            && disk.directories <= after.directories
            && forall key :: key in disk.files ==> key in after.files && after.files[key] == disk.files[key]
  {
  }

  /** What one process relies on survives any operation of another. */
  lemma OthersKeepProcessInv(rules: Rules, w: Workspace, pid: Pid, choice: nat, other: Pid)
    requires Inv(rules, w) && Enabled(w, Act(pid, choice))
    requires other in w.processes && other != pid
    ensures ProcessInv(rules, ActOf(rules, w.disk, w.processes[pid], choice).0, w.processes[other])
  {
    assert ProcessInv(rules, w.disk, w.processes[other]);
    ActOnlyAdds(rules, w.disk, w.processes[pid], choice);
    if w.processes[other].CreateWrite? {
      OthersLeaveDirectoryEmpty(rules, w, pid, choice, other);
    }
    hide ActOf, Inv, Patched, Revisions;
  }

  /** A process writes nothing but its own record. */
  lemma ActWritesOwn(rules: Rules, disk: Disk, p: Process, choice: nat, ref: Ref)
    requires !Over(p) && (p.CreateWrite? || p.PatchWrite? ==> p.record.ref != ref)
    ensures Revisions(ActOf(rules, disk, p, choice).0, ref) == Revisions(disk, ref)
  {
    hide Patched;
  }

  /** A patch is on its way to an object that has a revision already. */
  lemma PatchesSomething(rules: Rules, disk: Disk, p: Process)
    requires ProcessInv(rules, disk, p) && p.PatchWrite?
    ensures Revisions(disk, p.record.ref) != {}
  {
    assert p.record.ref == p.base.ref;
    assert (p.base.ref, p.base.revision).1 in Revisions(disk, p.base.ref);
  }

  /** A directory that a process holds stays empty until it writes there itself. */
  lemma OthersLeaveDirectoryEmpty(rules: Rules, w: Workspace, pid: Pid, choice: nat, other: Pid)
    requires Inv(rules, w) && Enabled(w, Act(pid, choice))
    requires other in w.processes && other != pid && w.processes[other].CreateWrite?
    ensures Revisions(ActOf(rules, w.disk, w.processes[pid], choice).0, w.processes[other].record.ref) == {}
  {
    var p, q := w.processes[pid], w.processes[other];
    assert HoldsDirectory(q, q.record.ref) && ProcessInv(rules, w.disk, q) && ProcessInv(rules, w.disk, p);
    assert p.CreateWrite? ==> HoldsDirectory(p, p.record.ref);
    hide ActOf, Revisions, Patched;
    if p.PatchWrite? {
      PatchesSomething(rules, w.disk, p);
    }
    ActWritesOwn(rules, w.disk, p, choice, q.record.ref);
  }

  lemma ActKeepsProcessInv(rules: Rules, w: Workspace, pid: Pid, choice: nat)
    requires Inv(rules, w) && Enabled(w, Act(pid, choice))
    ensures var (disk, p) := ActOf(rules, w.disk, w.processes[pid], choice);
            ProcessInv(rules, disk, p)
  {
    hide Exclusive, AllWritten, Patched;
    var p := w.processes[pid];
    assert ProcessInv(rules, w.disk, p);
    if p.CreateTry? {
      var ref := Ref(p.kind, p.number);
      if ref !in w.disk.directories {
        assert Revisions(w.disk.(directories := w.disk.directories + {ref}), ref) == {};
      }
    }
  }

  lemma ActKeepsSound(rules: Rules, w: Workspace, pid: Pid, choice: nat)
    requires Inv(rules, w) && Enabled(w, Act(pid, choice))
    ensures Sound(ActOf(rules, w.disk, w.processes[pid], choice).0)
  {
    hide Exclusive, AllWritten, Revisions;
    assert ProcessInv(rules, w.disk, w.processes[pid]);
  }

  lemma CreateWriteIsFree(disk: Disk, ref: Ref)
    requires Revisions(disk, ref) == {}
    ensures forall k :: (ref, k) !in disk.files
  {
    forall k
      ensures (ref, k) !in disk.files
    {
      assert (ref, k) in disk.files ==> (ref, k).1 in Revisions(disk, ref);
    }
  }

  /** A create never loses the race for its own first revision. */
  lemma CreateNeverFails(rules: Rules, w: Workspace, pid: Pid)
    requires Inv(rules, w) && pid in w.processes && w.processes[pid].CreateWrite?
    ensures ActOf(rules, w.disk, w.processes[pid], 0).1 == Created(w.processes[pid].record)
  {
    CreateWriteIsFree(w.disk, w.processes[pid].record.ref);
  }

  lemma ActKeepsExclusive(rules: Rules, w: Workspace, pid: Pid, choice: nat)
    requires Inv(rules, w) && Enabled(w, Act(pid, choice))
    ensures Exclusive(Apply(rules, w, Act(pid, choice)))
  {
    hide Sound, Patched, Revisions, AllWritten;
    var p := w.processes[pid];
    var next := ActOf(rules, w.disk, p, choice).1;
    var after := Apply(rules, w, Act(pid, choice));
    ActOnlyAdds(rules, w.disk, p, choice);
    forall q, ref | q in w.processes && q != pid && HoldsDirectory(w.processes[q], ref)
      ensures !HoldsDirectory(next, ref)
    {
      assert HoldsDirectory(p, ref) ==> false;
    }
    forall q, key | q in w.processes && q != pid && Wrote(w.processes[q], key)
      ensures !Wrote(next, key)
    {
      assert key in w.disk.files;
    }
  }

  lemma ActKeepsAllWritten(rules: Rules, w: Workspace, pid: Pid, choice: nat)
    requires Inv(rules, w) && Enabled(w, Act(pid, choice))
    ensures AllWritten(Apply(rules, w, Act(pid, choice)))
  {
    hide Sound, Patched, Revisions, Exclusive, ProcessesInv, ProcessInv;
    var p := w.processes[pid];
    var after := Apply(rules, w, Act(pid, choice));
    forall key | key in after.disk.files
      ensures SomebodyWrote(after, key)
    {
      if key in w.disk.files {
        var q :| q in w.processes && Wrote(w.processes[q], key);
        assert q != pid;
        assert Wrote(after.processes[q], key);
      } else {
        assert Wrote(after.processes[pid], key);
      }
    }
  }

  lemma StepKeepsInv(rules: Rules, w: Workspace, step: Step)
    requires Inv(rules, w) && Enabled(w, step)
    ensures Inv(rules, Apply(rules, w, step))
  {
    var after := Apply(rules, w, step);
    match step
    case Spawn(pid, process) =>
      forall key | key in after.disk.files
        ensures SomebodyWrote(after, key)
      {
        var q :| q in w.processes && Wrote(w.processes[q], key);
        assert Wrote(after.processes[q], key);
      }
      assert Exclusive(after) by {
        hide Sound, AllWritten, ProcessesInv;
      }
    case Act(pid, choice) =>
      hide Sound, AllWritten, Exclusive, ProcessInv, ActOf;
      ActKeepsProcessInv(rules, w, pid, choice);
      ActKeepsSound(rules, w, pid, choice);
      ActKeepsExclusive(rules, w, pid, choice);
      ActKeepsAllWritten(rules, w, pid, choice);
      forall q | q in after.processes
        ensures ProcessInv(rules, after.disk, after.processes[q])
      {
        if q != pid {
          OthersKeepProcessInv(rules, w, pid, choice, q);
        }
      }
  }

  // ------------------------------------------------------------------------- over whole runs

  ghost predicate Legal(rules: Rules, w: Workspace, steps: seq<Step>)
    decreases |steps|
  {
    steps == [] || (Enabled(w, steps[0]) && Legal(rules, Apply(rules, w, steps[0]), steps[1..]))
  }

  ghost function After(rules: Rules, w: Workspace, steps: seq<Step>): Workspace
    requires Legal(rules, w, steps)
    decreases |steps|
  {
    if steps == [] then w else After(rules, Apply(rules, w, steps[0]), steps[1..])
  }

  const Fresh := Workspace(EmptyDisk, map[])

  lemma {:induction false} RunKeepsInv(rules: Rules, w: Workspace, steps: seq<Step>)
    requires Inv(rules, w) && Legal(rules, w, steps)
    ensures Inv(rules, After(rules, w, steps))
    decreases |steps|
  {
    if steps != [] {
      StepKeepsInv(rules, w, steps[0]);
      RunKeepsInv(rules, Apply(rules, w, steps[0]), steps[1..]);
    }
  }

  /** A written revision never changes and never goes away, over any run whatever. */
  lemma {:induction false} RevisionsAreImmutable(rules: Rules, w: Workspace, steps: seq<Step>)
    requires Legal(rules, w, steps)
    ensures forall key :: key in w.disk.files ==>
              key in After(rules, w, steps).disk.files
              && After(rules, w, steps).disk.files[key] == w.disk.files[key]
    decreases |steps|
  {
    if steps != [] {
      if steps[0].Act? {
        ActOnlyAdds(rules, w.disk, w.processes[steps[0].pid], steps[0].choice);
      }
      RevisionsAreImmutable(rules, Apply(rules, w, steps[0]), steps[1..]);
    }
  }

  lemma FreshInv(rules: Rules)
    ensures Inv(rules, Fresh)
  {
  }

  /** A state some run from the empty workspace arrives at. */
  ghost predicate Reachable(rules: Rules, w: Workspace) {
    exists steps :: Legal(rules, Fresh, steps) && After(rules, Fresh, steps) == w
  }

  lemma ReachableInv(rules: Rules, w: Workspace)
    requires Reachable(rules, w)
    ensures Inv(rules, w)
  {
    var steps :| Legal(rules, Fresh, steps) && After(rules, Fresh, steps) == w;
    FreshInv(rules);
    RunKeepsInv(rules, Fresh, steps);
  }

  /** No two creates get the same reference, however their scans and mkdirs interleave. */
  lemma CreatesGetDistinctReferences(rules: Rules, w: Workspace, p: Pid, q: Pid)
    requires Reachable(rules, w)
    requires p in w.processes && q in w.processes && p != q
    requires w.processes[p].Created? && w.processes[q].Created?
    ensures w.processes[p].record.ref != w.processes[q].record.ref
  {
    hide Reachable;
    ReachableInv(rules, w);
    assert HoldsDirectory(w.processes[p], w.processes[p].record.ref);
  }

  lemma RevisionsAreOneToHead(rules: Rules, w: Workspace, ref: Ref)
    requires Reachable(rules, w)
    ensures forall k :: (ref, k) in w.disk.files <==> 1 <= k <= Head(w.disk, ref)
  {
    hide Reachable;
    ReachableInv(rules, w);
    SoundHead(w.disk, ref);
  }

  lemma ActOnPatchWrite(rules: Rules, disk: Disk, p: Process)
    requires p.PatchWrite?
    ensures ActOf(rules, disk, p, 0)
            == match CreateExclusive(disk, p.record)
               case Some(made) => (made, PatchDone(p.base, p.patch, p.owner, p.title, p.record))
               case None => (disk, Refused(RevisionExists))
  {
  }

  lemma WriteOutcome(rules: Rules, disk: Disk, p: Process)
    requires Sound(disk) && p.PatchWrite? && ProcessInv(rules, disk, p)
    ensures var ref := p.base.ref;
            var head := Head(disk, ref);
            && (ref, head) in disk.files && p.record.ref == ref
            && Patched(rules, p.base, p.patch, p.owner, p.title) == Ok(p.record)
            && (p.base.revision == head ==>
                  && p.base == disk.files[(ref, head)]
                  && CreateExclusive(disk, p.record)
                     == Some(disk.(files := disk.files[(ref, head + 1) := p.record]))
                  && Head(disk.(files := disk.files[(ref, head + 1) := p.record]), ref) == head + 1)
            && (p.base.revision != head ==> CreateExclusive(disk, p.record) == None)
  {
    var ref := p.base.ref;
    assert p.record.ref == ref && p.record.revision == p.base.revision + 1;
    hide Patched;
    SoundHead(disk, ref);
    hide Sound, Head;
    var head := Head(disk, ref);
    assert (ref, p.record.revision) in disk.files <==> p.base.revision != head;
    if p.base.revision == head {
      HeadIsMax(disk.(files := disk.files[(ref, head + 1) := p.record]), ref, head + 1);
    }
  }

  /** `patch` is a compare-and-swap: in every reachable state the write goes through exactly when
      the revision it was computed from is still the head, and then it becomes the head. */
  lemma PatchIsCompareAndSwap(rules: Rules, w: Workspace, pid: Pid)
    requires Reachable(rules, w) && pid in w.processes && w.processes[pid].PatchWrite?
    ensures var p := w.processes[pid];
            var head := Head(w.disk, p.base.ref);
            var (disk, next) := ActOf(rules, w.disk, p, 0);
            && (next.PatchDone? <==> p.base.revision == head)
            && (next.PatchDone? ==>
                  && (p.base.ref, head) in w.disk.files && p.base == w.disk.files[(p.base.ref, head)]
                  && IsPatchOf(rules, p.base, p.patch, p.owner, p.title, next.record)
                  && disk == w.disk.(files := w.disk.files[(p.base.ref, head + 1) := next.record])
                  && Head(disk, p.base.ref) == head + 1)
            && (!next.PatchDone? ==> next == Refused(RevisionExists) && disk == w.disk)
  {
    hide *;
    ReachableProcess(rules, w, pid);
    SwapOf(rules, w.disk, w.processes[pid]);
  }

  lemma ReachableProcess(rules: Rules, w: Workspace, pid: Pid)
    requires Reachable(rules, w) && pid in w.processes
    ensures Sound(w.disk) && ProcessInv(rules, w.disk, w.processes[pid])
  {
    hide Reachable;
    ReachableInv(rules, w);
    hide Sound, ProcessInv, Exclusive, AllWritten;
  }

  lemma SwapOf(rules: Rules, disk: Disk, p: Process)
    requires Sound(disk) && p.PatchWrite? && ProcessInv(rules, disk, p)
    ensures var head := Head(disk, p.base.ref);
            var (after, next) := ActOf(rules, disk, p, 0);
            && (next.PatchDone? <==> p.base.revision == head)
            && (next.PatchDone? ==>
                  && (p.base.ref, head) in disk.files && p.base == disk.files[(p.base.ref, head)]
                  && IsPatchOf(rules, p.base, p.patch, p.owner, p.title, next.record)
                  && after == disk.(files := disk.files[(p.base.ref, head + 1) := next.record])
                  && Head(after, p.base.ref) == head + 1)
            && (!next.PatchDone? ==> next == Refused(RevisionExists) && after == disk)
  {
    hide *;
    WriteOutcome(rules, disk, p);
    ActOnPatchWrite(rules, disk, p);
    PatchedMeansPatch(rules, p.base, p.patch, p.owner, p.title, p.record);
  }

  lemma WriterKnowsItsRevision(rules: Rules, disk: Disk, p: Process, ref: Ref, k: nat)
    requires ProcessInv(rules, disk, p) && Wrote(p, (ref, k))
    ensures (ref, k) in disk.files && p.record == disk.files[(ref, k)] && (k == 1 <==> p.Created?)
    ensures k > 1 ==>
              && p.PatchDone? && (ref, k - 1) in disk.files
              && Patched(rules, disk.files[(ref, k - 1)], p.patch, p.owner, p.title)
                 == Ok(disk.files[(ref, k)])
  {
  }

  /** No update is lost: every revision past the first was written by exactly one patch, which
      computed it from the revision just before, and every first revision by exactly one create. */
  lemma NoUpdateIsLost(rules: Rules, w: Workspace, ref: Ref, k: nat) returns (writer: Pid)
    requires Reachable(rules, w) && (ref, k) in w.disk.files
    ensures writer in w.processes
    ensures forall other :: other in w.processes ==>
              (Wrote(w.processes[other], (ref, k)) <==> other == writer)
    ensures Wrote(w.processes[writer], (ref, k)) && w.processes[writer].record == w.disk.files[(ref, k)]
    ensures k == 1 <==> w.processes[writer].Created?
    ensures k > 1 ==>
              var p := w.processes[writer];
              && p.PatchDone? && (ref, k - 1) in w.disk.files
              && IsPatchOf(rules, w.disk.files[(ref, k - 1)], p.patch, p.owner, p.title, w.disk.files[(ref, k)])
  {
    hide Reachable;
    ReachableInv(rules, w);
    hide Sound;
    assert SomebodyWrote(w, (ref, k));
    writer :| writer in w.processes && Wrote(w.processes[writer], (ref, k));
    forall other | other in w.processes
      ensures Wrote(w.processes[other], (ref, k)) <==> other == writer
    {
    }
    hide AllWritten, SomebodyWrote, Exclusive;
    assert ProcessInv(rules, w.disk, w.processes[writer]);
    hide ProcessesInv;
    var p := w.processes[writer];
    WriterKnowsItsRevision(rules, w.disk, p, ref, k);
    hide ProcessInv, Wrote, Patched, IsPatchOf;
    if k > 1 {
      PatchedMeansPatch(rules, w.disk.files[(ref, k - 1)], p.patch, p.owner, p.title, w.disk.files[(ref, k)]);
    }
  }

  /** A patch nobody interrupts, listing the head, does in three operations what `PatchHead` does
      in one call. */
  lemma UninterruptedPatch(rules: Rules, disk: Disk, ref: Ref, patch: Patch, owner: string, title: Option<string>)
    requires Sound(disk)
    ensures var head := Head(disk, ref);
            var first := ActOf(rules, disk, PatchList(ref, patch, owner, title), head);
            if head == 0 then first == (disk, Refused(UnknownObject))
            else
              && (ref, head) in disk.files && !Over(first.1)
              && var second := ActOf(rules, first.0, first.1, 0);
                 if disk.files[(ref, head)].owner != owner then second == (disk, Refused(UnknownObject))
                 else
                   var current := disk.files[(ref, head)];
                   if second.1.Refused? then
                     second.0 == disk && IsRefusalOf(rules, current, patch, second.1.reason)
                   else
                     && !Over(second.1)
                     && var third := ActOf(rules, second.0, second.1, 0);
                        third.1.PatchDone? && IsPatchOf(rules, current, patch, owner, title, third.1.record)
                        && third.0 == disk.(files := disk.files[(ref, head + 1) := third.1.record])
  {
    SoundHead(disk, ref);
    var head := Head(disk, ref);
    hide Head, Revisions;
    assert head > 0 ==> (ref, head) in disk.files && disk.files[(ref, head)].ref == ref;
    assert (ref, head + 1) !in disk.files;
  }

  /** Any create and any patch may start under an unused process number, a patch may list any revision
      there is, and only a process that has created, patched or been refused has no operation left. */
  lemma NobodyIsStuck(w: Workspace, pid: Pid, ref: Ref, patch: Patch, owner: string, title: Option<string>,
                      kind: ObjectType, body: Body)
    ensures pid !in w.processes ==>
              && Enabled(w, Spawn(pid, CreateScan(kind, owner, body, title)))
              && Enabled(w, Spawn(pid, PatchList(ref, patch, owner, title)))
    ensures pid in w.processes && w.processes[pid].PatchList? ==>
              forall k :: (w.processes[pid].ref, k) in w.disk.files ==> Enabled(w, Act(pid, k))
    ensures pid in w.processes ==>
              var p := w.processes[pid];
              (p.Created? || p.PatchDone? || p.Refused?) != Enabled(w, Act(pid, if p.CreateScan? then 1 else 0))
  {
  }

  /** A create nobody interrupts, starting at a free number, makes the directory and writes what it was
      asked to as revision 1; at a number that is taken it goes on with the next and changes nothing. */
  lemma UninterruptedCreate(rules: Rules, disk: Disk, kind: ObjectType, owner: string, body: Body,
                            title: Option<string>, number: nat)
    requires Sound(disk)
    ensures var first := ActOf(rules, disk, CreateScan(kind, owner, body, title), number);
            && first.0 == disk && !Over(first.1)
            && var second := ActOf(rules, disk, first.1, 0);
               if Ref(kind, number) in disk.directories then
                 second.0 == disk && second.1 == ActOf(rules, disk, CreateScan(kind, owner, body, title), number + 1).1
               else
                 && !Over(second.1)
                 && var third := ActOf(rules, second.0, second.1, 0);
                    var record := Record(Ref(kind, number), 1, owner, body, title);
                    third == (Disk(disk.directories + {record.ref}, disk.files[(record.ref, 1) := record]),
                              Created(record))
  {
  }

  /** What a process was asked to do. */
  datatype Request =
    | ToCreate(kind: ObjectType, owner: string, body: Body, title: Option<string>)
    | ToPatch(ref: Ref, patch: Patch, owner: string, title: Option<string>)

  function Asked(p: Process): Option<Request> {
    match p
    case CreateScan(kind, owner, body, title) => Some(ToCreate(kind, owner, body, title))
    case CreateTry(kind, owner, body, title, _) => Some(ToCreate(kind, owner, body, title))
    case CreateWrite(record) => Some(ToCreate(record.ref.kind, record.owner, record.body, record.title))
    case Created(record) => Some(ToCreate(record.ref.kind, record.owner, record.body, record.title))
    case PatchList(ref, patch, owner, title) => Some(ToPatch(ref, patch, owner, title))
    case PatchRead(ref, patch, owner, title, _) => Some(ToPatch(ref, patch, owner, title))
    case PatchWrite(base, patch, owner, title, _) => Some(ToPatch(base.ref, patch, owner, title))
    case PatchDone(base, patch, owner, title, _) => Some(ToPatch(base.ref, patch, owner, title))
    case Refused(_) => None
  }

  lemma ActKeepsRequest(rules: Rules, disk: Disk, p: Process, choice: nat)
    requires Sound(disk) && !Over(p)
    ensures var after := ActOf(rules, disk, p, choice).1; after.Refused? || Asked(after) == Asked(p)
  {
    hide Patched;
  }

  /** Over any run a process goes on doing what it was asked, or is refused: what a create wrote is what
      its caller gave, and a patch is of the object its caller named. */
  lemma {:induction false} RequestsAreKept(rules: Rules, w: Workspace, steps: seq<Step>, pid: Pid)
    requires Inv(rules, w) && Legal(rules, w, steps) && pid in w.processes
    ensures var after := After(rules, w, steps).processes;
            && pid in after && (after[pid].Refused? || Asked(after[pid]) == Asked(w.processes[pid]))
            && (w.processes[pid].Refused? ==> after[pid].Refused?)
    decreases |steps|
  {
    if steps != [] {
      RequestStep(rules, w, steps[0], pid);
      StepKeepsInv(rules, w, steps[0]);
      hide Inv, Enabled, Apply, Asked;
      RequestsAreKept(rules, Apply(rules, w, steps[0]), steps[1..], pid);
    }
  }

  lemma RequestStep(rules: Rules, w: Workspace, step: Step, pid: Pid)
    requires Inv(rules, w) && Enabled(w, step) && pid in w.processes
    ensures var after := Apply(rules, w, step).processes;
            && pid in after && (after[pid].Refused? || Asked(after[pid]) == Asked(w.processes[pid]))
            && (w.processes[pid].Refused? ==> after[pid].Refused?)
  {
    if step.Act? && step.pid == pid {
      ActKeepsRequest(rules, w.disk, w.processes[pid], step.choice);
    }
    hide ActOf, Asked, Sound, ProcessesInv, Exclusive, AllWritten;
  }
}
