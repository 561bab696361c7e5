/**
 Registering and archiving artifacts as the imperative code they are. `fuel` counts the durable
 steps left before the process stops, so ranging over every `fuel` ranges over every crash point.
 Whatever a method does is a run of the Lifecycle system.
 */
module Inbox {
  import opened Options
  import opened Staging
  import opened Lifecycle
  import opened LifecycleRuns
  import opened Text
  import opened Destinations

  /** A validated request: unique raw paths, the primary not among its sidecars. */
  datatype Request = Request(path: Path, sidecars: seq<Path>, refuseDuplicates: bool)

  ghost predicate ValidRequest(req: Request) {
    && IsRaw(req.path) && req.path !in req.sidecars
    && (forall i | 0 <= i < |req.sidecars| :: IsRaw(req.sidecars[i]))
    && forall i, j | 0 <= i < j < |req.sidecars| :: req.sidecars[i] != req.sidecars[j]
  }

  datatype MoveResult = AlreadyApplied | MovedNow | RecoveredMove | MoveRefused | MoveStopped

  datatype MoveState = AllPending | AllApplied | Conflicted

  datatype CommitResult = Stored | NotAccepted | CommitStopped

  datatype RegisterResult =
    | Registered(index: nat)
    | DuplicateLinked(index: nat)
    | QuarantinedAs(index: nat)
    | AlreadyRegistered(index: nat)
    | DuplicateRefused(id: string)
    | NotFound
    | Changed
    | IdsExhausted
    | Rejected
    | Stopped

  datatype ArchiveResult = Archived | ArchivedAlready | ArchiveRecovered | ArchiveRefused | ArchiveStopped

  datatype Decision = Refuse(id: string) | Exhausted | Store(manifest: Manifest)

  predicate NewlyStored(r: RegisterResult) {
    r.Registered? || r.DuplicateLinked? || r.QuarantinedAs?
  }

  function StoredAt(r: RegisterResult): nat
    requires NewlyStored(r)
  {
    r.index
  }

  ghost predicate Completed(r: MoveResult) {
    r == AlreadyApplied || r == MovedNow || r == RecoveredMove
  }

  // ------------------------------------------------------- pure decisions

  ghost predicate SuffixesSafe(suffixOf: Path -> string) {
    forall p: Path :: SafeSuffix(suffixOf(p))
  }

  function PathAt(req: Request, i: nat): Path
    requires i <= |req.sidecars|
  {
    if i == 0 then req.path else req.sidecars[i - 1]
  }

  /** The scanned files of a request and where they will be preserved. */
  function NewItems(files: Files, req: Request, id: string, quarantined: bool, suffixOf: Path -> string): seq<Item>
    requires forall i | 0 <= i <= |req.sidecars| :: PathAt(req, i) in files
  {
    seq(|req.sidecars| + 1, i requires 0 <= i <= |req.sidecars| =>
      Item(PathAt(req, i),
           if quarantined then DestinationPath(QUARANTINE, id, i, suffixOf(PathAt(req, i))) else PathAt(req, i),
           files[PathAt(req, i)]))
  }

  function ArchivedItems(m: Manifest, suffixOf: Path -> string): seq<Item> {
    seq(|m.items|, i requires 0 <= i < |m.items| =>
      m.items[i].(preserved := DestinationPath(PROCESSED, m.id, i, suffixOf(m.items[i].source))))
  }

  /** Manifests in identifier order, as they are listed. */
  function Records(ms: seq<Manifest>): (r: seq<Manifest>)
    ensures forall m :: m in r <==> m in ms
  {
    var r := SortBy(ms, (m: Manifest) => m.id);
    assert forall m :: m in r <==> m in multiset(r);
    assert forall m :: m in ms <==> m in multiset(ms);
    r
  }

  function FirstByHash(records: seq<Manifest>, hash: Digest): (r: Option<Manifest>)
    ensures r.Some? ==> r.value in records && |r.value.items| > 0 && Hash(r.value) == hash
    ensures r.None? ==> forall m | m in records && |m.items| > 0 :: Hash(m) != hash
  {
    if records == [] then None
    else if |records[0].items| > 0 && Hash(records[0]) == hash then Some(records[0])
    else FirstByHash(records[1..], hash)
  }

  datatype Replay = NoReplay | Found(manifest: Manifest) | PathChanged

  /** The record is for this path and these sidecars. */
  predicate SameRequest(m: Manifest, req: Request) {
    |m.items| == |req.sidecars| + 1 && forall i | 0 <= i <= |req.sidecars| :: m.items[i].source == PathAt(req, i)
  }

  /** The source is gone: the newest relocated record that is in place or may be on its way. */
  function ReplayWithoutSource(files: Files, idle: bool, records: seq<Manifest>, req: Request): (r: Replay)
    ensures !r.PathChanged? && (r.Found? ==> r.manifest in records && SameRequest(r.manifest, req))
  {
    if records == [] then NoReplay
    else
      var m := records[|records| - 1];
      if SameRequest(m, req) && Relocated(m) && (m.items[0].preserved in files || !idle) then Found(m)
      else ReplayWithoutSource(files, idle, records[..|records| - 1], req)
  }

  predicate SourcesUnchanged(files: Files, m: Manifest) {
    forall i | 0 <= i < |m.items| :: At(files, m.items[i].source) == Some(m.items[i].hash)
  }

  /** The source is there: the newest record that still owns it, unless its bytes changed. */
  function ReplayWithSource(files: Files, records: seq<Manifest>, req: Request): (r: Replay)
    ensures r.Found? ==> r.manifest in records && SameRequest(r.manifest, req) && SourcesUnchanged(files, r.manifest)
  {
    if records == [] then NoReplay
    else
      var m := records[|records| - 1];
      if !SameRequest(m, req) || (m.items[0].preserved != req.path && m.items[0].preserved in files)
      then ReplayWithSource(files, records[..|records| - 1], req)
      else if SourcesUnchanged(files, m) then Found(m)
      else PathChanged
  }

  function ReplayCandidate(files: Files, idle: bool, ms: seq<Manifest>, req: Request): (r: Replay)
    ensures r.Found? ==> r.manifest in ms && SameRequest(r.manifest, req)
  {
    if req.path in files then ReplayWithSource(files, Records(ms), req)
    else ReplayWithoutSource(files, idle, Records(ms), req)
  }

  function PositionOf(ms: seq<Manifest>, m: Manifest): (k: nat)
    requires m in ms
    ensures k < |ms| && ms[k] == m
  {
    if ms[0] == m then 0 else 1 + PositionOf(ms[1..], m)
  }

  ghost predicate PathsFree(s: State, req: Request) {
    forall k, i, j | 0 <= k < |s.manifests| && !Arrived(s.files, s.manifests[k])
                     && 0 <= i < |s.manifests[k].items| && 0 <= j <= |req.sidecars| ::
      s.manifests[k].items[i].source != PathAt(req, j)
  }

  lemma NewManifestIsWellFormed(files: Files, req: Request, id: string, status: Status, duplicateOf: Option<string>,
                                suffixOf: Path -> string)
    requires ValidRequest(req) && NoDot(id) && SuffixesSafe(suffixOf) && status != Processed
    requires forall i | 0 <= i <= |req.sidecars| :: PathAt(req, i) in files
    requires status == Duplicate <==> duplicateOf.Some?
    ensures var m := Manifest(id, status, NewItems(files, req, id, status == Quarantined, suffixOf), duplicateOf,
              false);
            WellFormedManifest(m) && Waiting(files, m)
  {
    var items := NewItems(files, req, id, status == Quarantined, suffixOf);
    forall i | 0 <= i < |items|
      ensures IsRaw(items[i].source)
      ensures if status == Quarantined then !IsRaw(items[i].preserved) else items[i].preserved == items[i].source
    {
      LeavesTheRawZone(id, i, suffixOf(PathAt(req, i)));
    }
    forall i, j | 0 <= i < j < |items|
      ensures items[i].source != items[j].source && items[i].preserved != items[j].preserved
    {
      if i == 0 {
        assert req.sidecars[j - 1] in req.sidecars;
      }
      OwnDestinationsDiffer(QUARANTINE, id, i, suffixOf(PathAt(req, i)), j, suffixOf(PathAt(req, j)));
    }
  }

  lemma NewManifestRegisters(files: Files, ms: seq<Manifest>, req: Request, id: string, status: Status,
                             duplicateOf: Option<string>, suffixOf: Path -> string)
    requires ValidRequest(req) && NoDot(id) && SuffixesSafe(suffixOf) && status != Processed && !HasId(ms, id)
    requires req.path in files && forall i | 0 <= i <= |req.sidecars| :: PathAt(req, i) in files
    requires status == Duplicate <==> duplicateOf.Some?
    requires status == Pending ==> !KnowsHash(ms, files[req.path])
    requires status == Duplicate ==> Knows(ms, duplicateOf.value, files[req.path])
    ensures var m := Manifest(id, status, NewItems(files, req, id, status == Quarantined, suffixOf), duplicateOf,
              false);
            Registers(files, ms, m) && SameRequest(m, req)
  {
    NewManifestIsWellFormed(files, req, id, status, duplicateOf, suffixOf);
    assert PathAt(req, 0) == req.path;
  }

  lemma ArchivedManifestIsWellFormed(files: Files, m: Manifest, suffixOf: Path -> string)
    requires WellFormedManifest(m) && m.status == Pending && Waiting(files, m) && SuffixesSafe(suffixOf)
    ensures Archives(files, m, m.(status := Processed, items := ArchivedItems(m, suffixOf)))
  {
    var items := ArchivedItems(m, suffixOf);
    assert NoDot(m.id) by {
      forall i | 0 <= i < |m.id| ensures m.id[i] != '.' {
        assert m.id[i] in m.id;
      }
    }
    forall i | 0 <= i < |items| ensures !IsRaw(items[i].preserved) {
      LeavesTheRawZone(m.id, i, suffixOf(m.items[i].source));
    }
    forall i, j | 0 <= i < j < |items| ensures items[i].preserved != items[j].preserved {
      OwnDestinationsDiffer(PROCESSED, m.id, i, suffixOf(m.items[i].source), j, suffixOf(m.items[j].source));
    }
  }

  class Service {
    var files: Files
    var manifests: seq<Manifest>
    var stager: Stager

    function View(): State
      reads this
    {
      State(files, manifests, stager)
    }

    constructor (initial: Files)
      ensures View() == Start(initial)
    {
      files, manifests, stager := initial, [], Idle;
    }

    /** One step of the system; the methods below only ever change the state through it. */
    ghost method Advanced(origin: State, before: State, step: Step)
      requires Reaches(origin, before) && Inv(before) && Next(before, step, View())
      ensures Reaches(origin, View()) && Inv(View())
      ensures FilesInv(before) && Considerate(before, step) ==> FilesInv(View())
    {
      StepKeepsInv(before, step, View());
      ReachesOneMore(origin, before, step, View());
      if FilesInv(before) && Considerate(before, step) {
        StepKeepsFiles(before, step, View());
      }
    }

    /** The counting loop over the move specifications. */
    method InspectMoves(targets: seq<Target>) returns (r: MoveState)
      requires |targets| > 0 && forall i | 0 <= i < |targets| :: targets[i].Move?
      ensures r == AllPending <==> AllPre(files, targets)
      ensures r == AllApplied <==> AllPost(files, targets)
    {
      var pending, applied := 0, 0;
      for i := 0 to |targets|
        invariant pending + applied == i
        invariant pending == i <==> AllPre(files, targets[..i])
        invariant applied == i <==> AllPost(files, targets[..i])
        invariant 0 <= pending && 0 <= applied
      {
        var t := targets[i];
        assert targets[..i + 1] == targets[..i] + [t];
        var atSource, atDestination := At(files, t.src), At(files, t.dst);
        if atSource == Some(t.digest) && atDestination == None {
          assert IsPre(files, t) && !IsPost(files, t);
          pending := pending + 1;
        } else if atSource == None && atDestination == Some(t.digest) {
          assert IsPost(files, t) && !IsPre(files, t);
          applied := applied + 1;
        } else {
          assert !IsPre(files, targets[i]) && !IsPost(files, targets[i]);
          return Conflicted;
        }
      }
      assert targets[..|targets|] == targets;
      if pending == |targets| {
        return AllPending;
      }
      if applied == |targets| {
        return AllApplied;
      }
      r := Conflicted;
    }

    /** One durable step: move the file of target `i`. */
    method MoveTarget(ghost origin: State, i: nat)
      requires Reaches(origin, View()) && Inv(View()) && stager.Moving?
      requires i < |stager.targets| && IsPre(files, stager.targets[i])
      modifies this`files
      ensures Reaches(origin, View()) && Inv(View())
      ensures old(FilesInv(View())) ==> FilesInv(View())
      ensures files == PutPost(old(files), stager.targets[i]) && IsPost(files, stager.targets[i])
      ensures forall j | 0 <= j < |stager.targets| && j != i ::
                (IsPre(files, stager.targets[j]) <==> IsPre(old(files), stager.targets[j]))
                && (IsPost(files, stager.targets[j]) <==> IsPost(old(files), stager.targets[j]))
    {
      ghost var before := View();
      MoveStepLocal(files, manifests[stager.owner], i);
      files := PutPost(files, stager.targets[i]);
      Advanced(origin, before, MoveOne(i));
    }

    /** Apply what is left of a published move and close it. */
    method CompleteMove(ghost origin: State, fuel: nat) returns (done: bool)
      requires Reaches(origin, View()) && Inv(View()) && stager.Moving?
      modifies this
      ensures Reaches(origin, View()) && Inv(View()) && manifests == old(manifests)
      ensures old(FilesInv(View())) ==> FilesInv(View())
      ensures done ==> stager.Idle? && Arrived(files, manifests[old(stager.owner)])
      ensures fuel >= old(|stager.targets|) + 1 ==> done
    {
      var left := fuel;
      var targets := stager.targets;
      ghost var owner := stager.owner;
      for i := 0 to |targets|
        invariant Reaches(origin, View()) && Inv(View()) && manifests == old(manifests) && stager == old(stager)
        invariant old(FilesInv(View())) ==> FilesInv(View())
        invariant Between(targets) && forall j | 0 <= j < i :: IsPost(files, targets[j])
        invariant left <= fuel && (fuel >= |targets| + 1 ==> left + i >= fuel)
      {
        if !IsPost(files, targets[i]) {
          if left == 0 {
            return false;
          }
          left := left - 1;
          MoveTarget(origin, i);
        }
      }
      done := left > 0;
      if done {
        CloseMove(origin);
      }
    }

    ghost predicate Between(targets: seq<Target>)
      reads this
    {
      forall j | 0 <= j < |targets| :: IsPre(files, targets[j]) || IsPost(files, targets[j])
    }

    /**
     The physical move of manifest `k`, started or resumed. A foreign intent is never touched;
     normal return means every item is at its destination and no intent is left.
     */
    method MoveWithReceipt(ghost origin: State, k: nat, authentic: bool, fuel: nat) returns (r: MoveResult)
      requires Reaches(origin, View()) && Inv(View()) && k < |manifests| && Relocated(manifests[k])
      modifies this
      ensures Reaches(origin, View()) && Inv(View()) && manifests == old(manifests)
      ensures old(FilesInv(View())) ==> FilesInv(View())
      ensures Completed(r) ==> authentic && stager.Idle? && Arrived(files, manifests[k])
      ensures r == AlreadyApplied || r == MoveRefused ==> View() == old(View())
      ensures r == MovedNow ==> old(stager.Idle? && AllPre(files, Specs(manifests[k])))
      ensures r == MovedNow ==> files == Moved(old(files), manifests[k], |manifests[k].items|)
      ensures r == RecoveredMove ==> old(stager.Moving? && stager.owner == k)
      ensures !authentic || old(stager.TornIntent? || stager.Transaction? || stager.RolledBack?) ==> r == MoveRefused
      ensures authentic && old(stager.Idle?) ==>
                (r == MoveRefused <==>
                  !AllPre(old(files), Specs(manifests[k])) && !AllPost(old(files), Specs(manifests[k])))
      ensures fuel >= |manifests[k].items| + 3 ==> r != MoveStopped
    {
      var m := manifests[k];
      assert WellFormedManifest(m);
      if !authentic {
        return MoveRefused;
      }
      match stager
      case Idle =>
        var state := InspectMoves(Specs(m));
        PreAndPost(files, m);
        if state == AllApplied {
          return AlreadyApplied;
        }
        if state != AllPending {
          return MoveRefused;
        }
        var done := StartMove(origin, k, fuel);
        return if done then MovedNow else MoveStopped;
      case Moving(owner, targets) =>
        if owner != k || targets != Specs(m) {
          return MoveRefused;
        }
        var done := CompleteMove(origin, fuel);
        return if done then RecoveredMove else MoveStopped;
      case _ => return MoveRefused;
    }

    /** Publish the intent for manifest `k` and carry it through; a crash may tear the publication. */
    method StartMove(ghost origin: State, k: nat, fuel: nat) returns (done: bool)
      requires Reaches(origin, View()) && Inv(View()) && k < |manifests| && Relocated(manifests[k])
      requires stager.Idle? && AllPre(files, Specs(manifests[k]))
      modifies this
      ensures Reaches(origin, View()) && Inv(View()) && manifests == old(manifests)
      ensures old(FilesInv(View())) ==> FilesInv(View())
      ensures done ==> stager.Idle? && Arrived(files, manifests[k])
      ensures done ==> files == Moved(old(files), manifests[k], |manifests[k].items|)
      ensures fuel >= |manifests[k].items| + 3 ==> done
    {
      if fuel == 0 {
        return false;
      }
      ghost var before := View();
      if fuel == 1 {
        // intent.json exists but is still empty
        stager := TornIntent;
        Advanced(origin, before, Tear);
        return false;
      }
      stager := Moving(k, Specs(manifests[k]));
      Advanced(origin, before, Publish(k));
      done := ApplyMoves(origin, fuel - 2);
    }

    /** Apply a freshly published move target by target and close it. */
    method ApplyMoves(ghost origin: State, fuel: nat) returns (done: bool)
      requires Reaches(origin, View()) && Inv(View()) && stager.Moving? && AllPre(files, stager.targets)
      modifies this
      ensures Reaches(origin, View()) && Inv(View()) && manifests == old(manifests)
      ensures old(FilesInv(View())) ==> FilesInv(View())
      ensures done ==> stager.Idle? && Arrived(files, manifests[old(stager.owner)])
      ensures done ==> files == Moved(old(files), manifests[old(stager.owner)], |manifests[old(stager.owner)].items|)
      ensures fuel >= old(|stager.targets|) + 1 ==> done
    {
      var moved := MoveAll(origin, fuel);
      done := moved < fuel;
      if done {
        CloseMove(origin);
      }
    }

    /** The loop over the targets, as far as the process gets. */
    method MoveAll(ghost origin: State, fuel: nat) returns (moved: nat)
      requires Going(origin, View(), View(), 0)
      modifies this`files
      ensures Going(origin, old(View()), View(), moved)
      ensures moved == if fuel < |stager.targets| then fuel else |stager.targets|
    {
      ghost var start := View();
      moved := 0;
      var going := fuel > 0 && |stager.targets| > 0;
      while going
        invariant Going(origin, start, View(), moved) && moved <= fuel
        invariant going <==> moved < fuel && moved < |stager.targets|
        decreases |stager.targets| - moved
      {
        moved, going := MoveNext(origin, start, moved, fuel);
      }
    }

    method MoveNext(ghost origin: State, ghost start: State, i: nat, fuel: nat) returns (next: nat, going: bool)
      requires Going(origin, start, View(), i) && i < |stager.targets| && i < fuel
      modifies this`files
      ensures next == i + 1 && Going(origin, start, View(), next)
      ensures going <==> next < fuel && next < |stager.targets|
    {
      next := i + 1;
      MoveThis(origin, start, i, next);
      going := next < fuel && next < |stager.targets|;
    }

    method MoveThis(ghost origin: State, ghost start: State, i: nat, ghost next: nat)
      requires Going(origin, start, View(), i) && i < |stager.targets| && next == i + 1
      modifies this`files
      ensures Going(origin, start, View(), next)
    {
      MoveTarget(origin, i);
    }

    /** The last durable step of a move: its intent is removed. */
    method CloseMove(ghost origin: State)
      requires Reaches(origin, View()) && Inv(View()) && stager.Moving? && AllPost(files, stager.targets)
      modifies this`stager
      ensures Reaches(origin, View()) && Inv(View()) && stager.Idle?
      ensures old(FilesInv(View())) ==> FilesInv(View())
      ensures Arrived(files, manifests[old(stager.owner)])
    {
      ghost var before := View();
      ghost var m := manifests[stager.owner];
      assert WellFormedManifest(m);
      PreAndPost(files, m);
      stager := Idle;
      Advanced(origin, before, Finish);
    }

    /** One manifest transaction: begin, write, record, close; refused unless the stager is clean. */
    method Commit(ghost origin: State, after: seq<Manifest>, accepted: bool, fuel: nat)
      returns (r: CommitResult, left: nat)
      requires Reaches(origin, View()) && Inv(View())
      requires stager.Idle? ==> Changes(files, manifests, after)
      modifies this
      ensures Reaches(origin, View()) && Inv(View()) && files == old(files) && left <= fuel
      ensures old(FilesInv(View()) && (stager.Idle? ==> Considerate(View(), Begin(after)))) ==> FilesInv(View())
      ensures r == Stored ==> accepted && old(stager.Idle?) && stager.Idle? && manifests == after
      ensures r == NotAccepted ==> View() == old(View())
      ensures r == CommitStopped ==> manifests == old(manifests) || manifests == after
      ensures r == CommitStopped ==> !stager.Moving?
      ensures accepted && old(stager.Idle?) ==> r != NotAccepted
      ensures fuel >= 5 ==> r != CommitStopped && left + 5 >= fuel
    {
      left := fuel;
      if !stager.Idle? || !accepted {
        return NotAccepted, left;
      }
      if left == 0 {
        return CommitStopped, left;
      }
      ghost var before := View();
      if left == 1 {
        stager := TornIntent;
        Advanced(origin, before, Tear);
        return CommitStopped, 0;
      }
      left := left - 2;
      stager := Transaction(manifests, after, false);
      Advanced(origin, before, Begin(after));
      if left == 0 {
        return CommitStopped, left;
      }
      left := left - 1;
      before := View();
      manifests := after;
      Advanced(origin, before, Write);
      if left == 0 {
        return CommitStopped, left;
      }
      left := left - 1;
      before := View();
      stager := stager.(recorded := true);
      Advanced(origin, before, Record);
      if left == 0 {
        return CommitStopped, left;
      }
      left := left - 1;
      before := View();
      stager := Idle;
      Advanced(origin, before, Close);
      r := Stored;
    }

    /**
     Transaction recovery: finish a recorded transaction, undo an unrecorded one, leave moves alone. A
     rollback already recorded is cleaned up unless the transaction changed nothing: then its targets
     look applied, and recovery refuses.
     */
    method Recover(fuel: nat) returns (done: bool)
      requires Inv(View())
      modifies this
      ensures Reaches(old(View()), View()) && Inv(View()) && files == old(files)
      ensures old(FilesInv(View())) ==> FilesInv(View())
      ensures Durable(View()) == old(Durable(View()))
      ensures old(stager.TornIntent? || stager.Moving? || Stuck(stager)) ==> !done && View() == old(View())
      ensures done ==> stager.Idle? && manifests == old(Durable(View()))
      ensures fuel >= 3 && old(stager.Idle? || stager.Transaction? || (stager.RolledBack? && !Stuck(stager))) ==> done
    {
      ghost var origin := View();
      ReachesItself(origin);
      if stager.Idle? {
        return true;
      }
      if stager.TornIntent? || stager.Moving? || Stuck(stager) || fuel == 0 {
        return false;
      }
      ghost var before := View();
      if stager.Transaction? && stager.recorded {
        stager := Idle;
        Advanced(origin, before, Close);
        return true;
      }
      var left := fuel;
      if stager.Transaction? {
        done, left := RollBack(origin, left);
        if !done {
          return;
        }
      }
      done := left > 0;
      if done {
        before := View();
        stager := Idle;
        Advanced(origin, before, Sweep);
      }
    }

    /** Restore the manifests and record that; the intent is still there. */
    method RollBack(ghost origin: State, fuel: nat) returns (done: bool, left: nat)
      requires Reaches(origin, View()) && Inv(View()) && stager.Transaction? && !stager.recorded && fuel > 0
      modifies this
      ensures Reaches(origin, View()) && Inv(View()) && files == old(files)
      ensures old(FilesInv(View())) ==> FilesInv(View())
      ensures manifests == old(stager.before) && Durable(View()) == old(Durable(View()))
      ensures done ==> stager.RolledBack?
      ensures fuel >= 3 ==> done && left > 0
    {
      ghost var before := View();
      manifests := stager.before;
      Advanced(origin, before, Undo);
      left := fuel - 1;
      done := left > 0;
      if done {
        before := View();
        stager := RolledBack(stager.before, stager.after);
        Advanced(origin, before, Discard);
        left := left - 1;
      }
    }

    /** A quarantine interrupted before its receipt was kept: touch the manifest again and keep that receipt. */
    method AuthorizeAgain(ghost origin: State, k: nat, accepted: bool, fuel: nat) returns (r: CommitResult, left: nat)
      requires Reaches(origin, View()) && Inv(View()) && k < |manifests| && manifests[k].status == Quarantined
      modifies this
      ensures Reaches(origin, View()) && Inv(View()) && files == old(files) && |manifests| == old(|manifests|)
      ensures old(FilesInv(View())) ==> FilesInv(View())
      ensures r == Stored ==> old(stager.Idle?) && stager.Idle?
      ensures r == Stored ==> manifests == old(manifests)[k := old(manifests[k]).(authorized := true)]
      ensures fuel >= 10 ==> r != CommitStopped && left + 10 >= fuel
    {
      if !stager.Idle? {
        return NotAccepted, fuel;
      }
      AuthorizeChanges(files, manifests, k);
      r, left := Commit(origin, manifests, accepted, fuel);
      if r != Stored {
        return;
      }
      AuthorizeChanges(files, manifests, k);
      r, left := Commit(origin, manifests[k := manifests[k].(authorized := true)], accepted, left);
    }

    /** Resume or report a registration found again; a quarantined one is driven to its destination. */
    method Resume(ghost origin: State, k: nat, accepted: bool, fuel: nat) returns (r: RegisterResult)
      requires Reaches(origin, View()) && Inv(View()) && k < |manifests|
      modifies this
      ensures Reaches(origin, View()) && Inv(View()) && |manifests| == old(|manifests|)
      ensures old(FilesInv(View())) ==> FilesInv(View())
      ensures r == AlreadyRegistered(k) || r == Rejected || r == Stopped
      ensures r == AlreadyRegistered(k) ==>
                manifests[k].items == old(manifests[k].items) && manifests[k].status == old(manifests[k].status)
      ensures old(manifests[k].status) != Quarantined ==> r == AlreadyRegistered(k) && View() == old(View())
      ensures old(manifests[k].status) == Quarantined && r == AlreadyRegistered(k) ==>
                !old(stager.Transaction?) && stager.Idle? && Arrived(files, manifests[k]) && manifests[k].authorized
      ensures fuel >= old(|manifests[k].items|) + 13 ==> r != Stopped
    {
      if manifests[k].status != Quarantined {
        return AlreadyRegistered(k);
      }
      assert WellFormedManifest(manifests[k]);
      var left := fuel;
      if !manifests[k].authorized {
        var authorized, left1 := AuthorizeAgain(origin, k, accepted, left);
        if authorized != Stored {
          return if authorized == NotAccepted then Rejected else Stopped;
        }
        left := left1;
      }
      var move := MoveWithReceipt(origin, k, true, left);
      if move == MoveRefused {
        return Rejected;
      }
      r := if move == MoveStopped then Stopped else AlreadyRegistered(k);
    }

    /** What to store for files not seen under these paths before, read off the present state. */
    method Decide(req: Request, prefix: string, suspicious: bool, suffixOf: Path -> string) returns (d: Decision)
      requires Inv(View()) && ValidRequest(req) && NoDot(prefix) && SuffixesSafe(suffixOf)
      requires req.path in files && forall i | 0 <= i <= |req.sidecars| :: PathAt(req, i) in files
      ensures d.Refuse? <==> !suspicious && req.refuseDuplicates && KnowsHash(manifests, files[req.path])
      ensures d.Refuse? ==> Knows(manifests, d.id, files[req.path])
      ensures d.Store? ==>
                Registers(files, manifests, d.manifest) && SameRequest(d.manifest, req) && !d.manifest.authorized
      ensures d.Store? ==> (d.manifest.status == Quarantined <==> suspicious)
      ensures d.Store? ==> (d.manifest.status == Duplicate <==> !suspicious && KnowsHash(manifests, files[req.path]))
    {
      var known := FirstByHash(Records(manifests), files[req.path]);
      KnownMeaning(manifests, known, files[req.path]);
      if known.Some? && !suspicious && req.refuseDuplicates {
        return Refuse(known.value.id);
      }
      var status := if suspicious then Quarantined else if known.Some? then Duplicate else Pending;
      var duplicateOf := if status == Duplicate then Some(known.value.id) else None;
      var id := NewId(prefix);
      if id.None? {
        return Exhausted;
      }
      NewManifestRegisters(files, manifests, req, id.value, status, duplicateOf, suffixOf);
      d := Store(Manifest(id.value, status, NewItems(files, req, id.value, status == Quarantined, suffixOf),
          duplicateOf, false));
    }

    method NewId(prefix: string) returns (id: Option<string>)
      requires NoDot(prefix)
      ensures id.Some? ==> NoDot(id.value) && !HasId(manifests, id.value)
    {
      var used := set m | m in manifests :: m.id;
      id := AllocateArtifactId(used, prefix);
      if id.Some? {
        ghost var n :| LowestFree(used, prefix, n) && id.value == ArtifactId(prefix, n);
        ArtifactIdHasNoDot(prefix, n);
        forall k | 0 <= k < |manifests| ensures manifests[k].id != id.value {
          assert manifests[k] in manifests;
        }
      }
    }

    /** Store a new manifest and, for a quarantined one, carry the quarantine through. */
    method StoreNew(ghost origin: State, m: Manifest, accepted: bool, fuel: nat) returns (r: RegisterResult)
      requires Reaches(origin, View()) && Inv(View()) && Changes(files, manifests, manifests + [m])
      requires m.status != Processed && !m.authorized
      modifies this
      ensures Reaches(origin, View()) && Inv(View())
      ensures old(FilesInv(View()) && Considerate(View(), Begin(manifests + [m]))) ==> FilesInv(View())
      ensures r == Rejected || r == Stopped || NewlyStored(r)
      ensures NewlyStored(r) ==> stager.Idle? && StoredAt(r) == old(|manifests|)
      ensures NewlyStored(r) ==> manifests == old(manifests) + [m.(authorized := m.status == Quarantined)]
      ensures r.Registered? <==> NewlyStored(r) && m.status == Pending
      ensures r.DuplicateLinked? <==> NewlyStored(r) && m.status == Duplicate
      ensures NewlyStored(r) ==> if r.QuarantinedAs? then Arrived(files, manifests[r.index]) else files == old(files)
      ensures accepted && fuel >= 5 && old(stager.Idle?) && m.status != Quarantined ==> NewlyStored(r)
      ensures fuel >= |m.items| + 13 ==> r != Stopped
    {
      var k := |manifests|;
      assert (manifests + [m])[k] == m;
      var stored, left := Commit(origin, manifests + [m], accepted, fuel);
      if stored != Stored {
        return if stored == NotAccepted then Rejected else Stopped;
      }
      if m.status == Duplicate {
        return DuplicateLinked(k);
      }
      if m.status == Pending {
        return Registered(k);
      }
      r := FinishQuarantine(origin, k, accepted, left);
    }

    /** The second half of a quarantine: keep the receipt in the manifest, then move the files. */
    method FinishQuarantine(ghost origin: State, k: nat, accepted: bool, fuel: nat) returns (r: RegisterResult)
      requires Reaches(origin, View()) && Inv(View()) && k < |manifests| && manifests[k].status == Quarantined
      modifies this
      ensures Reaches(origin, View()) && Inv(View()) && |manifests| == old(|manifests|)
      ensures old(FilesInv(View())) ==> FilesInv(View())
      ensures r == QuarantinedAs(k) || r == Rejected || r == Stopped
      ensures r == QuarantinedAs(k) ==> stager.Idle? && Arrived(files, manifests[k])
      ensures r == QuarantinedAs(k) ==> manifests == old(manifests)[k := old(manifests[k]).(authorized := true)]
      ensures fuel >= old(|manifests[k].items|) + 8 ==> r != Stopped
    {
      AuthorizeChanges(files, manifests, k);
      var authorized, left := Commit(origin, manifests[k := manifests[k].(authorized := true)], accepted, fuel);
      if authorized != Stored {
        return if authorized == NotAccepted then Rejected else Stopped;
      }
      var move := MoveWithReceipt(origin, k, true, left);
      if move == MoveRefused {
        return Rejected;
      }
      r := if move == MoveStopped then Stopped else QuarantinedAs(k);
    }

    /**
     Register one raw artifact with its sidecars. `prefix` is the daily identifier prefix,
     `suspicious` whether the scan of any of the files gave a reason for quarantine, `accepted`
     whether the transaction engine accepts the manifest changes.
     */
    method Register(req: Request, prefix: string, suspicious: bool, suffixOf: Path -> string, accepted: bool, fuel: nat)
      returns (r: RegisterResult)
      requires Inv(View()) && ValidRequest(req) && NoDot(prefix) && SuffixesSafe(suffixOf)
      modifies this
      ensures Reaches(old(View()), View()) && Inv(View())
      ensures old(FilesInv(View())) && (old(PathsFree(View(), req)) || old(Candidate(req)) != NoReplay) ==>
                FilesInv(View())
      ensures r.AlreadyRegistered? ==>
                r.index < |manifests| == old(|manifests|) && Reported(manifests[r.index], req, View())
      ensures r.AlreadyRegistered? ==> LastsExactly(old(View()), View(), r.index)
      ensures r.AlreadyRegistered? ==>
                old(Candidate(req)).Found? && r.index == PositionOf(old(manifests), old(Candidate(req)).manifest)
      ensures old(Candidate(req)).Found? && old(Candidate(req)).manifest.status != Quarantined ==>
                r.AlreadyRegistered? && View() == old(View())
      ensures NewlyStored(r) ==> old(Candidate(req)) == NoReplay && stager.Idle? && StoredAt(r) == old(|manifests|)
      ensures NewlyStored(r) ==> |manifests| == old(|manifests|) + 1 && SameRequest(manifests[StoredAt(r)], req)
      ensures NewlyStored(r) ==> manifests[..old(|manifests|)] == old(manifests)
      ensures NewlyStored(r) ==> (r.QuarantinedAs? <==> suspicious) && StoredAs(r, manifests[StoredAt(r)], View())
      ensures r.Registered? || r.DuplicateLinked? ==> files == old(files)
      ensures NewlyStored(r) && !suspicious ==>
                req.path in old(files) && (r.DuplicateLinked? <==> KnowsHash(old(manifests), old(files)[req.path]))
      ensures r.DuplicateRefused? ==> req.refuseDuplicates && !suspicious && View() == old(View())
      ensures r.NotFound? || r.Changed? || r.IdsExhausted? ==> View() == old(View())
      ensures r.Changed? <==> old(Candidate(req)) == PathChanged
      ensures fuel >= |req.sidecars| + 14 ==> r != Stopped
    {
      ghost var origin := View();
      ReachesItself(origin);
      var replay := Candidate(req);
      if replay.PathChanged? {
        return Changed;
      }
      if replay.Found? {
        CandidateIsThere(files, stager.Idle?, manifests, req);
        r := ResumeFound(origin, req, PositionOf(manifests, replay.manifest), accepted, fuel);
        return;
      }
      r := RegisterFresh(origin, req, prefix, suspicious, suffixOf, accepted, fuel);
    }

    /** No earlier registration owns these paths: scan, decide and store. */
    method RegisterFresh(ghost origin: State, req: Request, prefix: string, suspicious: bool, suffixOf: Path -> string,
                         accepted: bool, fuel: nat)
      returns (r: RegisterResult)
      requires Reaches(origin, View()) && Inv(View()) && ValidRequest(req) && NoDot(prefix) && SuffixesSafe(suffixOf)
      modifies this
      ensures Reaches(origin, View()) && Inv(View())
      ensures old(FilesInv(View()) && PathsFree(View(), req)) ==> FilesInv(View())
      ensures !r.AlreadyRegistered? && !r.Changed?
      ensures NewlyStored(r) ==> stager.Idle? && StoredAt(r) == old(|manifests|)
      ensures NewlyStored(r) ==> |manifests| == old(|manifests|) + 1 && SameRequest(manifests[StoredAt(r)], req)
      ensures NewlyStored(r) ==> manifests[..old(|manifests|)] == old(manifests)
      ensures NewlyStored(r) ==> (r.QuarantinedAs? <==> suspicious) && StoredAs(r, manifests[StoredAt(r)], View())
      ensures r.Registered? || r.DuplicateLinked? ==> files == old(files)
      ensures NewlyStored(r) && !suspicious ==>
                req.path in old(files) && (r.DuplicateLinked? <==> KnowsHash(old(manifests), old(files)[req.path]))
      ensures r.DuplicateRefused? ==> req.refuseDuplicates && !suspicious && View() == old(View())
      ensures r.NotFound? || r.IdsExhausted? ==> View() == old(View())
      ensures fuel >= |req.sidecars| + 14 ==> r != Stopped
    {
      if req.path !in files || exists i :: 0 <= i < |req.sidecars| && req.sidecars[i] !in files {
        return NotFound;
      }
      var d := Decide(req, prefix, suspicious, suffixOf);
      match d
      case Refuse(id) => r := DuplicateRefused(id);
      case Exhausted => r := IdsExhausted;
      case Store(m) =>
        RegisterIsConsiderate(View(), m, req);
        RegisterChanges(files, manifests, m);
        r := StoreNew(origin, m, accepted, fuel);
    }

    method ResumeFound(ghost origin: State, req: Request, k: nat, accepted: bool, fuel: nat) returns (r: RegisterResult)
      requires Reaches(origin, View()) && Inv(View()) && k < |manifests| && SameRequest(manifests[k], req)
      modifies this
      ensures Reaches(origin, View()) && Inv(View())
      ensures old(FilesInv(View())) ==> FilesInv(View())
      ensures r == AlreadyRegistered(k) || r == Rejected || r == Stopped
      ensures old(manifests[k].status) != Quarantined ==> r == AlreadyRegistered(k) && View() == old(View())
      ensures r.AlreadyRegistered? ==>
                r.index < |manifests| == old(|manifests|) && Reported(manifests[r.index], req, View())
      ensures r.AlreadyRegistered? ==> LastsExactly(old(View()), View(), r.index)
      ensures fuel >= |req.sidecars| + 14 ==> r != Stopped
    {
      r := Resume(origin, k, accepted, fuel);
      if r.AlreadyRegistered? {
        StaysRegisteredExactly(View(), k);
        StaysAsItIsExactly(View(), k);
      }
    }

    function Candidate(req: Request): Replay
      reads this
    {
      ReplayCandidate(files, stager.Idle?, manifests, req)
    }

    /**
     Archive an artifact a committed transaction refers to: first the manifest, then the files.
     `authentic` says whether the receipt authenticates against the ledger for this artifact.
     */
    method ArchiveAfter(k: nat, authentic: bool, suffixOf: Path -> string, accepted: bool, fuel: nat)
      returns (r: ArchiveResult)
      requires Inv(View()) && k < |manifests| && SuffixesSafe(suffixOf)
      modifies this
      ensures Reaches(old(View()), View()) && Inv(View()) && |manifests| == old(|manifests|)
      ensures old(FilesInv(View())) ==> FilesInv(View())
      ensures r == Archived || r == ArchivedAlready || r == ArchiveRecovered ==>
                authentic && stager.Idle? && manifests[k].status == Processed && Arrived(files, manifests[k])
      ensures !authentic || old(manifests[k].status == Duplicate || manifests[k].status == Quarantined) ==>
                r == ArchiveRefused && View() == old(View())
      ensures r == ArchivedAlready ==> View() == old(View())
      ensures r == Archived ==> old(manifests[k].status == Pending && Waiting(files, manifests[k]))
      ensures fuel >= old(|manifests[k].items|) + 8 ==> r != ArchiveStopped
    {
      ghost var origin := View();
      ReachesItself(origin);
      var status := manifests[k].status;
      if !authentic || status == Duplicate || status == Quarantined {
        return ArchiveRefused;
      }
      var left := fuel;
      if status == Pending {
        if !SourcesUnchanged(files, manifests[k]) {
          return ArchiveRefused;
        }
        var stored, left1 := MarkProcessed(origin, k, suffixOf, accepted, left);
        if stored != Stored {
          return if stored == NotAccepted then ArchiveRefused else ArchiveStopped;
        }
        left := left1;
      }
      var move := MoveWithReceipt(origin, k, true, left);
      match move
      case MoveRefused => r := ArchiveRefused;
      case MoveStopped => r := ArchiveStopped;
      case RecoveredMove => r := ArchiveRecovered;
      case AlreadyApplied => r := if status == Processed then ArchivedAlready else Archived;
      case MovedNow => r := if status == Processed then ArchiveRecovered else Archived;
    }

    /** The manifest half of archiving: status and destinations, before any file has moved. */
    method MarkProcessed(ghost origin: State, k: nat, suffixOf: Path -> string, accepted: bool, fuel: nat)
      returns (r: CommitResult, left: nat)
      requires Reaches(origin, View()) && Inv(View()) && SuffixesSafe(suffixOf)
      requires k < |manifests| && manifests[k].status == Pending && Waiting(files, manifests[k])
      modifies this
      ensures Reaches(origin, View()) && Inv(View()) && files == old(files) && |manifests| == old(|manifests|)
      ensures old(FilesInv(View())) ==> FilesInv(View())
      ensures r == Stored ==> stager.Idle? && manifests[k].status == Processed
      ensures r == Stored ==> |manifests[k].items| == old(|manifests[k].items|)
      ensures r == NotAccepted ==> View() == old(View())
      ensures fuel >= 5 ==> r != CommitStopped && left + 5 >= fuel
    {
      var m := manifests[k];
      assert WellFormedManifest(m);
      ArchivedManifestIsWellFormed(files, m, suffixOf);
      var m' := m.(status := Processed, items := ArchivedItems(m, suffixOf));
      ArchiveChanges(files, manifests, k, m');
      r, left := Commit(origin, manifests[k := m'], accepted, fuel);
    }
  }

  /** A rolled-back transaction that changed nothing, interrupted before its clean-up. */
  predicate Stuck(stager: Stager) {
    stager.RolledBack? && stager.before == stager.after
  }

  /** Whether the answer outlasts every recovery can be read off the state before the call. */
  ghost predicate LastsExactly(before: State, s: State, k: nat)
    requires k < |s.manifests|
  {
    && (StaysRegistered(s, k) <==> !Uncommitted(before, k))
    && (StaysAsItIs(s, k) <==> !Revocable(before, k))
  }

  /** What `already registered` guarantees: a quarantined artifact has been moved, with nothing left to do. */
  ghost predicate Reported(m: Manifest, req: Request, s: State) {
    SameRequest(m, req) && (m.status == Quarantined ==> s.stager.Idle? && Arrived(s.files, m))
  }

  ghost predicate StoredAs(r: RegisterResult, m: Manifest, s: State)
    requires NewlyStored(r)
  {
    match r
    case Registered(_) => m.status == Pending
    case DuplicateLinked(_) => m.status == Duplicate
    case QuarantinedAs(_) => m.status == Quarantined && Arrived(s.files, m)
  }

  lemma KnownMeaning(ms: seq<Manifest>, known: Option<Manifest>, hash: Digest)
    requires known == FirstByHash(Records(ms), hash)
    ensures known.Some? <==> KnowsHash(ms, hash)
    ensures known.Some? ==> Knows(ms, known.value.id, hash)
  {
    if known.Some? {
      var k :| 0 <= k < |ms| && ms[k] == known.value;
    }
  }

  lemma CandidateIsThere(files: Files, idle: bool, ms: seq<Manifest>, req: Request)
    requires ReplayCandidate(files, idle, ms, req).Found?
    ensures var m := ReplayCandidate(files, idle, ms, req).manifest;
            m in ms && SameRequest(m, req) && ms[PositionOf(ms, m)] == m && |m.items| == |req.sidecars| + 1
  {
  }

  lemma AuthorizeChanges(files: Files, ms: seq<Manifest>, k: nat)
    requires k < |ms| && ms[k].status == Quarantined
    ensures Changes(files, ms, ms) && Changes(files, ms, ms[k := ms[k].(authorized := true)])
  {
    assert ms == ms[k := ms[k]];
  }

  lemma ArchiveChanges(files: Files, ms: seq<Manifest>, k: nat, m: Manifest)
    requires k < |ms| && Archives(files, ms[k], m)
    ensures Changes(files, ms, ms[k := m])
  {
  }

  lemma RegisterChanges(files: Files, ms: seq<Manifest>, m: Manifest)
    requires Registers(files, ms, m)
    ensures Changes(files, ms, ms + [m])
  {
  }

  lemma RegisterIsConsiderate(s: State, m: Manifest, req: Request)
    requires SameRequest(m, req)
    ensures PathsFree(s, req) ==> Considerate(s, Begin(s.manifests + [m]))
  {
    if PathsFree(s, req) {
      forall k | 0 <= k < |s.manifests| && !Arrived(s.files, s.manifests[k]) ensures Apart(s.manifests[k], m) {
      }
    }
  }

  /** A run of the system led here, a move is under way and its first `i` targets are applied. */
  ghost predicate Going(origin: State, start: State, s: State, i: nat) {
    && Reaches(origin, s) && Inv(s) && (FilesInv(start) ==> FilesInv(s))
    && s.stager.Moving? && i <= |s.stager.targets|
    && MovedUpTo(start.files, s.files, s.manifests[s.stager.owner], s.stager.targets, i)
  }

  /** The first `i` targets are at their destinations, the others still at their sources. */
  ghost predicate MovedUpTo(start: Files, files: Files, m: Manifest, targets: seq<Target>, i: nat)
    requires i <= |targets| == |m.items|
  {
    && files == Moved(start, m, i)
    && (forall j | 0 <= j < i :: IsPost(files, targets[j]))
    && forall j | i <= j < |targets| :: IsPre(files, targets[j])
  }

  lemma PreAndPost(files: Files, m: Manifest)
    requires WellFormedManifest(m) && Relocated(m)
    ensures AllPost(files, Specs(m)) ==> Arrived(files, m)
  {
    if AllPost(files, Specs(m)) {
      forall i | 0 <= i < |m.items| ensures At(files, m.items[i].preserved) == Some(m.items[i].hash) {
        assert IsPost(files, Specs(m)[i]);
      }
    }
  }
}
