/**
 The stager, `apply` and `recover` as the imperative code they are, over one mutable
 workspace. `fuel` counts the durable steps left before the process stops, so a caller
 that ranges over every `fuel` ranges over every crash point. Every method refines the
 step system of CommitProtocol: whatever it does is a run of that system.
 */
module WorkspaceModel {
  import opened Options
  import opened Staging
  import opened CommitProtocol

  datatype Write =
    | WriteFile(path: Path, content: Digest)
    | MoveFile(source: Path, destination: Path)
    | DeleteFile(path: Path)

  datatype Proposal = Proposal(id: string, base: Revision, writes: seq<Write>)

  datatype PrepareResult = Planned(intent: Intent) | Refused | Halted

  datatype ApplyResult =
    | Receipt(event: Event)
    | PostconditionRollback(event: Event)
    | PreimageChanged(event: Event)
    | RecoveryPending
    | DuplicateProposal
    | StaleRevision
    | PrepareRefused
    | Stopped

  datatype RecoverResult =
    | RolledBackNow(event: Event)
    | AlreadyFinalized(event: Event)
    | NothingPending
    | StillPending
    | RecoverStopped

  /** The intent target for one write against the current files, or nothing when `prepare` refuses it. */
  function TargetOf(files: Files, w: Write): Option<Target> {
    match w
    case WriteFile(p, c) => Some(Replace(p, At(files, p), c))
    case MoveFile(s, d) =>
      if s in files && d !in files && s != d then Some(Move(s, d, files[s])) else None
    case DeleteFile(p) =>
      if p in files then Some(Delete(p, files[p])) else None
  }

  /** A rolled-back intent with a no-op replacement never classifies as PREPARED again. */
  predicate Stuck(s: State) {
    || s.intent.Torn?
    || (Pending(s) && |s.ledger| > 0
        && s.ledger[|s.ledger| - 1].body.proposal == s.intent.intent.id
        && s.ledger[|s.ledger| - 1].body.outcome == RolledBack
        && exists i :: 0 <= i < |s.staged| && NoOp(s.intent.intent.targets[i]))
  }

  /** Without an outside writer every target is in one of its two images and its assets are usable. */
  lemma StateAt(init: Files, s: State, i: nat)
    requires Inv(init, s) && Pending(s) && i < |s.staged|
    ensures StateOf(s, i) == if IsPost(s.files, s.intent.intent.targets[i]) then PostimagePresent else StagedAvailable
  {
    var t := s.intent.intent.targets[i];
    if Recorded(s.ledger, s.intent.intent.id) {
      assert Decided(init, s);
    } else {
      assert IsPre(s.files, t) || IsPost(s.files, t);
    }
  }

  /** Without an outside writer no interruption is ever classified as a conflict. */
  lemma NeverConflict(init: Files, s: State)
    requires Inv(init, s)
    ensures Inspect(s) != RecoveryConflict
    ensures Inspect(s) == InvalidIntent <==> s.intent.Torn?
    ensures Pending(s) ==> forall i | 0 <= i < |s.staged| ::
              StateOf(s, i) == if IsPost(s.files, s.intent.intent.targets[i]) then PostimagePresent else StagedAvailable
  {
    if Pending(s) {
      forall i | 0 <= i < |s.staged|
        ensures StateOf(s, i) == if IsPost(s.files, s.intent.intent.targets[i]) then PostimagePresent
                  else StagedAvailable
      {
        StateAt(init, s, i);
      }
    }
  }

  ghost predicate RestoredFrom(s: State, i: nat)
    requires Pending(s) && i <= |s.staged|
  {
    forall j | i <= j < |s.staged| ::
      && IsPre(s.files, s.intent.intent.targets[j])
      && (s.intent.intent.targets[j].Replace? ==> s.staged[j] == Some(s.intent.intent.targets[j].post))
  }

  /** The two images of a target coincide exactly for a no-op replacement. */
  lemma BothImages(files: Files, t: Target)
    requires t.Move? ==> t.src != t.dst
    ensures IsPre(files, t) ==> (IsPost(files, t) <==> NoOp(t))
  {
  }

  /** How `recover` sees an intent whose event is already in the ledger. */
  lemma DecidedClassification(init: Files, s: State)
    requires Inv(init, s) && s.intent.Published? && Recorded(s.ledger, s.intent.intent.id)
    ensures s.ledger[|s.ledger| - 1].body.outcome == Committed ==> Inspect(s) == FullyReplacedAwaitingAudit
    ensures s.ledger[|s.ledger| - 1].body.outcome == RolledBack ==>
              (Inspect(s) == RecoveryState.Prepared <==> !Stuck(s))
  {
    NeverConflict(init, s);
    var states := StatesOf(s);
    var ts := s.intent.intent.targets;
    if s.ledger[|s.ledger| - 1].body.outcome == RolledBack {
      forall i | 0 <= i < |states| ensures states[i] == (if NoOp(ts[i]) then PostimagePresent else StagedAvailable) {
        BothImages(s.files, ts[i]);
      }
      if i :| 0 <= i < |ts| && NoOp(ts[i]) {
        assert states[i] == PostimagePresent;
      } else {
        assert states[0] == StagedAvailable;
      }
    }
  }

  /** The event of a pending intent, if there is one, is the newest event. */
  lemma RecordedIsNewest(init: Files, s: State)
    requires Inv(init, s) && s.intent.Published?
    ensures Recorded(s.ledger, s.intent.intent.id) <==>
            (|s.ledger| > 0 && s.ledger[|s.ledger| - 1].body.proposal == s.intent.intent.id)
  {
  }

  /**
   A no-op update that is rolled back and interrupted before its clean-up is left behind for
   good: no outside writer, a valid ledger, and `recover` refuses it every time.
   */
  lemma NoOpRollbackGetsStuck()
    ensures exists s: State :: Reaches(Start(map["m" := "x"]), s) && s.intent.Published? && Stuck(s)
  {
    var s0 := Start(map["m" := "x"]);
    var t := Replace("m", Some("x"), "x");
    var rec := Intent("TXP-1", [t]);
    var s1 := s0.(intent := Published(rec), staged := StagesOf([t]), backup := BackupsOf([t]));
    assert Next(s0, Publish(rec), s1);
    var e := Event(EventBody("TXP-1", Action.Apply, RolledBack, AuditOps([t]), ZERO_REVISION), "h");
    var s2 := s1.(ledger := [e]);
    assert Next(s1, Append(e), s2);
    ReachesItself(s0);
    ReachesOneMore(s0, s0, Publish(rec), s1);
    ReachesOneMore(s0, s1, Append(e), s2);
    assert NoOp(s2.intent.intent.targets[0]);
    assert Stuck(s2);
  }

  class Workspace {
    var files: Files
    var ledger: seq<Event>
    var intent: IntentFile
    var staged: seq<Option<Digest>>
    var backup: seq<Option<Digest>>

    function View(): State
      reads this
    {
      State(files, ledger, intent, staged, backup)
    }

    constructor (initial: Files)
      ensures View() == Start(initial)
    {
      files, ledger, intent, staged, backup := initial, [], Absent, [], [];
    }

    /** One durable step of the stager: replace or move target `i` into its postimage. */
    method ApplyOne(ghost init: Files, ghost origin: State, i: nat)
      requires Inv(init, View()) && Reaches(origin, View())
      requires intent.Published? && !Recorded(ledger, intent.intent.id)
      requires i < |staged| && AppliedBefore(View(), i) && StateOf(View(), i) == StagedAvailable
      modifies this
      ensures Inv(init, View()) && Reaches(origin, View())
      ensures intent == old(intent) && ledger == old(ledger) && backup == old(backup)
      ensures |staged| == old(|staged|) && AppliedBefore(View(), i + 1)
    {
      ghost var before := View();
      files, staged := PutPost(files, intent.intent.targets[i]), staged[i := None];
      assert Next(before, ApplyTarget(i), View());
      StepKeepsInv(init, before, ApplyTarget(i), View());
      ReachesOneMore(origin, before, ApplyTarget(i), View());
      MoveOneTarget(Replay(init, ledger), before.files, intent.intent.targets, i, files);
      NeverConflict(init, View());
      NeverConflict(init, before);
    }

    /** Rebuild the staged postimage of target `i` from the file it was renamed onto. */
    method RebuildOne(ghost init: Files, ghost origin: State, i: nat)
      requires Inv(init, View()) && Reaches(origin, View())
      requires intent.Published? && !Recorded(ledger, intent.intent.id)
      requires i < |staged| && intent.intent.targets[i].Replace? && StateOf(View(), i) == PostimagePresent
      modifies this`staged
      ensures Inv(init, View()) && Reaches(origin, View())
      ensures staged == old(staged)[i := Some(intent.intent.targets[i].post)]
    {
      ghost var before := View();
      staged := staged[i := Some(intent.intent.targets[i].post)];
      assert Next(before, RebuildStage(i), View());
      StepKeepsInv(init, before, RebuildStage(i), View());
      ReachesOneMore(origin, before, RebuildStage(i), View());
    }

    /** Put target `i` back to its preimage. */
    method RestoreOne(ghost init: Files, ghost origin: State, i: nat)
      requires Inv(init, View()) && Reaches(origin, View())
      requires intent.Published? && !Recorded(ledger, intent.intent.id)
      requires i < |staged| && StateOf(View(), i) == PostimagePresent
      requires intent.intent.targets[i].Replace? ==> staged[i] == Some(intent.intent.targets[i].post)
      modifies this`files
      ensures Inv(init, View()) && Reaches(origin, View())
      ensures IsPre(files, intent.intent.targets[i])
      ensures forall j | 0 <= j < |staged| && j != i ::
                IsPre(files, intent.intent.targets[j]) <==> IsPre(old(files), intent.intent.targets[j])
    {
      ghost var before := View();
      files := PutPre(files, intent.intent.targets[i]);
      assert Next(before, RestoreTarget(i), View());
      StepKeepsInv(init, before, RestoreTarget(i), View());
      ReachesOneMore(origin, before, RestoreTarget(i), View());
      MoveOneTarget(Replay(init, ledger), before.files, intent.intent.targets, i, files);
    }

    /** Resolve the writes to intent targets, refusing missing sources and colliding paths. */
    method PlanTargets(writes: seq<Write>) returns (r: Option<seq<Target>>)
      ensures r.Some? ==> |r.value| == |writes| && WellFormed(r.value) && AllPre(files, r.value)
      ensures r.Some? ==> forall i | 0 <= i < |writes| :: TargetOf(files, writes[i]) == Some(r.value[i])
    {
      if |writes| == 0 {
        return None;
      }
      var targets: seq<Target> := [];
      var claimed: set<Path> := {};
      for i := 0 to |writes|
        invariant |targets| == i
        invariant forall j | 0 <= j < i :: TargetOf(files, writes[j]) == Some(targets[j])
        invariant forall j | 0 <= j < i :: Paths(targets[j]) <= claimed
        invariant forall j, k | 0 <= j < k < i :: Paths(targets[j]) !! Paths(targets[k])
      {
        var t := TargetOf(files, writes[i]);
        if t.None? || Paths(t.value) * claimed != {} {
          return None;
        }
        targets := targets + [t.value];
        claimed := claimed + Paths(t.value);
      }
      r := Some(targets);
    }

    /** Build the intent, copy the recovery assets and publish; a crash may tear the publication. */
    method Prepare(ghost init: Files, ghost origin: State, id: string, writes: seq<Write>, fuel: nat)
      returns (r: PrepareResult, left: nat)
      requires Inv(init, View()) && Reaches(origin, View()) && !Recorded(ledger, id)
      modifies this
      ensures Inv(init, View()) && Reaches(origin, View()) && left <= fuel
      ensures files == old(files) && ledger == old(ledger)
      ensures r.Planned? ==> Next(old(View()), Publish(r.intent), View()) && r.intent.id == id
      ensures r.Planned? ==> |r.intent.targets| == |writes|
      ensures r.Planned? ==> forall i | 0 <= i < |writes| :: TargetOf(files, writes[i]) == Some(r.intent.targets[i])
      ensures r.Refused? ==> View() == old(View())
      ensures r.Halted? ==> !intent.Published?
      ensures fuel >= 2 ==> !r.Halted? && left + 2 >= fuel
    {
      left := fuel;
      if intent != Absent {
        return Refused, left;
      }
      var targets := PlanTargets(writes);
      if targets.None? {
        return Refused, left;
      }
      if left == 0 {
        return Halted, 0;
      }
      ghost var before := View();
      if left == 1 {
        // intent.json exists but is still empty
        intent := Torn;
        assert Next(before, TearIntent, View());
        StepKeepsInv(init, before, TearIntent, View());
        ReachesOneMore(origin, before, TearIntent, View());
        return Halted, 0;
      }
      left := left - 2;
      var rec := Intent(id, targets.value);
      intent, staged, backup := Published(rec), StagesOf(targets.value), BackupsOf(targets.value);
      assert Next(before, Publish(rec), View());
      StepKeepsInv(init, before, Publish(rec), View());
      ReachesOneMore(origin, before, Publish(rec), View());
      r := Planned(rec);
    }

    /** Apply the postimages in intent order. */
    method ApplyTargets(ghost init: Files, ghost origin: State, fuel: nat) returns (done: bool, left: nat)
      requires Inv(init, View()) && Reaches(origin, View())
      requires intent.Published? && !Recorded(ledger, intent.intent.id)
      modifies this
      ensures Inv(init, View()) && Reaches(origin, View()) && left <= fuel
      ensures intent == old(intent) && ledger == old(ledger)
      ensures done ==> AllPost(files, intent.intent.targets)
      ensures |staged| == old(|staged|) && (fuel >= |staged| ==> done && left + |staged| >= fuel)
    {
      left, done := fuel, false;
      for i := 0 to |staged|
        invariant Inv(init, View()) && Reaches(origin, View()) && left <= fuel
        invariant fuel >= |staged| ==> left >= fuel - i
        invariant intent == old(intent) && ledger == old(ledger) && |staged| == old(|staged|)
        invariant AppliedBefore(View(), i)
      {
        StateAt(init, View(), i);
        if StateOf(View(), i) == StagedAvailable {
          if left == 0 {
            return;
          }
          left := left - 1;
          ApplyOne(init, origin, i);
        }
      }
      NeverConflict(init, View());
      assert forall i | 0 <= i < |staged| :: StateOf(View(), i) == PostimagePresent;
      done := true;
    }

    /** Undo target `i` if it is applied; everything from `i + 1` on is restored already. */
    method UndoTarget(ghost init: Files, ghost origin: State, i: nat, fuel: nat) returns (done: bool, left: nat)
      requires Inv(init, View()) && Reaches(origin, View())
      requires intent.Published? && !Recorded(ledger, intent.intent.id)
      requires i < |staged| && RestoredFrom(View(), i + 1)
      modifies this`files, this`staged
      ensures Inv(init, View()) && Reaches(origin, View()) && left <= fuel
      ensures |staged| == old(|staged|) && (done ==> RestoredFrom(View(), i))
      ensures fuel >= 2 ==> done && left + 2 >= fuel
    {
      left, done := fuel, false;
      StateAt(init, View(), i);
      if StateOf(View(), i) == PostimagePresent {
        if intent.intent.targets[i].Replace? && staged[i] != Some(intent.intent.targets[i].post) {
          if left == 0 {
            return;
          }
          left := left - 1;
          RebuildOne(init, origin, i);
          StateAt(init, View(), i);
        }
        if left == 0 {
          return;
        }
        left := left - 1;
        RestoreOne(init, origin, i);
      }
      done := true;
    }

    /** Restore the preimages in reverse order, rebuilding each consumed staged postimage first. */
    method RollbackTargets(ghost init: Files, ghost origin: State, fuel: nat) returns (done: bool, left: nat)
      requires Inv(init, View()) && Reaches(origin, View())
      requires intent.Published? && !Recorded(ledger, intent.intent.id)
      modifies this`files, this`staged
      ensures Inv(init, View()) && Reaches(origin, View()) && left <= fuel
      ensures done ==> Restored(View()) && files == Replay(init, ledger)
      ensures fuel >= 2 * old(|staged|) ==> done && left + 2 * old(|staged|) >= fuel
    {
      left, done := fuel, false;
      var i := |staged|;
      while i > 0
        invariant 0 <= i <= |staged| == old(|staged|)
        invariant Inv(init, View()) && Reaches(origin, View()) && left <= fuel
        invariant RestoredFrom(View(), i)
        invariant fuel >= 2 * |staged| ==> left >= fuel - 2 * (|staged| - i)
      {
        i := i - 1;
        var ok;
        ok, left := UndoTarget(init, origin, i, left);
        if !ok {
          return;
        }
      }
      AllPreIsBase(Replay(init, ledger), files, intent.intent.targets);
      done := true;
    }

    /** Append the event, then drop the intent and its assets; a crash may separate the two. */
    method AppendAndFinalize(ghost init: Files, ghost origin: State, e: Event, fuel: nat)
      returns (done: bool, left: nat)
      requires Inv(init, View()) && Reaches(origin, View())
      requires intent.Published? && !Recorded(ledger, intent.intent.id)
      requires e.body.proposal == intent.intent.id && e.body.prev == Head(ledger)
      requires e.body.ops == AuditOps(intent.intent.targets)
      requires e.body.outcome == Committed ==> AllPost(files, intent.intent.targets)
      requires e.body.outcome == RolledBack ==> Restored(View())
      modifies this
      ensures Inv(init, View()) && Reaches(origin, View()) && files == old(files) && left <= fuel
      ensures ledger == old(ledger) || ledger == old(ledger) + [e]
      ensures done ==> intent == Absent && ledger == old(ledger) + [e]
      ensures fuel >= 2 ==> done
    {
      left, done := fuel, false;
      if left == 0 {
        return;
      }
      ghost var before := View();
      ledger := ledger + [e];
      assert Next(before, Append(e), View());
      StepKeepsInv(init, before, Append(e), View());
      ReachesOneMore(origin, before, Append(e), View());
      assert ledger[|ledger| - 1] == e;
      if left == 1 {
        left := 0;
        return;
      }
      left := left - 2;
      FinalizeIntent(init, origin);
      done := true;
    }

    /** Remove the intent once its event is the newest one in the ledger. */
    method FinalizeIntent(ghost init: Files, ghost origin: State)
      requires Inv(init, View()) && Reaches(origin, View())
      requires intent.Published? && Recorded(ledger, intent.intent.id)
      modifies this
      ensures Inv(init, View()) && Reaches(origin, View())
      ensures files == old(files) && ledger == old(ledger) && intent == Absent
    {
      ghost var before := View();
      intent, staged, backup := Absent, [], [];
      assert Next(before, Finalize, View());
      StepKeepsInv(init, before, Finalize, View());
      ReachesOneMore(origin, before, Finalize, View());
    }

    /** Restore the preimages and record the rollback. */
    method RollBackAndRecord(ghost init: Files, ghost origin: State, e: Event, fuel: nat) returns (done: bool)
      requires Inv(init, View()) && Reaches(origin, View())
      requires intent.Published? && !Recorded(ledger, intent.intent.id)
      requires e.body.proposal == intent.intent.id && e.body.prev == Head(ledger)
      requires e.body.ops == AuditOps(intent.intent.targets) && e.body.outcome == RolledBack
      modifies this
      ensures Inv(init, View()) && Reaches(origin, View())
      ensures ledger == old(ledger) || ledger == old(ledger) + [e]
      ensures done ==> intent == Absent && ledger == old(ledger) + [e] && files == Replay(init, old(ledger))
      ensures fuel >= 2 * old(|staged|) + 2 ==> done
    {
      var left;
      done, left := RollbackTargets(init, origin, fuel);
      if done {
        done, left := AppendAndFinalize(init, origin, e, left);
      }
    }

    /** Apply the postimages and record the commit. */
    method ApplyAndRecord(ghost init: Files, ghost origin: State, commit: Event, undo: Event, valid: bool, fuel: nat)
      returns (done: bool)
      requires Inv(init, View()) && Reaches(origin, View())
      requires intent.Published? && !Recorded(ledger, intent.intent.id)
      requires commit.body.proposal == undo.body.proposal == intent.intent.id
      requires commit.body.prev == undo.body.prev == Head(ledger)
      requires commit.body.ops == undo.body.ops == AuditOps(intent.intent.targets)
      requires commit.body.outcome == Committed && undo.body.outcome == RolledBack
      modifies this
      ensures Inv(init, View()) && Reaches(origin, View())
      ensures ledger == old(ledger) || ledger == old(ledger) + [if valid then commit else undo]
      ensures done ==> intent == Absent && ledger == old(ledger) + [if valid then commit else undo]
      ensures done ==> files == if valid then PerformAll(Replay(init, old(ledger)), commit.body.ops)
                else Replay(init, old(ledger))
      ensures fuel >= 3 * old(|staged|) + 2 ==> done
    {
      var left;
      done, left := ApplyTargets(init, origin, fuel);
      if !done {
        return;
      }
      if !valid {
        done := RollBackAndRecord(init, origin, undo, left);
      } else {
        AllPostIsPerformed(Replay(init, ledger), files, intent.intent.targets);
        done, left := AppendAndFinalize(init, origin, commit, left);
      }
    }

    /** The part of `apply` after the intent is published. */
    method CommitPrepared(ghost init: Files, ghost origin: State, id: string, compiled: seq<AuditOp>, valid: bool,
                          seal: EventBody -> Revision, fuel: nat)
      returns (r: ApplyResult)
      requires Inv(init, View()) && Reaches(origin, View())
      requires intent.Published? && intent.intent.id == id && !Recorded(ledger, id)
      requires Restored(View()) && files == Replay(init, ledger)
      modifies this
      ensures Inv(init, View()) && Reaches(origin, View())
      ensures ledger == old(ledger) || (|ledger| == |old(ledger)| + 1 && ledger[..|ledger| - 1] == old(ledger))
      ensures ledger != old(ledger) ==>
                ledger[|ledger| - 1].body.prev == Head(old(ledger)) && ledger[|ledger| - 1].body.proposal == id
      ensures r.Receipt? ==> ledger == old(ledger) + [r.event]
      ensures r.Receipt? ==> r.event.body.outcome == Committed && r.event.body.ops == compiled
      ensures r.Receipt? ==> intent == Absent && files == PerformAll(old(files), compiled) && valid
      ensures r.PostconditionRollback? || r.PreimageChanged? ==>
                intent == Absent && files == old(files) && ledger == old(ledger) + [r.event]
                    && r.event.body.outcome == RolledBack
      ensures r.Receipt? || r.PostconditionRollback? || r.PreimageChanged? || r.Stopped?
      ensures fuel >= 3 * old(|staged|) + 2 ==> !r.Stopped?
    {
      var head := Head(ledger);
      var ops := AuditOps(intent.intent.targets);
      var undone := EventBody(id, Action.Apply, RolledBack, ops, head);
      if ops != compiled {
        var done, left := AppendAndFinalize(init, origin, Event(undone, seal(undone)), fuel);
        return if done then PreimageChanged(Event(undone, seal(undone))) else Stopped;
      }
      var committed := EventBody(id, Action.Apply, Committed, ops, head);
      var done := ApplyAndRecord(init, origin, Event(committed, seal(committed)), Event(undone, seal(undone)), valid,
          fuel);
      if !done {
        return Stopped;
      }
      r := if valid then Receipt(Event(committed, seal(committed)))
          else PostconditionRollback(Event(undone, seal(undone)));
    }

    /**
     Commit one proposal. `compiled` is the analysis result (the audit operations it expects),
     `valid` the verdict of the workspace and postcondition checks, `seal` the event hash.
     */
    method Apply(ghost init: Files, p: Proposal, compiled: seq<AuditOp>, valid: bool,
                 seal: EventBody -> Revision, fuel: nat)
      returns (r: ApplyResult)
      requires Inv(init, View())
      modifies this
      ensures Inv(init, View()) && Reaches(old(View()), View())
      ensures ledger == old(ledger) || (|ledger| == |old(ledger)| + 1 && ledger[..|ledger| - 1] == old(ledger))
      ensures ledger != old(ledger) ==>
                ledger[|ledger| - 1].body.prev == Head(old(ledger)) && ledger[|ledger| - 1].body.proposal == p.id
      ensures r.Receipt? ==> ledger == old(ledger) + [r.event]
      ensures r.Receipt? ==> r.event.body.outcome == Committed && r.event.body.ops == compiled
      ensures r.Receipt? ==> intent == Absent && files == PerformAll(old(files), compiled)
      ensures r.Receipt? ==> valid && old(intent) == Absent && p.base == Head(old(ledger))
      ensures r.PostconditionRollback? || r.PreimageChanged? ==>
                intent == Absent && files == old(files) && ledger == old(ledger) + [r.event]
                    && r.event.body.outcome == RolledBack
      ensures r.RecoveryPending? || r.DuplicateProposal? || r.StaleRevision? || r.PrepareRefused? ==>
                View() == old(View())
      ensures r.RecoveryPending? <==> old(intent) != Absent
      ensures r.DuplicateProposal? <==> old(intent) == Absent && Recorded(old(ledger), p.id)
      ensures fuel >= 3 * |p.writes| + 4 ==> !r.Stopped?
    {
      ghost var origin := View();
      ReachesItself(origin);
      if intent != Absent {
        return RecoveryPending;
      }
      if Recorded(ledger, p.id) {
        return DuplicateProposal;
      }
      if p.base != Head(ledger) {
        return StaleRevision;
      }
      var prepared, left := Prepare(init, origin, p.id, p.writes, fuel);
      if !prepared.Planned? {
        return if prepared.Refused? then PrepareRefused else Stopped;
      }
      r := CommitPrepared(init, origin, p.id, compiled, valid, seal, left);
    }

    /**
     Resolve an interrupted intent by the ledger alone: finish the clean-up of a recorded one,
     restore the preimages of an unrecorded one, and never apply a staged postimage.
     */
    method Recover(ghost init: Files, seal: EventBody -> Revision, fuel: nat) returns (r: RecoverResult)
      requires Inv(init, View())
      modifies this
      ensures Inv(init, View()) && Reaches(old(View()), View())
      ensures r.NothingPending? <==> old(intent) == Absent
      ensures r.StillPending? <==> Stuck(old(View()))
      ensures r.NothingPending? || r.StillPending? ==> View() == old(View())
      ensures r.AlreadyFinalized? || r.RolledBackNow? ==> intent == Absent && files == Replay(init, ledger)
      ensures r.AlreadyFinalized? ==> files == old(files) && ledger == old(ledger)
      ensures r.RolledBackNow? ==> ledger == old(ledger) + [r.event] && r.event.body.outcome == RolledBack
      ensures r.RolledBackNow? ==> files == Replay(init, old(ledger)) && r.event.body.action == Recovery
      ensures fuel >= 2 * old(|staged|) + 2 ==> !r.RecoverStopped?
    {
      ghost var origin := View();
      ReachesItself(origin);
      if intent == Absent {
        return NothingPending;
      }
      if intent == Torn {
        return StillPending;
      }
      if Recorded(ledger, intent.intent.id) {
        r := FinishRecorded(init, origin, fuel);
        return;
      }
      RecordedIsNewest(init, View());
      var body := EventBody(intent.intent.id, Recovery, RolledBack, AuditOps(intent.intent.targets), Head(ledger));
      var done := RollBackAndRecord(init, origin, Event(body, seal(body)), fuel);
      return if done then RolledBackNow(Event(body, seal(body))) else RecoverStopped;
    }

    /** Clean up an intent whose event is in the ledger, if its targets classify as that event says. */
    method FinishRecorded(ghost init: Files, ghost origin: State, fuel: nat) returns (r: RecoverResult)
      requires Inv(init, View()) && Reaches(origin, View())
      requires intent.Published? && Recorded(ledger, intent.intent.id)
      modifies this
      ensures Inv(init, View()) && Reaches(origin, View())
      ensures files == old(files) && ledger == old(ledger)
      ensures r.StillPending? <==> Stuck(old(View()))
      ensures r.StillPending? || r.RecoverStopped? ==> View() == old(View())
      ensures r.AlreadyFinalized? ==> intent == Absent && files == Replay(init, ledger)
      ensures r.StillPending? || r.RecoverStopped? || r.AlreadyFinalized?
      ensures fuel >= 1 ==> !r.RecoverStopped?
    {
      DecidedClassification(init, View());
      var existing := ledger[|ledger| - 1];
      var needed := if existing.body.outcome == Committed then FullyReplacedAwaitingAudit else RecoveryState.Prepared;
      if Inspect(View()) != needed {
        return StillPending;
      }
      if fuel == 0 {
        return RecoverStopped;
      }
      FinalizeIntent(init, origin);
      return AlreadyFinalized(existing);
    }
  }
}
