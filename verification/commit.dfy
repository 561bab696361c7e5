/**
 The audited commit protocol as a step system over durable state: canonical files,
 the audit ledger, the intent file and the recovery assets. A crash is simply the
 absence of a further step, so what holds in every reachable state holds at every
 point where the process may stop.
 */
module CommitProtocol {
  import opened Options
  import opened Staging

  type Revision = string
  const ZERO_REVISION: Revision := "0000000000000000000000000000000000000000000000000000000000000000"

  datatype AuditOp =
    | Create(target: Path, post: Digest)
    | Update(target: Path, pre: Digest, post: Digest)
    | Rename(source: Path, destination: Path, digest: Digest)
    | DeleteGenerated(target: Path, gone: Digest)

  datatype Outcome = Committed | RolledBack
  datatype Action = Apply | Recovery

  datatype EventBody = EventBody(
    proposal: string, action: Action, outcome: Outcome, ops: seq<AuditOp>, prev: Revision)
  datatype Event = Event(body: EventBody, hash: Revision)

  datatype IntentFile = Absent | Torn | Published(intent: Intent)

  datatype State = State(
    files: Files,
    ledger: seq<Event>,
    intent: IntentFile,
    staged: seq<Option<Digest>>,
    backup: seq<Option<Digest>>)

  // ---------------------------------------------------------------- ledger

  function Head(ledger: seq<Event>): Revision {
    if |ledger| == 0 then ZERO_REVISION else ledger[|ledger| - 1].hash
  }

  predicate Recorded(ledger: seq<Event>, proposal: string) {
    exists k :: 0 <= k < |ledger| && ledger[k].body.proposal == proposal
  }

  function AuditOf(t: Target): AuditOp {
    match t
    case Replace(p, None, post) => Create(p, post)
    case Replace(p, Some(pre), post) => Update(p, pre, post)
    case Move(s, d, h) => Rename(s, d, h)
    case Delete(p, g) => DeleteGenerated(p, g)
  }

  function AuditOps(ts: seq<Target>): seq<AuditOp> {
    seq(|ts|, i requires 0 <= i < |ts| => AuditOf(ts[i]))
  }

  function Perform(files: Files, op: AuditOp): Files {
    match op
    case Create(t, post) => files[t := post]
    case Update(t, _, post) => files[t := post]
    case Rename(s, d, h) => (files - {s})[d := h]
    case DeleteGenerated(t, _) => files - {t}
  }

  function PerformAll(files: Files, ops: seq<AuditOp>): Files {
    if |ops| == 0 then files
    else Perform(PerformAll(files, ops[..|ops| - 1]), ops[|ops| - 1])
  }

  /** What the ledger alone says the canonical files are. */
  function Replay(init: Files, ledger: seq<Event>): Files {
    if |ledger| == 0 then init
    else
      var before := Replay(init, ledger[..|ledger| - 1]);
      var body := ledger[|ledger| - 1].body;
      if body.outcome == Committed then PerformAll(before, body.ops) else before
  }

  // ----------------------------------------------------------------- steps

  datatype Step =
    | TearIntent
    | Publish(intent: Intent)
    | ApplyTarget(i: nat)
    | RebuildStage(i: nat)
    | RestoreTarget(i: nat)
    | Append(event: Event)
    | Finalize

  predicate Pending(s: State) {
    s.intent.Published? && |s.staged| == |s.backup| == |s.intent.intent.targets|
  }

  function StateOf(s: State, i: nat): TargetState
    requires Pending(s) && i < |s.staged|
  {
    Snapshot(s.files, s.staged[i], s.backup[i], s.intent.intent.targets[i])
  }

  function StatesOf(s: State): seq<TargetState>
    requires Pending(s)
  {
    seq(|s.staged|, i requires 0 <= i < |s.staged| => StateOf(s, i))
  }

  function Inspect(s: State): RecoveryState {
    if s.intent.Absent? then Clean
    else if !Pending(s) then InvalidIntent
    else Classify(StatesOf(s))
  }

  function StagesOf(ts: seq<Target>): seq<Option<Digest>> {
    seq(|ts|, i requires 0 <= i < |ts| => StageOf(ts[i]))
  }

  function BackupsOf(ts: seq<Target>): seq<Option<Digest>> {
    seq(|ts|, i requires 0 <= i < |ts| => BackupOf(ts[i]))
  }

  ghost predicate AppliedBefore(s: State, i: nat)
    requires Pending(s) && i <= |s.staged|
  {
    forall j | 0 <= j < i :: StateOf(s, j) == PostimagePresent
  }

  ghost predicate CanPublish(s: State, rec: Intent) {
    && s.intent.Absent? && !Recorded(s.ledger, rec.id)
    && WellFormed(rec.targets) && AllPre(s.files, rec.targets)
  }

  ghost predicate Next(s: State, step: Step, t: State) {
    match step
    case TearIntent =>
      s.intent.Absent? && t == s.(intent := Torn)
    case Publish(rec) =>
      && CanPublish(s, rec)
      && t == s.(intent := Published(rec),
                 staged := StagesOf(rec.targets),
                 backup := BackupsOf(rec.targets))
    case ApplyTarget(i) =>
      && Pending(s) && i < |s.staged| && !Recorded(s.ledger, s.intent.intent.id)
      && StateOf(s, i) == StagedAvailable
      && AppliedBefore(s, i)
      && t == s.(files := PutPost(s.files, s.intent.intent.targets[i]),
                 staged := s.staged[i := None])
    case RebuildStage(i) =>
      && Pending(s) && i < |s.staged| && !Recorded(s.ledger, s.intent.intent.id)
      && StateOf(s, i) == PostimagePresent && s.intent.intent.targets[i].Replace?
      && t == s.(staged := s.staged[i := Some(s.intent.intent.targets[i].post)])
    case RestoreTarget(i) =>
      && Pending(s) && i < |s.staged| && !Recorded(s.ledger, s.intent.intent.id)
      && StateOf(s, i) == PostimagePresent
      && (s.intent.intent.targets[i].Replace? ==> s.staged[i] == Some(s.intent.intent.targets[i].post))
      && t == s.(files := PutPre(s.files, s.intent.intent.targets[i]))
    case Append(e) =>
      && Pending(s) && !Recorded(s.ledger, s.intent.intent.id)
      && e.body.proposal == s.intent.intent.id && e.body.prev == Head(s.ledger)
      && e.body.ops == AuditOps(s.intent.intent.targets)
      && (e.body.outcome == Committed ==> AllPost(s.files, s.intent.intent.targets))
      && (e.body.outcome == RolledBack ==> Restored(s))
      && t == s.(ledger := s.ledger + [e])
    case Finalize =>
      && Pending(s) && |s.ledger| > 0 && s.ledger[|s.ledger| - 1].body.proposal == s.intent.intent.id
      && (if s.ledger[|s.ledger| - 1].body.outcome == Committed
          then AllPost(s.files, s.intent.intent.targets) else Restored(s))
      && t == s.(intent := Absent, staged := [], backup := [])
  }

  /** Every preimage is back and every staged postimage is available again. */
  ghost predicate Restored(s: State)
    requires Pending(s)
  {
    && AllPre(s.files, s.intent.intent.targets)
    && forall i | 0 <= i < |s.staged| :: s.intent.intent.targets[i].Replace? ==>
        s.staged[i] == Some(s.intent.intent.targets[i].post)
  }

  ghost predicate Moves(s: State, t: State) {
    exists step :: Next(s, step, t)
  }

  ghost predicate Link(run: seq<State>, k: nat)
    requires k < |run| - 1
  {
    Moves(run[k], run[k + 1])
  }

  ghost predicate IsRun(run: seq<State>) {
    |run| > 0 && forall k | 0 <= k < |run| - 1 :: Link(run, k)
  }

  ghost predicate Connects(run: seq<State>, s: State, t: State) {
    IsRun(run) && run[0] == s && run[|run| - 1] == t
  }

  ghost predicate Reaches(s: State, t: State) {
    exists run: seq<State> :: Connects(run, s, t)
  }

  lemma ReachesItself(s: State)
    ensures Reaches(s, s)
  {
    assert Connects([s], s, s);
  }

  lemma ReachesOneMore(s: State, t: State, step: Step, u: State)
    requires Reaches(s, t) && Next(t, step, u)
    ensures Reaches(s, u)
  {
    var run: seq<State> :| Connects(run, s, t);
    var longer := run + [u];
    forall k | 0 <= k < |longer| - 1 ensures Link(longer, k) {
      if k < |run| - 1 {
        assert Link(run, k);
      } else {
        assert Next(longer[k], step, longer[k + 1]);
      }
    }
    assert Connects(longer, s, u);
  }

  // ------------------------------------------------------------- invariant

  ghost predicate LinkedAt(ledger: seq<Event>, k: nat)
    requires k < |ledger|
  {
    && ledger[k].body.prev == Head(ledger[..k])
    && !Recorded(ledger[..k], ledger[k].body.proposal)
  }

  /** Every event extends the head before it and reuses no earlier proposal. */
  ghost predicate Chained(ledger: seq<Event>) {
    forall k | 0 <= k < |ledger| :: LinkedAt(ledger, k)
  }

  /** The recovery assets are never worse than the files they have to restore or complete. */
  ghost predicate Assets(s: State)
    requires Pending(s)
  {
    forall i | 0 <= i < |s.staged| ::
      && s.backup[i] == BackupOf(s.intent.intent.targets[i])
      && (s.intent.intent.targets[i].Replace? && !IsPost(s.files, s.intent.intent.targets[i])
          ==> s.staged[i] == Some(s.intent.intent.targets[i].post))
  }

  ghost predicate Inv(init: Files, s: State) {
    && Chained(s.ledger)
    && (!s.intent.Published? ==> s.files == Replay(init, s.ledger))
    && (s.intent.Published? ==>
          && Pending(s) && WellFormed(s.intent.intent.targets) && Assets(s)
          && if Recorded(s.ledger, s.intent.intent.id) then Decided(init, s)
             else Between(Replay(init, s.ledger), s.files, s.intent.intent.targets))
  }

  /** The intent already has its event, which is the newest one and tells how it ended. */
  ghost predicate Decided(init: Files, s: State)
    requires Pending(s)
  {
    && |s.ledger| > 0
    && var last := s.ledger[|s.ledger| - 1].body;
    && last.proposal == s.intent.intent.id && last.ops == AuditOps(s.intent.intent.targets)
    && s.files == Replay(init, s.ledger)
    && if last.outcome == Committed then AllPost(s.files, s.intent.intent.targets) else Restored(s)
  }

  /** Performing the audited operations of well-formed targets puts each at its postimage. */
  lemma {:induction false} PerformedPointwise(base: Files, ts: seq<Target>, n: nat)
    requires WellFormed(ts) && n <= |ts|
    ensures forall i | 0 <= i < n :: IsPost(PerformAll(base, AuditOps(ts)[..n]), ts[i])
    ensures forall p: Path :: (forall i | 0 <= i < n :: p !in Paths(ts[i]))
              ==> At(PerformAll(base, AuditOps(ts)[..n]), p) == At(base, p)
    decreases n
  {
    var ops := AuditOps(ts)[..n];
    if n > 0 {
      PerformedPointwise(base, ts, n - 1);
      assert ops[..n - 1] == AuditOps(ts)[..n - 1];
      var prior := PerformAll(base, ops[..n - 1]);
      assert PerformAll(base, ops) == Perform(prior, AuditOf(ts[n - 1]));
      assert Perform(prior, AuditOf(ts[n - 1])) == PutPost(prior, ts[n - 1]);
      assert ts[n - 1].Move? ==> ts[n - 1].src != ts[n - 1].dst;
      forall i | 0 <= i < n ensures IsPost(PutPost(prior, ts[n - 1]), ts[i]) {
        if i < n - 1 {
          assert Paths(ts[i]) !! Paths(ts[n - 1]);
        }
      }
    }
  }

  lemma AllPostIsPerformed(base: Files, files: Files, ts: seq<Target>)
    requires WellFormed(ts) && Between(base, files, ts) && AllPost(files, ts)
    ensures files == PerformAll(base, AuditOps(ts))
  {
    PerformedPointwise(base, ts, |ts|);
    assert AuditOps(ts)[..|ts|] == AuditOps(ts);
    var done := PerformAll(base, AuditOps(ts));
    forall p: Path ensures At(files, p) == At(done, p) {
      if Touched(ts, p) {
        var i :| 0 <= i < |ts| && p in Paths(ts[i]);
        assert IsPost(files, ts[i]) && IsPost(done, ts[i]);
      }
    }
    SameFiles(files, done);
  }

  lemma PublishKeepsInv(init: Files, s: State, rec: Intent, t: State)
    requires Inv(init, s) && Next(s, Publish(rec), t)
    ensures Inv(init, t)
  {
  }

  lemma ImageKeepsInv(init: Files, s: State, step: Step, t: State)
    requires Inv(init, s) && (step.ApplyTarget? || step.RestoreTarget? || step.RebuildStage?) && Next(s, step, t)
    ensures Inv(init, t)
  {
    var ts := s.intent.intent.targets;
    if !step.RebuildStage? {
      MoveOneTarget(Replay(init, s.ledger), s.files, ts, step.i, t.files);
    }
  }

  lemma AppendKeepsInv(init: Files, s: State, e: Event, t: State)
    requires Inv(init, s) && Next(s, Append(e), t)
    ensures Inv(init, t)
  {
    var ts := s.intent.intent.targets;
    assert t.ledger[..|s.ledger|] == s.ledger;
    forall k | 0 <= k < |t.ledger| ensures LinkedAt(t.ledger, k) {
      assert t.ledger[..k] == s.ledger[..k];
      assert k < |s.ledger| ==> LinkedAt(s.ledger, k);
    }
    assert t.ledger[|s.ledger|].body.proposal == t.intent.intent.id;
    if e.body.outcome == Committed {
      AllPostIsPerformed(Replay(init, s.ledger), s.files, ts);
    } else {
      AllPreIsBase(Replay(init, s.ledger), s.files, ts);
    }
  }

  lemma StepKeepsInv(init: Files, s: State, step: Step, t: State)
    requires Inv(init, s) && Next(s, step, t)
    ensures Inv(init, t)
  {
    match step
    case Publish(rec) => PublishKeepsInv(init, s, rec, t);
    case Append(e) => AppendKeepsInv(init, s, e, t);
    case TearIntent =>
    case Finalize =>
      assert Recorded(s.ledger, s.intent.intent.id);
    case _ => ImageKeepsInv(init, s, step, t);
  }

  lemma MoveKeepsInv(init: Files, s: State, t: State)
    requires Inv(init, s) && Moves(s, t)
    ensures Inv(init, t)
  {
    var step :| Next(s, step, t);
    StepKeepsInv(init, s, step, t);
  }

  lemma {:induction false} RunKeepsInv(init: Files, run: seq<State>)
    requires IsRun(run) && Inv(init, run[0])
    ensures Inv(init, run[|run| - 1])
    decreases |run|
  {
    if |run| > 1 {
      var shorter := run[..|run| - 1];
      forall k | 0 <= k < |shorter| - 1 ensures Link(shorter, k) {
        assert Link(run, k);
      }
      RunKeepsInv(init, shorter);
      var k := |run| - 2;
      assert Link(run, k);
      MoveKeepsInv(init, run[k], run[k + 1]);
    }
  }

  lemma ReachableInv(init: Files, s: State, t: State)
    requires Inv(init, s) && Reaches(s, t)
    ensures Inv(init, t)
  {
    var run: seq<State> :| Connects(run, s, t);
    RunKeepsInv(init, run);
  }

  function Start(init: Files): State {
    State(init, [], Absent, [], [])
  }

  /** MAIN: a clean stager means the ledger's committed events replay to exactly the files. */
  lemma CleanMeansReplayed(init: Files, s: State)
    requires Reaches(Start(init), s)
    ensures Inspect(s) == Clean ==> s.files == Replay(init, s.ledger)
    ensures forall k | 0 <= k < |s.ledger| ::
              s.ledger[k].body.prev == Head(s.ledger[..k]) && !Recorded(s.ledger[..k], s.ledger[k].body.proposal)
  {
    ReachableInv(init, Start(init), s);
    forall k | 0 <= k < |s.ledger|
      ensures s.ledger[k].body.prev == Head(s.ledger[..k]) && !Recorded(s.ledger[..k], s.ledger[k].body.proposal)
    {
      assert LinkedAt(s.ledger, k);
    }
  }
}
