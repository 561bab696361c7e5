/**
 What becomes of the files over whole runs, whatever paths are registered: exactly when no bytes
 are ever lost, and exactly when every artifact is wholly in one place in every clean state.
 */
module LifecycleRuns {
  import opened Options
  import opened Staging
  import opened Lifecycle

  // ------------------------------------------------------------ bytes are kept

  ghost predicate AllKept(files: Files, ms: seq<Manifest>) {
    forall k | 0 <= k < |ms| :: BytesKept(files, ms[k])
  }

  /** The move of one file takes the registered path of an item that has no other copy, nor gets one there. */
  ghost predicate LastCopy(files: Files, t: Target, item: Item)
    requires t.Move?
  {
    && item.source == t.src
    && !(item.preserved != item.source && At(files, item.preserved) == Some(item.hash))
    && !(item.preserved == t.dst && item.hash == t.digest)
  }

  ghost predicate HoldsLastCopy(files: Files, t: Target, m: Manifest)
    requires t.Move?
  {
    exists j :: 0 <= j < |m.items| && LastCopy(files, t, m.items[j])
  }

  /** This step moves a file that some manifest counts on and has nowhere else. */
  ghost predicate TakesLastCopy(s: State, step: Step) {
    && step.MoveOne? && s.stager.Moving? && step.i < |s.stager.targets| && s.stager.targets[step.i].Move?
    && exists k :: 0 <= k < |s.manifests| && HoldsLastCopy(s.files, s.stager.targets[step.i], s.manifests[k])
  }

  ghost predicate KeptInv(s: State) {
    && Inv(s) && AllKept(s.files, s.manifests)
    && (s.stager.Transaction? ==> AllKept(s.files, s.stager.before) && AllKept(s.files, s.stager.after))
  }

  lemma MoveOneKeepsItem(files: Files, t: Target, item: Item)
    requires t.Move? && IsPre(files, t) && IsRaw(t.src) && !IsRaw(t.dst) && ItemKept(files, item) && IsRaw(item.source)
    requires IsRaw(item.preserved) ==> item.preserved == item.source
    ensures ItemKept(PutPost(files, t), item) <==> !LastCopy(files, t, item)
  {
    var after := PutPost(files, t);
    assert forall p: Path :: p != t.src && p != t.dst ==> At(after, p) == At(files, p);
    assert At(after, t.src) == None && At(after, t.dst) == Some(t.digest);
    assert item.source != t.dst;
    if item.preserved == t.src {
      assert item.source == item.preserved;
    }
  }

  lemma MoveOneKeepsManifest(files: Files, t: Target, m: Manifest)
    requires t.Move? && IsPre(files, t) && IsRaw(t.src) && !IsRaw(t.dst) && WellFormedManifest(m) && BytesKept(files, m)
    ensures BytesKept(PutPost(files, t), m) <==> !HoldsLastCopy(files, t, m)
  {
    forall j | 0 <= j < |m.items|
      ensures ItemKept(PutPost(files, t), m.items[j]) <==> !LastCopy(files, t, m.items[j])
    {
      assert IsRaw(m.items[j].source) && ItemKept(files, m.items[j]);
      MoveOneKeepsItem(files, t, m.items[j]);
    }
    if BytesKept(PutPost(files, t), m) {
      assert forall j | 0 <= j < |m.items| :: ItemKept(PutPost(files, t), m.items[j]);
    }
  }

  /** A published target leads from the raw zone out of it. */
  lemma TargetLeavesRaw(s: State, i: nat)
    requires Inv(s) && s.stager.Moving? && i < |s.stager.targets|
    ensures s.stager.targets[i].Move? && IsRaw(s.stager.targets[i].src) && !IsRaw(s.stager.targets[i].dst)
  {
    var m := s.manifests[s.stager.owner];
    assert WellFormedManifest(m) && s.stager.targets == Specs(m);
    assert IsRaw(m.items[i].source) && !IsRaw(m.items[i].preserved);
  }

  lemma MoveOneKeeps(s: State, i: nat, t: State)
    requires KeptInv(s) && Next(s, MoveOne(i), t)
    ensures AllKept(t.files, t.manifests) <==> !TakesLastCopy(s, MoveOne(i))
  {
    TargetLeavesRaw(s, i);
    forall k | 0 <= k < |s.manifests|
      ensures BytesKept(t.files, s.manifests[k]) <==> !HoldsLastCopy(s.files, s.stager.targets[i], s.manifests[k])
    {
      assert WellFormedManifest(s.manifests[k]);
      MoveOneKeepsManifest(s.files, s.stager.targets[i], s.manifests[k]);
    }
  }

  lemma ChangeKeepsBytes(files: Files, before: seq<Manifest>, after: seq<Manifest>)
    requires AllKept(files, before) && Changes(files, before, after)
    ensures AllKept(files, after)
  {
    if |after| == |before| + 1 {
      SettledIsKept(files, after[|before|]);
      forall k | 0 <= k < |after| ensures BytesKept(files, after[k]) {
        assert k < |before| ==> after[k] == after[..|before|][k] == before[k];
      }
    } else {
      var k :| 0 <= k < |before| && after == before[k := after[k]]
               && (Archives(files, before[k], after[k]) || Authorizes(before[k], after[k]));
      if Archives(files, before[k], after[k]) {
        ArchivesSettled(files, before[k], after[k]);
        SettledIsKept(files, after[k]);
      }
    }
  }

  lemma DropKeepsBytes(files: Files, p: Path, d: Digest, ms: seq<Manifest>)
    requires p !in files && AllKept(files, ms)
    ensures AllKept(files[p := d], ms)
  {
    forall k, j | 0 <= k < |ms| && 0 <= j < |ms[k].items| ensures ItemKept(files[p := d], ms[k].items[j]) {
      assert BytesKept(files, ms[k]) && ItemKept(files, ms[k].items[j]);
    }
    forall k | 0 <= k < |ms| ensures BytesKept(files[p := d], ms[k]) {
      assert forall j | 0 <= j < |ms[k].items| :: ItemKept(files[p := d], ms[k].items[j]);
    }
  }

  /** One step loses no bytes unless it takes a last copy, and then it does. */
  lemma StepKeepsBytes(s: State, step: Step, t: State)
    requires KeptInv(s) && Next(s, step, t)
    ensures AllKept(t.files, t.manifests) <==> !TakesLastCopy(s, step)
    ensures AllKept(t.files, t.manifests) ==> KeptInv(t)
  {
    StepKeepsInv(s, step, t);
    match step
    case MoveOne(i) => MoveOneKeeps(s, i, t);
    case Drop(p, d) => DropKeepsBytes(s.files, p, d, s.manifests);
    case Begin(after) => ChangeKeepsBytes(s.files, s.manifests, after);
    case _ =>
  }

  ghost predicate NoLastCopyTaken(states: seq<State>, steps: seq<Step>, n: nat)
    requires |states| == |steps| + 1 && n < |states|
  {
    forall l | 0 <= l < n :: !TakesLastCopy(states[l], steps[l])
  }

  ghost predicate AlwaysKept(states: seq<State>, n: nat)
    requires n < |states|
  {
    forall l | 0 <= l <= n :: AllKept(states[l].files, states[l].manifests)
  }

  lemma {:induction false} KeptAlong(files: Files, states: seq<State>, steps: seq<Step>, n: nat)
    requires IsHistory(states, steps) && states[0] == Start(files) && n < |states| && NoLastCopyTaken(states, steps, n)
    ensures KeptInv(states[n])
  {
    if n > 0 {
      KeptAlong(files, states, steps, n - 1);
      assert Advances(states, steps, n - 1);
      StepKeepsBytes(states[n - 1], steps[n - 1], states[n]);
    }
  }

  /** The first step that takes a last copy, if there is one, is where bytes are first lost. */
  lemma {:induction false} LostAlong(files: Files, states: seq<State>, steps: seq<Step>, n: nat)
    requires IsHistory(states, steps) && states[0] == Start(files) && n < |states| && !NoLastCopyTaken(states, steps, n)
    ensures !AlwaysKept(states, n)
  {
    if NoLastCopyTaken(states, steps, n - 1) {
      KeptAlong(files, states, steps, n - 1);
      assert Advances(states, steps, n - 1);
      assert TakesLastCopy(states[n - 1], steps[n - 1]);
      StepKeepsBytes(states[n - 1], steps[n - 1], states[n]);
    } else {
      LostAlong(files, states, steps, n - 1);
    }
  }

  /**
   MAIN: over every run, the bytes of every artifact and sidecar are at the registered or the
   preserved path at all times exactly when no file move ever takes the last copy of an item.
   */
  lemma BytesKeptExactly(files: Files, states: seq<State>, steps: seq<Step>, n: nat)
    requires IsHistory(states, steps) && states[0] == Start(files) && n < |states|
    ensures AlwaysKept(states, n) <==> NoLastCopyTaken(states, steps, n)
  {
    if NoLastCopyTaken(states, steps, n) {
      forall l | 0 <= l <= n ensures AllKept(states[l].files, states[l].manifests) {
        KeptAlong(files, states, steps, l);
      }
    } else {
      LostAlong(files, states, steps, n);
    }
  }

  // --------------------------------------------------- clean states are settled

  /** A move is closed although an artifact that has not arrived had registered one of the moved paths. */
  ghost predicate ClosesOverWaiting(s: State, step: Step) {
    && step.Finish? && s.stager.Moving? && s.stager.owner < |s.manifests|
    && exists k :: 0 <= k < |s.manifests| && k != s.stager.owner
                   && !Apart(s.manifests[s.stager.owner], s.manifests[k]) && !Arrived(s.files, s.manifests[k])
  }

  /** While a move is under way only the artifacts that share no path with it are known to be settled. */
  ghost predicate SettledInv(s: State) {
    && Inv(s)
    && (if s.stager.Moving? then
          forall k | 0 <= k < |s.manifests| && k != s.stager.owner
              && Apart(s.manifests[s.stager.owner], s.manifests[k]) ::
            Settled(s.files, s.manifests[k])
        else AllSettled(s.files, s.manifests))
    && (s.stager.Transaction? ==> AllSettled(s.files, s.stager.before) && AllSettled(s.files, s.stager.after))
  }

  lemma ChangeKeepsSettled(files: Files, before: seq<Manifest>, after: seq<Manifest>)
    requires AllSettled(files, before) && Changes(files, before, after)
    ensures AllSettled(files, after)
  {
    if |after| == |before| + 1 {
      forall k | 0 <= k < |after| ensures Settled(files, after[k]) {
        assert k < |before| ==> after[k] == after[..|before|][k] == before[k];
      }
    } else {
      var k :| 0 <= k < |before| && after == before[k := after[k]]
               && (Archives(files, before[k], after[k]) || Authorizes(before[k], after[k]));
      ArchivesSettled(files, before[k], after[k]);
    }
  }

  lemma DropKeepsSettled(files: Files, p: Path, d: Digest, m: Manifest)
    requires p !in files && Settled(files, m)
    ensures Settled(files[p := d], m)
  {
    assert forall q: Path :: q in files ==> At(files[p := d], q) == At(files, q);
    if Waiting(files, m) {
      assert forall i | 0 <= i < |m.items| :: m.items[i].source in files;
    } else {
      assert forall i | 0 <= i < |m.items| :: m.items[i].preserved in files;
    }
  }

  lemma DropKeepsSettledInv(s: State, p: Path, d: Digest, t: State)
    requires SettledInv(s) && Next(s, Drop(p, d), t)
    ensures SettledInv(t)
  {
    StepKeepsInv(s, Drop(p, d), t);
    forall k | 0 <= k < |t.manifests| ensures Settled(t.files, t.manifests[k]) {
      DropKeepsSettled(s.files, p, d, s.manifests[k]);
    }
  }

  lemma MoveOneKeepsSettledInv(s: State, i: nat, t: State)
    requires SettledInv(s) && Next(s, MoveOne(i), t)
    ensures SettledInv(t)
  {
    StepKeepsInv(s, MoveOne(i), t);
    var m := s.manifests[s.stager.owner];
    assert WellFormedManifest(m);
    forall k | 0 <= k < |t.manifests| && k != t.stager.owner && Apart(m, t.manifests[k])
      ensures Settled(t.files, t.manifests[k])
    {
      assert WellFormedManifest(s.manifests[k]);
      UndisturbedByMove(s.files, t.files, m, i, s.manifests[k]);
    }
  }

  /** An artifact that lost a registered path to the closed move is settled exactly when it has arrived. */
  lemma SharerSettledExactly(s: State, k: nat)
    requires Inv(s) && s.stager.Moving? && AllPost(s.files, s.stager.targets)
    requires k < |s.manifests| && !Apart(s.manifests[s.stager.owner], s.manifests[k])
    ensures Settled(s.files, s.manifests[k]) <==> Arrived(s.files, s.manifests[k])
  {
    var m, other := s.manifests[s.stager.owner], s.manifests[k];
    var i, j :| 0 <= i < |m.items| && 0 <= j < |other.items| && m.items[i].source == other.items[j].source;
    assert IsPost(s.files, s.stager.targets[i]);
    assert At(s.files, other.items[j].source) == None;
  }

  lemma OwnerArrives(s: State)
    requires Inv(s) && s.stager.Moving? && AllPost(s.files, s.stager.targets)
    ensures Arrived(s.files, s.manifests[s.stager.owner])
  {
    var m := s.manifests[s.stager.owner];
    forall i | 0 <= i < |m.items| ensures At(s.files, m.items[i].preserved) == Some(m.items[i].hash) {
      assert IsPost(s.files, s.stager.targets[i]);
    }
  }

  lemma FinishSettles(s: State, t: State)
    requires SettledInv(s) && Next(s, Finish, t)
    ensures AllSettled(t.files, t.manifests) <==> !ClosesOverWaiting(s, Finish)
  {
    OwnerArrives(s);
    forall k | 0 <= k < |s.manifests| && k != s.stager.owner && !Apart(s.manifests[s.stager.owner], s.manifests[k])
      ensures Settled(s.files, s.manifests[k]) <==> Arrived(s.files, s.manifests[k])
    {
      SharerSettledExactly(s, k);
    }
  }

  lemma StepKeepsSettled(s: State, step: Step, t: State)
    requires SettledInv(s) && Next(s, step, t) && !ClosesOverWaiting(s, step)
    ensures SettledInv(t)
  {
    match step
    case Drop(p, d) => DropKeepsSettledInv(s, p, d, t);
    case MoveOne(i) => MoveOneKeepsSettledInv(s, i, t);
    case Finish =>
      StepKeepsInv(s, step, t);
      FinishSettles(s, t);
    case Begin(after) =>
      StepKeepsInv(s, step, t);
      ChangeKeepsSettled(s.files, s.manifests, after);
    case _ => StepKeepsInv(s, step, t);
  }

  ghost predicate NoneClosedOver(states: seq<State>, steps: seq<Step>, n: nat)
    requires |states| == |steps| + 1 && n < |states|
  {
    forall l | 0 <= l < n :: !ClosesOverWaiting(states[l], steps[l])
  }

  /** Whenever the stager is clean, every artifact is wholly at its registered or its preserved paths. */
  ghost predicate CleanIsSettled(states: seq<State>, n: nat)
    requires n < |states|
  {
    forall l | 0 <= l <= n && states[l].stager.Idle? :: AllSettled(states[l].files, states[l].manifests)
  }

  lemma {:induction false} SettledAlong(files: Files, states: seq<State>, steps: seq<Step>, n: nat)
    requires IsHistory(states, steps) && states[0] == Start(files) && n < |states| && NoneClosedOver(states, steps, n)
    ensures SettledInv(states[n])
  {
    if n > 0 {
      SettledAlong(files, states, steps, n - 1);
      assert Advances(states, steps, n - 1);
      StepKeepsSettled(states[n - 1], steps[n - 1], states[n]);
    }
  }

  lemma {:induction false} UnsettledAlong(files: Files, states: seq<State>, steps: seq<Step>, n: nat)
    requires IsHistory(states, steps) && states[0] == Start(files) && n < |states| && !NoneClosedOver(states, steps, n)
    ensures !CleanIsSettled(states, n)
  {
    if NoneClosedOver(states, steps, n - 1) {
      SettledAlong(files, states, steps, n - 1);
      assert Advances(states, steps, n - 1);
      assert ClosesOverWaiting(states[n - 1], steps[n - 1]);
      FinishSettles(states[n - 1], states[n]);
    } else {
      UnsettledAlong(files, states, steps, n - 1);
    }
  }

  /**
   MAIN: over every run, every clean state has each artifact's moves all pending or all applied
   exactly when no move is closed over a path that another artifact still waited at.
   */
  lemma CleanIsSettledExactly(files: Files, states: seq<State>, steps: seq<Step>, n: nat)
    requires IsHistory(states, steps) && states[0] == Start(files) && n < |states|
    ensures CleanIsSettled(states, n) <==> NoneClosedOver(states, steps, n)
  {
    if NoneClosedOver(states, steps, n) {
      forall l | 0 <= l <= n && states[l].stager.Idle? ensures AllSettled(states[l].files, states[l].manifests) {
        SettledAlong(files, states, steps, l);
      }
    } else {
      UnsettledAlong(files, states, steps, n);
    }
  }

  // ------------------------------------------- the same, before anything moves

  /** Every item of `other` is at its destination already, or the move of `m` puts the same bytes there. */
  ghost predicate WillArrive(files: Files, m: Manifest, other: Manifest) {
    Relocated(other) && forall j | 0 <= j < |other.items| :: ItemWillArrive(files, m, other.items[j])
  }

  ghost predicate ItemWillArrive(files: Files, m: Manifest, item: Item) {
    || At(files, item.preserved) == Some(item.hash)
    || exists i :: 0 <= i < |m.items| && m.items[i].preserved == item.preserved && m.items[i].hash == item.hash
  }

  /** A move is published over a path at which an artifact waits that will not have arrived by then. */
  ghost predicate PublishesOverWaiting(s: State, step: Step) {
    && step.Publish? && step.owner < |s.manifests|
    && exists k :: 0 <= k < |s.manifests| && k != step.owner && !Apart(s.manifests[step.owner], s.manifests[k])
                   && !WillArrive(s.files, s.manifests[step.owner], s.manifests[k])
  }

  /** The move published at `p` is closed at `f`. */
  ghost predicate Completes(steps: seq<Step>, p: nat, f: nat) {
    p < f < |steps| && steps[p].Publish? && steps[f].Finish? && forall q | p < q < f :: steps[q].MoveOne?
  }

  /** While a move is under way nothing but its own paths changes. */
  ghost predicate OnlyMoves(s: State, t: State, k: nat)
    requires k < |s.manifests|
  {
    && t.manifests == s.manifests && t.stager == Moving(k, Specs(s.manifests[k]))
    && forall x: Path | (forall i | 0 <= i < |s.manifests[k].items| ::
                           x != s.manifests[k].items[i].source && x != s.manifests[k].items[i].preserved) ::
         At(t.files, x) == At(s.files, x)
  }

  lemma {:induction false} MovingOn(states: seq<State>, steps: seq<Step>, p: nat, q: nat)
    requires IsHistory(states, steps) && p < q < |states| && steps[p].Publish?
    requires forall l | p < l < q :: steps[l].MoveOne?
    ensures steps[p].owner < |states[p].manifests| && OnlyMoves(states[p], states[q], steps[p].owner)
    decreases q
  {
    assert Advances(states, steps, p) && Advances(states, steps, q - 1);
    if q > p + 1 {
      MovingOn(states, steps, p, q - 1);
      MovedOneMore(states[p], states[q - 1], steps[q - 1], states[q], steps[p].owner);
    }
  }

  lemma MovedOneMore(s: State, t: State, step: Step, u: State, k: nat)
    requires k < |s.manifests| && OnlyMoves(s, t, k) && Next(t, step, u) && step.MoveOne?
    ensures OnlyMoves(s, u, k)
  {
    var m := s.manifests[k];
    assert Specs(m)[step.i] == Move(m.items[step.i].source, m.items[step.i].preserved, m.items[step.i].hash);
    assert forall x: Path | x != m.items[step.i].source && x != m.items[step.i].preserved ::
        At(u.files, x) == At(t.files, x);
  }

  lemma ItemArrivesExactly(s: State, t: State, k: nat, item: Item)
    requires k < |s.manifests| && WellFormedManifest(s.manifests[k]) && Relocated(s.manifests[k])
    requires !IsRaw(item.preserved)
    requires AllPre(s.files, Specs(s.manifests[k])) && OnlyMoves(s, t, k) && AllPost(t.files, t.stager.targets)
    ensures At(t.files, item.preserved) == Some(item.hash) <==> ItemWillArrive(s.files, s.manifests[k], item)
  {
    var m := s.manifests[k];
    if i :| 0 <= i < |m.items| && m.items[i].preserved == item.preserved {
      assert IsPre(s.files, Specs(m)[i]) && IsPost(t.files, t.stager.targets[i]);
      OneDestination(m, i, item);
    } else {
      assert forall i | 0 <= i < |m.items| :: IsRaw(m.items[i].source);
    }
  }

  lemma ArrivesExactly(s: State, t: State, k: nat, j: nat)
    requires RegistryInv(s) && k < |s.manifests| && j < |s.manifests| && Relocated(s.manifests[k])
    requires AllPre(s.files, Specs(s.manifests[k])) && OnlyMoves(s, t, k) && AllPost(t.files, t.stager.targets)
    ensures Arrived(t.files, s.manifests[j]) <==> WillArrive(s.files, s.manifests[k], s.manifests[j])
  {
    var other := s.manifests[j];
    assert WellFormedManifest(other) && WellFormedManifest(s.manifests[k]);
    if Relocated(other) {
      forall i | 0 <= i < |other.items|
        ensures At(t.files, other.items[i].preserved) == Some(other.items[i].hash) <==>
                  ItemWillArrive(s.files, s.manifests[k], other.items[i])
      {
        ItemArrivesExactly(s, t, k, other.items[i]);
      }
    }
  }

  /** What closing a move finds could be seen when it was published. */
  lemma ForeseenAtPublication(states: seq<State>, steps: seq<Step>, p: nat, f: nat)
    requires IsHistory(states, steps) && RegistryInv(states[0]) && Completes(steps, p, f)
    ensures ClosesOverWaiting(states[f], steps[f]) <==> PublishesOverWaiting(states[p], steps[p])
  {
    var s, t, k := states[p], states[f], steps[p].owner;
    RegistryAlong(states, steps, p);
    MovingOn(states, steps, p, f);
    assert Advances(states, steps, p) && Advances(states, steps, f);
    forall j | 0 <= j < |s.manifests|
      ensures Arrived(t.files, s.manifests[j]) <==> WillArrive(s.files, s.manifests[k], s.manifests[j])
    {
      ArrivesExactly(s, t, k, j);
    }
  }

  /** Every move under way has been published, and nothing else happened since. */
  lemma {:induction false} PublicationOf(files: Files, states: seq<State>, steps: seq<Step>, q: nat) returns (p: nat)
    requires IsHistory(states, steps) && states[0] == Start(files) && q < |states| && states[q].stager.Moving?
    ensures p < q && steps[p].Publish? && forall l | p < l < q :: steps[l].MoveOne?
  {
    assert Advances(states, steps, q - 1);
    if steps[q - 1].MoveOne? {
      p := PublicationOf(files, states, steps, q - 1);
    } else {
      p := q - 1;
    }
  }

  ghost predicate NonePublishedOver(states: seq<State>, steps: seq<Step>, n: nat)
    requires |states| == |steps| + 1 && n < |states|
  {
    forall p, f | 0 <= p < f < n && Completes(steps, p, f) :: !PublishesOverWaiting(states[p], steps[p])
  }

  /**
   MAIN: over every run, every clean state has each artifact's moves all pending or all applied exactly
   when no completed move was published over a path at which another artifact waits that neither is
   nor gets to its destination.
   */
  lemma SettledByPublication(files: Files, states: seq<State>, steps: seq<Step>, n: nat)
    requires IsHistory(states, steps) && states[0] == Start(files) && n < |states|
    ensures CleanIsSettled(states, n) <==> NonePublishedOver(states, steps, n)
  {
    CleanIsSettledExactly(files, states, steps, n);
    forall p, f | 0 <= p < f < n && Completes(steps, p, f)
      ensures ClosesOverWaiting(states[f], steps[f]) <==> PublishesOverWaiting(states[p], steps[p])
    {
      ForeseenAtPublication(states, steps, p, f);
    }
    forall f | 0 <= f < n && ClosesOverWaiting(states[f], steps[f])
      ensures exists p :: 0 <= p < f && Completes(steps, p, f)
    {
      var p := PublicationOf(files, states, steps, f);
      assert Completes(steps, p, f);
    }
  }

  // ------------------------------------------------ what stays in the registry

  /** In every clean state that can follow, the artifact is listed. */
  ghost predicate StaysRegistered(s: State, k: nat)
    requires k < |s.manifests|
  {
    forall t | Reaches(s, t) && t.stager.Idle? :: HasId(t.manifests, s.manifests[k].id)
  }

  /** In every clean state that can follow, the manifest is what it is now or what legitimately comes of it. */
  ghost predicate StaysAsItIs(s: State, k: nat)
    requires k < |s.manifests|
  {
    forall t | Reaches(s, t) && t.stager.Idle? :: k < |t.manifests| && Follows(s.manifests[k], t.manifests[k])
  }

  /** A pending transaction whose event is not recorded adds this manifest. */
  predicate Uncommitted(s: State, k: nat) {
    s.stager.Transaction? && !s.stager.recorded && k >= |s.stager.before|
  }

  /** A pending transaction whose event is not recorded wrote this manifest. */
  predicate Revocable(s: State, k: nat) {
    && s.stager.Transaction? && !s.stager.recorded && k < |s.manifests|
    && !(k < |s.stager.before| && s.stager.before[k] == s.manifests[k])
  }

  /** An unrecorded transaction can be undone down to a clean state. */
  lemma UndoneReaches(s: State)
    requires s.stager.Transaction? && !s.stager.recorded
    ensures Reaches(s, State(s.files, s.stager.before, Idle))
  {
    var undone := s.(manifests := s.stager.before);
    var rolledBack := undone.(stager := RolledBack(s.stager.before, s.stager.after));
    ReachesItself(s);
    ReachesOneMore(s, s, Undo, undone);
    ReachesOneMore(s, undone, Discard, rolledBack);
    ReachesOneMore(s, rolledBack, Sweep, State(s.files, s.stager.before, Idle));
  }

  /** What is durable now is followed up in every clean state that can come. */
  lemma DurableIsFollowed(s: State, k: nat, t: State)
    requires RegistryInv(s) && k < |Durable(s)| && Reaches(s, t) && t.stager.Idle?
    ensures k < |t.manifests| && Follows(Durable(s)[k], t.manifests[k])
  {
    var states: seq<State>, steps: seq<Step> :| Leads(states, steps, s, t);
    GrowsAlong(states, steps, 0, |states| - 1);
    assert Durable(t) == t.manifests;
  }

  lemma AddedIsNotDurable(s: State, k: nat)
    requires RegistryInv(s) && k < |s.manifests| && Uncommitted(s, k)
    ensures !HasId(s.stager.before, s.manifests[k].id)
  {
    forall j | 0 <= j < |s.stager.before| ensures s.stager.before[j].id != s.manifests[k].id {
      assert Follows(s.stager.before[j], s.stager.after[j]);
      assert s.manifests[j].id != s.manifests[k].id;
    }
  }

  /**
   MAIN: an artifact is listed in every clean state that can follow exactly when no unrecorded
   transaction has added it.
   */
  lemma StaysRegisteredExactly(s: State, k: nat)
    requires RegistryInv(s) && k < |s.manifests|
    ensures StaysRegistered(s, k) <==> !Uncommitted(s, k)
  {
    if Uncommitted(s, k) {
      UndoneReaches(s);
      AddedIsNotDurable(s, k);
      var t := State(s.files, s.stager.before, Idle);
      assert Reaches(s, t) && t.stager.Idle? && !HasId(t.manifests, s.manifests[k].id);
    } else {
      DurableHasId(s, k);
      forall t | Reaches(s, t) && t.stager.Idle? ensures HasId(t.manifests, s.manifests[k].id) {
        DurableIsFollowed(s, k, t);
        assert t.manifests[k].id == s.manifests[k].id;
      }
    }
  }

  lemma DurableHasId(s: State, k: nat)
    requires RegistryInv(s) && k < |s.manifests| && !Uncommitted(s, k)
    ensures k < |Durable(s)| && Durable(s)[k].id == s.manifests[k].id
  {
    if s.stager.Transaction? && !s.stager.recorded {
      assert Follows(s.stager.before[k], s.stager.after[k]);
    }
  }

  /**
   MAIN: a manifest is never taken back in any clean state that can follow exactly when no unrecorded
   transaction has written it.
   */
  lemma StaysAsItIsExactly(s: State, k: nat)
    requires RegistryInv(s) && k < |s.manifests|
    ensures StaysAsItIs(s, k) <==> !Revocable(s, k)
  {
    if Revocable(s, k) {
      UndoneReaches(s);
      var t := State(s.files, s.stager.before, Idle);
      assert Reaches(s, t) && t.stager.Idle?;
      if k < |s.stager.before| {
        assert Follows(s.stager.before[k], s.stager.after[k]);
        assert !Follows(s.manifests[k], t.manifests[k]);
      }
    } else {
      assert k < |Durable(s)| && Durable(s)[k] == s.manifests[k];
      forall t | Reaches(s, t) && t.stager.Idle? ensures k < |t.manifests| && Follows(s.manifests[k], t.manifests[k]) {
        DurableIsFollowed(s, k, t);
      }
    }
  }
}
