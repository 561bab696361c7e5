/**
 The life of registered artifacts as a step system over the evidence files, the manifests and
 the stager. A manifest transaction and the physical move that follows it are separate, each
 interruptible between any two durable steps; a crash is the absence of a further step.
 Manifests are kept in creation order.
 */
module Lifecycle {
  import opened Options
  import opened Staging

  datatype Status = Pending | Quarantined | Processed | Duplicate

  /** The original (first) or a sidecar: where it was registered, where it is preserved, and its bytes. */
  datatype Item = Item(source: Path, preserved: Path, hash: Digest)

  datatype Manifest = Manifest(id: string, status: Status, items: seq<Item>, duplicateOf: Option<string>,
      authorized: bool)

  datatype Stager =
    | Idle
    | TornIntent
    | Transaction(before: seq<Manifest>, after: seq<Manifest>, recorded: bool)
    | RolledBack(before: seq<Manifest>, after: seq<Manifest>)
    | Moving(owner: nat, targets: seq<Target>)

  datatype State = State(files: Files, manifests: seq<Manifest>, stager: Stager)

  predicate IsRaw(p: Path) {
    "00_inbox/raw/" <= p
  }

  /** Quarantined and processed artifacts are preserved somewhere else than where they were registered. */
  predicate Relocated(m: Manifest) {
    m.status == Quarantined || m.status == Processed
  }

  predicate Live(m: Manifest) {
    m.status == Pending || m.status == Processed
  }

  ghost predicate WellFormedManifest(m: Manifest) {
    && |m.items| > 0 && '.' !in m.id
    && (forall i | 0 <= i < |m.items| :: IsRaw(m.items[i].source))
    && (forall i | 0 <= i < |m.items| ::
          if Relocated(m) then !IsRaw(m.items[i].preserved) else m.items[i].preserved == m.items[i].source)
    && (forall i, j | 0 <= i < j < |m.items| ::
          m.items[i].source != m.items[j].source && m.items[i].preserved != m.items[j].preserved)
    && (m.status == Duplicate <==> m.duplicateOf.Some?)
  }

  function Hash(m: Manifest): Digest
    requires |m.items| > 0
  {
    m.items[0].hash
  }

  function Specs(m: Manifest): seq<Target> {
    seq(|m.items|, i requires 0 <= i < |m.items| => Move(m.items[i].source, m.items[i].preserved, m.items[i].hash))
  }

  ghost predicate Waiting(files: Files, m: Manifest) {
    forall i | 0 <= i < |m.items| :: At(files, m.items[i].source) == Some(m.items[i].hash)
  }

  ghost predicate Arrived(files: Files, m: Manifest) {
    Relocated(m) && forall i | 0 <= i < |m.items| :: At(files, m.items[i].preserved) == Some(m.items[i].hash)
  }

  ghost predicate Settled(files: Files, m: Manifest) {
    Waiting(files, m) || Arrived(files, m)
  }

  /** The bytes of every item are where they were registered or where they are preserved. */
  ghost predicate BytesKept(files: Files, m: Manifest) {
    forall i | 0 <= i < |m.items| ::
      || At(files, m.items[i].source) == Some(m.items[i].hash)
      || At(files, m.items[i].preserved) == Some(m.items[i].hash)
  }

  ghost predicate Apart(a: Manifest, b: Manifest) {
    forall i, j | 0 <= i < |a.items| && 0 <= j < |b.items| :: a.items[i].source != b.items[j].source
  }

  // ---------------------------------------------------------- manifest steps

  ghost predicate HasId(ms: seq<Manifest>, id: string) {
    exists k :: 0 <= k < |ms| && ms[k].id == id
  }

  ghost predicate Knows(ms: seq<Manifest>, id: string, hash: Digest) {
    exists k :: 0 <= k < |ms| && |ms[k].items| > 0 && ms[k].id == id && Hash(ms[k]) == hash
  }

  ghost predicate KnowsHash(ms: seq<Manifest>, hash: Digest) {
    exists k :: 0 <= k < |ms| && |ms[k].items| > 0 && Hash(ms[k]) == hash
  }

  /** A registration adds one manifest of scanned files under a new identifier. */
  ghost predicate Registers(files: Files, before: seq<Manifest>, m: Manifest) {
    && WellFormedManifest(m) && Waiting(files, m) && !HasId(before, m.id)
    && m.status != Processed
    && (m.status == Pending ==> !KnowsHash(before, Hash(m)))
    && (m.status == Duplicate ==> Knows(before, m.duplicateOf.value, Hash(m)))
  }

  /** Archiving turns a pending manifest into a processed one with new preserved paths. */
  ghost predicate Archives(files: Files, m: Manifest, m': Manifest) {
    && m.status == Pending && Waiting(files, m)
    && WellFormedManifest(m') && m'.status == Processed && m'.id == m.id && |m'.items| == |m.items|
    && forall i | 0 <= i < |m.items| ::
         m'.items[i].source == m.items[i].source && m'.items[i].hash == m.items[i].hash
  }

  ghost predicate Authorizes(m: Manifest, m': Manifest) {
    m.status == Quarantined && (m' == m || m' == m.(authorized := true))
  }

  ghost predicate Changes(files: Files, before: seq<Manifest>, after: seq<Manifest>) {
    || (|after| == |before| + 1 && after[..|before|] == before && Registers(files, before, after[|before|]))
    || (exists k :: 0 <= k < |before| && |after| == |before| && after == before[k := after[k]]
          && (Archives(files, before[k], after[k]) || Authorizes(before[k], after[k])))
  }

  datatype Step =
    | Drop(path: Path, content: Digest)
    | Tear
    | Begin(after: seq<Manifest>)
    | Write
    | Record
    | Close
    | Undo
    | Discard
    | Sweep
    | Publish(owner: nat)
    | MoveOne(i: nat)
    | Finish

  ghost predicate Next(s: State, step: Step, t: State) {
    match step
    case Drop(p, d) => s.stager.Idle? && IsRaw(p) && p !in s.files && t == s.(files := s.files[p := d])
    case Tear => s.stager.Idle? && t == s.(stager := TornIntent)
    case Begin(after) =>
      s.stager.Idle? && Changes(s.files, s.manifests, after)
          && t == s.(stager := Transaction(s.manifests, after, false))
    case Write => s.stager.Transaction? && !s.stager.recorded && t == s.(manifests := s.stager.after)
    case Record =>
      && s.stager.Transaction? && !s.stager.recorded && s.manifests == s.stager.after
      && t == s.(stager := s.stager.(recorded := true))
    case Close => s.stager.Transaction? && s.stager.recorded && t == s.(stager := Idle)
    case Undo => s.stager.Transaction? && !s.stager.recorded && t == s.(manifests := s.stager.before)
    case Discard =>
      && s.stager.Transaction? && !s.stager.recorded && s.manifests == s.stager.before
      && t == s.(stager := RolledBack(s.stager.before, s.stager.after))
    case Sweep => s.stager.RolledBack? && t == s.(stager := Idle)
    case Publish(k) =>
      && s.stager.Idle? && k < |s.manifests| && Relocated(s.manifests[k])
      && AllPre(s.files, Specs(s.manifests[k]))
      && t == s.(stager := Moving(k, Specs(s.manifests[k])))
    case MoveOne(i) =>
      && s.stager.Moving? && i < |s.stager.targets| && IsPre(s.files, s.stager.targets[i])
      && t == s.(files := PutPost(s.files, s.stager.targets[i]))
    case Finish => s.stager.Moving? && AllPost(s.files, s.stager.targets) && t == s.(stager := Idle)
  }

  // ------------------------------------------------------- registry invariant

  ghost predicate UniqueIds(ms: seq<Manifest>) {
    forall i, j | 0 <= i < j < |ms| :: ms[i].id != ms[j].id
  }

  ghost predicate OneLivePerHash(ms: seq<Manifest>) {
    forall i, j | 0 <= i < j < |ms| && Live(ms[i]) && Live(ms[j]) && |ms[i].items| > 0 && |ms[j].items| > 0 ::
      Hash(ms[i]) != Hash(ms[j])
  }

  /** A duplicate points to an artifact registered before it that has the same bytes. */
  ghost predicate PointsBack(ms: seq<Manifest>, k: nat)
    requires k < |ms| && |ms[k].items| > 0
  {
    ms[k].duplicateOf.Some? ==> Knows(ms[..k], ms[k].duplicateOf.value, Hash(ms[k]))
  }

  ghost predicate GoodRegistry(ms: seq<Manifest>) {
    && (forall k | 0 <= k < |ms| :: WellFormedManifest(ms[k]))
    && UniqueIds(ms) && OneLivePerHash(ms)
    && forall k | 0 <= k < |ms| :: PointsBack(ms, k)
  }

  lemma RegisterKeepsRegistry(files: Files, before: seq<Manifest>, m: Manifest)
    requires GoodRegistry(before) && Registers(files, before, m)
    ensures GoodRegistry(before + [m])
  {
    var after := before + [m];
    forall k | 0 <= k < |after| ensures WellFormedManifest(after[k]) && PointsBack(after, k) {
      if k < |before| {
        assert PointsBack(before, k);
        assert after[..k] == before[..k];
      } else {
        assert after[..k] == before;
      }
    }
  }

  lemma UpdateKeepsRegistry(before: seq<Manifest>, k: nat, m: Manifest)
    requires GoodRegistry(before) && k < |before| && WellFormedManifest(m)
    requires m.id == before[k].id && Hash(m) == Hash(before[k])
    requires (Live(m) <==> Live(before[k])) && m.duplicateOf.None? && before[k].duplicateOf.None?
    ensures GoodRegistry(before[k := m])
  {
    var after := before[k := m];
    forall j | 0 <= j < |after| ensures WellFormedManifest(after[j]) && PointsBack(after, j) {
      if j != k && after[j].duplicateOf.Some? {
        assert PointsBack(before, j);
        var original :| 0 <= original < j && before[..j][original].id == after[j].duplicateOf.value
                        && Hash(before[..j][original]) == Hash(after[j]);
        assert after[..j][original].id == before[..j][original].id;
      }
    }
  }

  lemma ChangeKeepsRegistry(files: Files, before: seq<Manifest>, after: seq<Manifest>)
    requires GoodRegistry(before) && Changes(files, before, after)
    ensures GoodRegistry(after)
  {
    if |after| == |before| + 1 {
      assert after == before + [after[|before|]];
      RegisterKeepsRegistry(files, before, after[|before|]);
    } else {
      var k :| 0 <= k < |before| && after == before[k := after[k]]
               && (Archives(files, before[k], after[k]) || Authorizes(before[k], after[k]));
      assert WellFormedManifest(before[k]);
      UpdateKeepsRegistry(before, k, after[k]);
    }
  }

  /** What is durable of the registry: an unrecorded transaction will be undone. */
  function Durable(s: State): seq<Manifest> {
    if s.stager.Transaction? && !s.stager.recorded then s.stager.before else s.manifests
  }

  ghost predicate RegistryInv(s: State) {
    && GoodRegistry(s.manifests)
    && (s.stager.Transaction? ==>
          && GoodRegistry(s.stager.before) && GoodRegistry(s.stager.after)
          && (s.manifests == s.stager.before || s.manifests == s.stager.after)
          && Grows(s.stager.before, s.stager.after)
          && (s.stager.recorded ==> s.manifests == s.stager.after))
    && (s.stager.RolledBack? ==> s.manifests == s.stager.before)
  }

  /** The same artifact: identifier, registered paths and bytes. */
  ghost predicate SameArtifact(m: Manifest, m': Manifest) {
    && m'.id == m.id && |m'.items| == |m.items|
    && forall i | 0 <= i < |m.items| :: m'.items[i].source == m.items[i].source && m'.items[i].hash == m.items[i].hash
  }

  /** A manifest only ever goes from pending to processed, or keeps the receipt of its quarantine. */
  ghost predicate Follows(m: Manifest, m': Manifest) {
    || m' == m
    || (m.status == Pending && m'.status == Processed && SameArtifact(m, m'))
    || (m.status == Quarantined && m' == m.(authorized := true))
  }

  /** Nothing is forgotten and nothing goes back: no manifest disappears, quarantine is for ever. */
  ghost predicate Grows(before: seq<Manifest>, after: seq<Manifest>) {
    |before| <= |after| && forall k | 0 <= k < |before| :: Follows(before[k], after[k])
  }

  /** Every step keeps the registry well formed and only ever grows its durable part. */
  lemma StepKeepsRegistry(s: State, step: Step, t: State)
    requires RegistryInv(s) && Next(s, step, t)
    ensures RegistryInv(t) && Grows(Durable(s), Durable(t))
  {
    if step.Begin? {
      ChangeKeepsRegistry(s.files, s.manifests, step.after);
    }
  }

  // --------------------------------------------------------- duplicate chains

  /** The manifest `duplicate_of` names; it was registered earlier and has the same bytes. */
  ghost function Named(ms: seq<Manifest>, k: nat): (j: nat)
    requires GoodRegistry(ms) && k < |ms| && ms[k].status == Duplicate
    ensures j < k && ms[j].id == ms[k].duplicateOf.value && Hash(ms[j]) == Hash(ms[k])
  {
    assert WellFormedManifest(ms[k]) && PointsBack(ms, k);
    var j :| 0 <= j < k && |ms[..k][j].items| > 0 && ms[..k][j].id == ms[k].duplicateOf.value
        && Hash(ms[..k][j]) == Hash(ms[k]);
    j
  }

  ghost predicate LinksTo(ms: seq<Manifest>, chain: seq<nat>, i: nat)
    requires i + 1 < |chain|
  {
    && chain[i] < |ms| && chain[i + 1] < |ms|
    && ms[chain[i]].duplicateOf == Some(ms[chain[i + 1]].id)
  }

  /**
   MAIN: following `duplicate_of` from any manifest ends at an artifact that is no duplicate and has
   the same bytes, although a duplicate may well point to another duplicate.
   */
  lemma {:induction false} ChainEndsAtOriginal(ms: seq<Manifest>, k: nat) returns (chain: seq<nat>)
    requires GoodRegistry(ms) && k < |ms|
    ensures |chain| > 0 && chain[0] == k && chain[|chain| - 1] < |ms|
    ensures forall i | 0 <= i < |chain| - 1 :: LinksTo(ms, chain, i)
    ensures ms[chain[|chain| - 1]].status != Duplicate
    ensures |ms[k].items| > 0 && |ms[chain[|chain| - 1]].items| > 0 && Hash(ms[chain[|chain| - 1]]) == Hash(ms[k])
    decreases k
  {
    assert WellFormedManifest(ms[k]);
    if ms[k].status == Duplicate {
      var rest := ChainEndsAtOriginal(ms, Named(ms, k));
      chain := [k] + rest;
      forall i | 0 <= i < |chain| - 1 ensures LinksTo(ms, chain, i) {
        if i > 0 {
          assert LinksTo(ms, rest, i - 1);
        }
      }
    } else {
      chain := [k];
    }
  }

  // ----------------------------------------------------------- file invariant

  ghost predicate Owns(s: State, k: nat) {
    s.stager.Moving? && s.stager.owner == k
  }

  /** The owner of a move in progress has every target in one of its two images. */
  ghost predicate Halfway(s: State, k: nat)
    requires k < |s.manifests|
  {
    && Relocated(s.manifests[k]) && s.stager.Moving? && s.stager.targets == Specs(s.manifests[k])
    && forall i | 0 <= i < |s.stager.targets| ::
         IsPre(s.files, s.stager.targets[i]) || IsPost(s.files, s.stager.targets[i])
  }

  ghost predicate FilesOk(s: State, k: nat)
    requires k < |s.manifests|
  {
    if Owns(s, k) then Halfway(s, k) else Settled(s.files, s.manifests[k])
  }

  /** Artifacts that are not at their destination yet share no registered path. */
  ghost predicate Exclusive(files: Files, ms: seq<Manifest>) {
    forall j, k | 0 <= j < k < |ms| && !Arrived(files, ms[j]) && !Arrived(files, ms[k]) :: Apart(ms[j], ms[k])
  }

  ghost predicate AllSettled(files: Files, ms: seq<Manifest>) {
    forall k | 0 <= k < |ms| :: Settled(files, ms[k])
  }

  ghost predicate FilesInv(s: State) {
    && (s.stager.Moving? ==> s.stager.owner < |s.manifests|)
    && (forall k | 0 <= k < |s.manifests| :: FilesOk(s, k))
    && Exclusive(s.files, s.manifests)
    && (s.stager.Transaction? ==>
          && AllSettled(s.files, s.stager.before) && Exclusive(s.files, s.stager.before)
          && AllSettled(s.files, s.stager.after) && Exclusive(s.files, s.stager.after))
  }

  /** The step registers no path that an artifact still waiting for its move has registered. */
  ghost predicate Considerate(s: State, step: Step) {
    step.Begin? && |step.after| == |s.manifests| + 1 ==>
      forall k | 0 <= k < |s.manifests| && !Arrived(s.files, s.manifests[k]) ::
        Apart(s.manifests[k], step.after[|s.manifests|])
  }

  lemma RegisterKeepsFiles(files: Files, before: seq<Manifest>, m: Manifest)
    requires AllSettled(files, before) && Exclusive(files, before) && Waiting(files, m)
    requires forall k | 0 <= k < |before| && !Arrived(files, before[k]) :: Apart(before[k], m)
    ensures AllSettled(files, before + [m]) && Exclusive(files, before + [m])
  {
  }

  lemma ReplaceKeepsFiles(files: Files, before: seq<Manifest>, k: nat, m: Manifest)
    requires AllSettled(files, before) && Exclusive(files, before) && k < |before|
    requires |m.items| == |before[k].items| && Settled(files, m) && (Arrived(files, before[k]) ==> Arrived(files, m))
    requires forall i | 0 <= i < |m.items| :: m.items[i].source == before[k].items[i].source
    ensures AllSettled(files, before[k := m]) && Exclusive(files, before[k := m])
  {
    var after := before[k := m];
    forall i, j | 0 <= i < j < |after| && !Arrived(files, after[i]) && !Arrived(files, after[j])
      ensures Apart(after[i], after[j])
    {
      assert Apart(before[i], before[j]);
    }
  }

  lemma ArchivesSettled(files: Files, m: Manifest, m': Manifest)
    requires Archives(files, m, m') || (Authorizes(m, m') && Settled(files, m))
    ensures |m'.items| == |m.items| && Settled(files, m') && (Arrived(files, m) ==> Arrived(files, m'))
    ensures forall i | 0 <= i < |m.items| :: m'.items[i].source == m.items[i].source
  {
    if Archives(files, m, m') {
      forall i | 0 <= i < |m'.items| ensures At(files, m'.items[i].source) == Some(m'.items[i].hash) {
        assert At(files, m.items[i].source) == Some(m.items[i].hash);
      }
    }
  }

  lemma ChangeKeepsFiles(s: State, after: seq<Manifest>)
    requires RegistryInv(s) && FilesInv(s) && s.stager.Idle?
    requires Changes(s.files, s.manifests, after) && Considerate(s, Begin(after))
    ensures AllSettled(s.files, after) && Exclusive(s.files, after)
  {
    var before := s.manifests;
    assert AllSettled(s.files, before) by {
      forall k | 0 <= k < |before| ensures Settled(s.files, before[k]) {
        assert FilesOk(s, k);
      }
    }
    if |after| == |before| + 1 {
      assert after == before + [after[|before|]];
      RegisterKeepsFiles(s.files, before, after[|before|]);
    } else {
      var k :| 0 <= k < |before| && after == before[k := after[k]]
               && (Archives(s.files, before[k], after[k]) || Authorizes(before[k], after[k]));
      ArchivesSettled(s.files, before[k], after[k]);
      ReplaceKeepsFiles(s.files, before, k, after[k]);
    }
  }

  /** Putting one more file down, or moving one of the owner's files, disturbs no other artifact. */
  lemma UndisturbedByMove(files: Files, files': Files, owner: Manifest, i: nat, m: Manifest)
    requires WellFormedManifest(owner) && Relocated(owner) && i < |owner.items| && WellFormedManifest(m)
    requires IsPre(files, Specs(owner)[i]) && files' == PutPost(files, Specs(owner)[i])
    requires Settled(files, m) && (Arrived(files, m) || Apart(owner, m))
    ensures Settled(files', m) && (Arrived(files, m) ==> Arrived(files', m))
  {
    var src, dst := owner.items[i].source, owner.items[i].preserved;
    assert IsRaw(src) && !IsRaw(dst);
    assert forall p: Path :: p != src && p != dst ==> At(files', p) == At(files, p);
    if Arrived(files, m) {
      forall j | 0 <= j < |m.items| ensures At(files', m.items[j].preserved) == Some(m.items[j].hash) {
        assert !IsRaw(m.items[j].preserved) && At(files, m.items[j].preserved).Some?;
      }
    } else {
      forall j | 0 <= j < |m.items| ensures At(files', m.items[j].source) == Some(m.items[j].hash) {
        assert IsRaw(m.items[j].source);
      }
    }
  }

  /** Moving one file keeps the other targets in the image they were in. */
  lemma MoveStepLocal(files: Files, m: Manifest, i: nat)
    requires WellFormedManifest(m) && Relocated(m) && i < |m.items| && IsPre(files, Specs(m)[i])
    ensures var after := PutPost(files, Specs(m)[i]);
            && IsPost(after, Specs(m)[i])
            && forall j | 0 <= j < |m.items| && j != i ::
                 (IsPre(after, Specs(m)[j]) <==> IsPre(files, Specs(m)[j]))
                     && (IsPost(after, Specs(m)[j]) <==> IsPost(files, Specs(m)[j]))
  {
    assert IsRaw(m.items[i].source) && !IsRaw(m.items[i].preserved);
    var after := PutPost(files, Specs(m)[i]);
    assert forall p: Path :: p != m.items[i].source && p != m.items[i].preserved ==> At(after, p) == At(files, p);
    forall j | 0 <= j < |m.items| && j != i
      ensures IsPre(after, Specs(m)[j]) <==> IsPre(files, Specs(m)[j])
      ensures IsPost(after, Specs(m)[j]) <==> IsPost(files, Specs(m)[j])
    {
      assert IsRaw(m.items[j].source) && !IsRaw(m.items[j].preserved);
      assert m.items[j].source != m.items[i].source && m.items[j].preserved != m.items[i].preserved;
    }
  }

  /** A published move is for a relocated manifest and has every target in one of its two images. */
  ghost predicate MoveInv(s: State) {
    s.stager.Moving? ==> s.stager.owner < |s.manifests| && Halfway(s, s.stager.owner)
  }

  lemma OneMoreMoved(s: State, i: nat, t: State)
    requires RegistryInv(s) && MoveInv(s) && Next(s, MoveOne(i), t)
    ensures MoveInv(t)
  {
    var m := s.manifests[s.stager.owner];
    MoveStepLocal(s.files, m, i);
    forall j | 0 <= j < |t.stager.targets|
        ensures IsPre(t.files, t.stager.targets[j]) || IsPost(t.files, t.stager.targets[j]) {
      assert IsPre(s.files, s.stager.targets[j]) || IsPost(s.files, s.stager.targets[j]);
    }
  }

  /** What every reachable state satisfies, whatever paths are registered. */
  ghost predicate Inv(s: State) {
    RegistryInv(s) && MoveInv(s)
  }

  lemma StepKeepsInv(s: State, step: Step, t: State)
    requires Inv(s) && Next(s, step, t)
    ensures Inv(t) && Grows(Durable(s), Durable(t))
  {
    StepKeepsRegistry(s, step, t);
    if step.MoveOne? {
      OneMoreMoved(s, step.i, t);
    }
  }

  lemma MoveKeepsFiles(s: State, i: nat, t: State)
    requires RegistryInv(s) && FilesInv(s) && Next(s, MoveOne(i), t)
    ensures FilesInv(t)
  {
    var owner := s.stager.owner;
    assert Owns(s, owner) && FilesOk(s, owner);
    var m := s.manifests[owner];
    OneMoreMoved(s, i, t);
    assert !Arrived(s.files, m) by {
      assert IsPre(s.files, Specs(m)[i]) && At(s.files, m.items[i].preserved) == None;
    }
    forall k | 0 <= k < |t.manifests|
      ensures FilesOk(t, k) && (Arrived(s.files, s.manifests[k]) ==> Arrived(t.files, t.manifests[k]))
    {
      assert FilesOk(s, k);
      if k != owner {
        assert Arrived(s.files, s.manifests[k]) || Apart(m, s.manifests[k]) by {
          if !Arrived(s.files, s.manifests[k]) {
            ApartEitherWay(s.files, s.manifests, owner, k);
          }
        }
        UndisturbedByMove(s.files, t.files, m, i, s.manifests[k]);
      }
    }
    StillExclusive(s.files, t.files, s.manifests);
  }

  lemma ApartEitherWay(files: Files, ms: seq<Manifest>, a: nat, b: nat)
    requires Exclusive(files, ms) && a < |ms| && b < |ms| && a != b && !Arrived(files, ms[a]) && !Arrived(files, ms[b])
    ensures Apart(ms[a], ms[b])
  {
    if b < a {
      assert Apart(ms[b], ms[a]);
    }
  }

  lemma StillExclusive(files: Files, files': Files, ms: seq<Manifest>)
    requires Exclusive(files, ms) && forall k | 0 <= k < |ms| :: Arrived(files, ms[k]) ==> Arrived(files', ms[k])
    ensures Exclusive(files', ms)
  {
  }

  /** Adding a raw file where there was none moves nothing. */
  lemma DropKeepsFiles(s: State, p: Path, d: Digest, t: State)
    requires RegistryInv(s) && FilesInv(s) && Next(s, Drop(p, d), t)
    ensures FilesInv(t)
  {
    assert forall q: Path :: q in s.files ==> At(t.files, q) == At(s.files, q);
    forall k | 0 <= k < |t.manifests|
      ensures FilesOk(t, k) && (Arrived(s.files, s.manifests[k]) ==> Arrived(t.files, t.manifests[k]))
    {
      assert FilesOk(s, k);
      var m := s.manifests[k];
      assert forall i | 0 <= i < |m.items| :: At(s.files, m.items[i].source).Some? ==> m.items[i].source in s.files;
      assert forall i | 0 <= i < |m.items| :: At(s.files, m.items[i].preserved).Some? ==>
          m.items[i].preserved in s.files;
    }
    StillExclusive(s.files, t.files, s.manifests);
  }

  lemma FinishKeepsFiles(s: State, t: State)
    requires RegistryInv(s) && FilesInv(s) && Next(s, Finish, t)
    ensures FilesInv(t)
  {
    forall k | 0 <= k < |t.manifests| ensures FilesOk(t, k) {
      assert FilesOk(s, k);
      if Owns(s, k) {
        var m := s.manifests[k];
        forall i | 0 <= i < |m.items| ensures At(t.files, m.items[i].preserved) == Some(m.items[i].hash) {
          assert IsPost(s.files, s.stager.targets[i]);
        }
      }
    }
  }

  lemma PublishKeepsFiles(s: State, k: nat, t: State)
    requires RegistryInv(s) && FilesInv(s) && Next(s, Publish(k), t)
    ensures FilesInv(t)
  {
    forall j | 0 <= j < |t.manifests| ensures FilesOk(t, j) {
      assert FilesOk(s, j);
    }
  }

  lemma TransactionKeepsFiles(s: State, step: Step, t: State)
    requires RegistryInv(s) && FilesInv(s) && Next(s, step, t) && Considerate(s, step)
    requires step.Begin? || step.Write? || step.Record? || step.Close? || step.Undo? || step.Discard? || step.Sweep?
             || step.Tear?
    ensures FilesInv(t)
  {
    if step.Begin? {
      ChangeKeepsFiles(s, step.after);
    }
    forall j | 0 <= j < |t.manifests| ensures FilesOk(t, j) {
      if j < |s.manifests| {
        assert FilesOk(s, j);
      }
      assert s.stager.Transaction? ==> t.manifests == s.stager.before || t.manifests == s.stager.after;
    }
  }

  lemma StepKeepsFiles(s: State, step: Step, t: State)
    requires RegistryInv(s) && FilesInv(s) && Next(s, step, t) && Considerate(s, step)
    ensures FilesInv(t)
  {
    match step
    case Drop(p, d) => DropKeepsFiles(s, p, d, t);
    case MoveOne(i) => MoveKeepsFiles(s, i, t);
    case Finish => FinishKeepsFiles(s, t);
    case Publish(k) => PublishKeepsFiles(s, k, t);
    case _ => TransactionKeepsFiles(s, step, t);
  }

  // ------------------------------------------------------------- whole runs

  function Start(files: Files): State {
    State(files, [], Idle)
  }

  ghost predicate Advances(states: seq<State>, steps: seq<Step>, i: nat)
    requires i < |steps| && |states| == |steps| + 1
  {
    Next(states[i], steps[i], states[i + 1])
  }

  /** A run of the system: registrations, archives, crashes and retries in any order. */
  ghost predicate IsHistory(states: seq<State>, steps: seq<Step>) {
    |states| == |steps| + 1 && forall i | 0 <= i < |steps| :: Advances(states, steps, i)
  }

  ghost predicate AllConsiderate(states: seq<State>, steps: seq<Step>)
    requires |states| == |steps| + 1
  {
    forall i | 0 <= i < |steps| :: Considerate(states[i], steps[i])
  }

  lemma {:induction false} RegistryAlong(states: seq<State>, steps: seq<Step>, n: nat)
    requires IsHistory(states, steps) && RegistryInv(states[0]) && n < |states|
    ensures RegistryInv(states[n])
  {
    if n > 0 {
      RegistryAlong(states, steps, n - 1);
      assert Advances(states, steps, n - 1);
      StepKeepsRegistry(states[n - 1], steps[n - 1], states[n]);
    }
  }

  lemma GrowsTransitive(a: seq<Manifest>, b: seq<Manifest>, c: seq<Manifest>)
    requires Grows(a, b) && Grows(b, c)
    ensures Grows(a, c)
  {
    forall k | 0 <= k < |a| ensures Follows(a[k], c[k]) {
      assert Follows(a[k], b[k]) && Follows(b[k], c[k]);
    }
  }

  /** From any good state on, what was durable earlier is still there later. */
  lemma {:induction false} GrowsAlong(states: seq<State>, steps: seq<Step>, i: nat, j: nat)
    requires IsHistory(states, steps) && RegistryInv(states[0]) && i <= j < |states|
    ensures Grows(Durable(states[i]), Durable(states[j]))
    decreases j
  {
    if i < j {
      GrowsAlong(states, steps, i, j - 1);
      RegistryAlong(states, steps, j - 1);
      assert Advances(states, steps, j - 1);
      StepKeepsRegistry(states[j - 1], steps[j - 1], states[j]);
      GrowsTransitive(Durable(states[i]), Durable(states[j - 1]), Durable(states[j]));
    }
  }

  /**
   MAIN: over every run, identifiers are unique, each content has at most one live manifest, and what
   was durable earlier is still there later: quarantine, duplicate links and archived manifests never change.
   */
  lemma RegistryOnlyGrows(files: Files, states: seq<State>, steps: seq<Step>, i: nat, j: nat)
    requires IsHistory(states, steps) && states[0] == Start(files) && i <= j < |states|
    ensures GoodRegistry(states[j].manifests) && GoodRegistry(Durable(states[j]))
    ensures Grows(Durable(states[i]), Durable(states[j]))
  {
    RegistryAlong(states, steps, j);
    GrowsAlong(states, steps, i, j);
  }

  lemma {:induction false} FilesAlong(files: Files, states: seq<State>, steps: seq<Step>, n: nat)
    requires IsHistory(states, steps) && states[0] == Start(files) && AllConsiderate(states, steps) && n < |states|
    ensures RegistryInv(states[n]) && FilesInv(states[n])
  {
    RegistryAlong(states, steps, n);
    if n > 0 {
      FilesAlong(files, states, steps, n - 1);
      assert Advances(states, steps, n - 1);
      assert Considerate(states[n - 1], steps[n - 1]);
      StepKeepsFiles(states[n - 1], steps[n - 1], states[n]);
    }
  }

  lemma SettledIsKept(files: Files, m: Manifest)
    requires Settled(files, m)
    ensures BytesKept(files, m)
  {
  }

  lemma HalfwayIsKept(s: State, k: nat)
    requires k < |s.manifests| && Halfway(s, k)
    ensures BytesKept(s.files, s.manifests[k])
  {
    var m := s.manifests[k];
    forall i | 0 <= i < |m.items|
      ensures At(s.files, m.items[i].source) == Some(m.items[i].hash)
                || At(s.files, m.items[i].preserved) == Some(m.items[i].hash)
    {
      assert IsPre(s.files, s.stager.targets[i]) || IsPost(s.files, s.stager.targets[i]);
    }
  }

  /**
   MAIN: over every run whose registrations leave waiting artifacts' paths alone, the bytes of every
   artifact and sidecar are always at the registered or the preserved path, and whenever the stager
   is clean each artifact is wholly at one of the two, never in between.
   */
  lemma BytesAlwaysKept(files: Files, states: seq<State>, steps: seq<Step>, n: nat)
    requires IsHistory(states, steps) && states[0] == Start(files) && AllConsiderate(states, steps) && n < |states|
    ensures forall k | 0 <= k < |states[n].manifests| :: BytesKept(states[n].files, states[n].manifests[k])
    ensures states[n].stager.Idle? ==> AllSettled(states[n].files, states[n].manifests)
  {
    FilesAlong(files, states, steps, n);
    var s := states[n];
    forall k | 0 <= k < |s.manifests|
      ensures BytesKept(s.files, s.manifests[k]) && (s.stager.Idle? ==> Settled(s.files, s.manifests[k]))
    {
      assert FilesOk(s, k);
      if Owns(s, k) {
        HalfwayIsKept(s, k);
      } else {
        SettledIsKept(s.files, s.manifests[k]);
      }
    }
  }

  // ------------------------------------------------- the exact condition

  /** The files once every target of one artifact's move has been applied. */
  function Moved(files: Files, m: Manifest, n: nat): Files
    requires n <= |m.items|
  {
    if n == 0 then files else PutPost(Moved(files, m, n - 1), Specs(m)[n - 1])
  }

  lemma {:induction false} MovedElsewhere(files: Files, m: Manifest, n: nat, p: Path)
    requires n <= |m.items| && forall i | 0 <= i < n :: p != m.items[i].source && p != m.items[i].preserved
    ensures At(Moved(files, m, n), p) == At(files, p)
  {
    if n > 0 {
      MovedElsewhere(files, m, n - 1, p);
    }
  }

  /** Whatever is moved afterwards, item `i` has left its source and is at its destination. */
  lemma {:induction false} MovedItem(files: Files, m: Manifest, n: nat, i: nat)
    requires WellFormedManifest(m) && Relocated(m) && i < n <= |m.items|
    ensures At(Moved(files, m, n), m.items[i].source) == None
    ensures At(Moved(files, m, n), m.items[i].preserved) == Some(m.items[i].hash)
  {
    assert IsRaw(m.items[i].source) && !IsRaw(m.items[i].preserved);
    if i < n - 1 {
      MovedItem(files, m, n - 1, i);
      assert IsRaw(m.items[n - 1].source) && !IsRaw(m.items[n - 1].preserved);
      assert m.items[i].source != m.items[n - 1].source && m.items[i].preserved != m.items[n - 1].preserved;
    }
  }

  lemma MovedPointwise(files: Files, m: Manifest)
    requires WellFormedManifest(m) && Relocated(m)
    ensures forall i | 0 <= i < |m.items| :: At(Moved(files, m, |m.items|), m.items[i].source) == None
    ensures forall i | 0 <= i < |m.items| ::
              At(Moved(files, m, |m.items|), m.items[i].preserved) == Some(m.items[i].hash)
  {
    forall i | 0 <= i < |m.items|
      ensures At(Moved(files, m, |m.items|), m.items[i].source) == None
      ensures At(Moved(files, m, |m.items|), m.items[i].preserved) == Some(m.items[i].hash)
    {
      MovedItem(files, m, |m.items|, i);
    }
  }

  /** The move takes the path of this item of `other`, and its bytes neither are nor get to its destination. */
  ghost predicate StrandsItem(files: Files, m: Manifest, other: Manifest, j: nat)
    requires j < |other.items|
  {
    var item := other.items[j];
    && (exists i :: 0 <= i < |m.items| && item.source == m.items[i].source)
    && !(Relocated(other) && At(files, item.preserved) == Some(item.hash))
    && !(Relocated(other) && exists i ::
        0 <= i < |m.items| && m.items[i].preserved == item.preserved && m.items[i].hash == item.hash)
  }

  ghost predicate Strands(files: Files, m: Manifest, other: Manifest) {
    exists j :: 0 <= j < |other.items| && StrandsItem(files, m, other, j)
  }

  ghost predicate ItemKept(files: Files, item: Item) {
    At(files, item.source) == Some(item.hash) || At(files, item.preserved) == Some(item.hash)
  }

  /**
   MAIN: exactly when one artifact's completed move loses another artifact's bytes from both its
   paths; nothing is asked of the move but what its publication checks.
   */
  lemma MoveStrandsExactly(files: Files, m: Manifest, other: Manifest)
    requires WellFormedManifest(m) && Relocated(m) && WellFormedManifest(other)
    requires AllPre(files, Specs(m)) && BytesKept(files, other)
    ensures BytesKept(Moved(files, m, |m.items|), other) <==> !Strands(files, m, other)
  {
    var after := Moved(files, m, |m.items|);
    forall j | 0 <= j < |other.items| ensures ItemKept(after, other.items[j]) <==> !StrandsItem(files, m, other, j) {
      ItemStranded(files, m, other, j);
    }
    if BytesKept(after, other) {
      assert forall j | 0 <= j < |other.items| :: ItemKept(after, other.items[j]);
    }
  }

  lemma ItemStranded(files: Files, m: Manifest, other: Manifest, j: nat)
    requires WellFormedManifest(m) && Relocated(m) && WellFormedManifest(other) && j < |other.items|
    requires AllPre(files, Specs(m)) && BytesKept(files, other)
    ensures ItemKept(Moved(files, m, |m.items|), other.items[j]) <==> !StrandsItem(files, m, other, j)
  {
    MovedPointwise(files, m);
    var after := Moved(files, m, |m.items|);
    var item := other.items[j];
    assert IsRaw(item.source) && ItemKept(files, item);
    assert forall i | 0 <= i < |m.items| :: IsRaw(m.items[i].source) && !IsRaw(m.items[i].preserved);
    if i :| 0 <= i < |m.items| && m.items[i].preserved == item.preserved {
      assert IsPre(files, Specs(m)[i]) && At(after, item.preserved) == Some(m.items[i].hash);
      OneDestination(m, i, item);
    } else if Relocated(other) {
      MovedElsewhere(files, m, |m.items|, item.preserved);
    }
    if forall i | 0 <= i < |m.items| :: m.items[i].source != item.source {
      MovedElsewhere(files, m, |m.items|, item.source);
    }
  }

  lemma OneDestination(m: Manifest, i: nat, item: Item)
    requires WellFormedManifest(m) && i < |m.items| && m.items[i].preserved == item.preserved
    ensures (exists k :: 0 <= k < |m.items| && m.items[k].preserved == item.preserved && m.items[k].hash == item.hash)
            <==> m.items[i].hash == item.hash
  {
    if k :| 0 <= k < |m.items| && m.items[k].preserved == item.preserved && m.items[k].hash == item.hash {
      assert k < i || i < k || k == i;
    }
  }

  // ------------------------------------------------------------- reachability

  ghost predicate Leads(states: seq<State>, steps: seq<Step>, s: State, t: State) {
    IsHistory(states, steps) && states[0] == s && states[|states| - 1] == t
  }

  ghost predicate Reaches(s: State, t: State) {
    exists states: seq<State>, steps: seq<Step> :: Leads(states, steps, s, t)
  }

  lemma ReachesItself(s: State)
    ensures Reaches(s, s)
  {
    assert Leads([s], [], s, s);
  }

  lemma ReachesOneMore(s: State, t: State, step: Step, u: State)
    requires Reaches(s, t) && Next(t, step, u)
    ensures Reaches(s, u)
  {
    var states: seq<State>, steps: seq<Step> :| Leads(states, steps, s, t);
    var states', steps' := states + [u], steps + [step];
    forall i | 0 <= i < |steps'| ensures Advances(states', steps', i) {
      if i < |steps| {
        assert Advances(states, steps, i);
      }
    }
    assert Leads(states', steps', s, u);
  }
}
