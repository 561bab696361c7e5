/**
 The write-ahead stager: what one intent records about each target, how a target
 is classified after an interruption, and what applying or restoring it does.

 A file is represented by its SHA-256 digest, and a path by its collision key
 (NFC, case-folded), so equality of files and of paths is equality of strings.
 */
module Staging {
  import opened Options

  type Path = string
  type Digest = string
  type Files = map<Path, Digest>

  function At(files: Files, p: Path): Option<Digest> {
    if p in files then Some(files[p]) else None
  }

  function Put(files: Files, p: Path, d: Option<Digest>): Files {
    match d
    case None => files - {p}
    case Some(x) => files[p := x]
  }

  /** One recorded target: its preimage and its postimage. */
  datatype Target =
    | Replace(path: Path, pre: Option<Digest>, post: Digest)
    | Move(src: Path, dst: Path, digest: Digest)
    | Delete(path: Path, gone: Digest)

  datatype Intent = Intent(id: string, targets: seq<Target>)

  function Paths(t: Target): set<Path> {
    match t
    case Replace(p, _, _) => {p}
    case Move(s, d, _) => {s, d}
    case Delete(p, _) => {p}
  }

  /** The digest the preimage backup must have; a missing preimage has no backup. */
  function BackupOf(t: Target): Option<Digest> {
    match t
    case Replace(_, pre, _) => pre
    case Move(_, _, d) => Some(d)
    case Delete(_, g) => Some(g)
  }

  /** The staged postimage that `prepare` writes next to the backup. */
  function StageOf(t: Target): Option<Digest> {
    if t.Replace? then Some(t.post) else None
  }

  predicate IsPre(files: Files, t: Target) {
    match t
    case Replace(p, pre, _) => At(files, p) == pre
    case Move(s, d, h) => At(files, s) == Some(h) && At(files, d) == None
    case Delete(p, g) => At(files, p) == Some(g)
  }

  predicate IsPost(files: Files, t: Target) {
    match t
    case Replace(p, _, post) => At(files, p) == Some(post)
    case Move(s, d, h) => At(files, s) == None && At(files, d) == Some(h)
    case Delete(p, _) => At(files, p) == None
  }

  function PutPost(files: Files, t: Target): Files {
    match t
    case Replace(p, _, post) => files[p := post]
    case Move(s, d, h) => (files - {s})[d := h]
    case Delete(p, _) => files - {p}
  }

  function PutPre(files: Files, t: Target): Files {
    match t
    case Replace(p, pre, _) => Put(files, p, pre)
    case Move(s, d, h) => (files - {d})[s := h]
    case Delete(p, g) => files[p := g]
  }

  /** A replacement that writes the bytes already there. */
  predicate NoOp(t: Target) {
    t.Replace? && t.pre == Some(t.post)
  }

  ghost predicate WellFormed(ts: seq<Target>) {
    && |ts| > 0
    && (forall i | 0 <= i < |ts| :: ts[i].Move? ==> ts[i].src != ts[i].dst)
    && (forall i, j | 0 <= i < j < |ts| :: Paths(ts[i]) !! Paths(ts[j]))
  }

  datatype TargetState = PostimagePresent | StagedAvailable | Conflict

  /** Classify one target from what is on disk; an unusable backup or stage is a conflict. */
  function Snapshot(files: Files, staged: Option<Digest>, backup: Option<Digest>, t: Target): TargetState {
    if backup != BackupOf(t) then Conflict
    else if IsPost(files, t) then PostimagePresent
    else if !IsPre(files, t) then Conflict
    else if t.Replace? && staged != Some(t.post) then Conflict
    else StagedAvailable
  }

  datatype RecoveryState =
    | Clean
    | InvalidIntent
    | Prepared
    | PartiallyApplied
    | FullyReplacedAwaitingAudit
    | RecoveryConflict

  function Classify(states: seq<TargetState>): RecoveryState {
    if Conflict in states then RecoveryConflict
    else if StagedAvailable !in states then FullyReplacedAwaitingAudit
    else if PostimagePresent !in states then Prepared
    else PartiallyApplied
  }

  /** Every target in one of its two images, everything else as in `base`. */
  ghost predicate Between(base: Files, files: Files, ts: seq<Target>) {
    && (forall i | 0 <= i < |ts| :: IsPre(base, ts[i]))
    && (forall i | 0 <= i < |ts| :: IsPre(files, ts[i]) || IsPost(files, ts[i]))
    && Elsewhere(base, files, ts)
  }

  ghost predicate Touched(ts: seq<Target>, p: Path) {
    exists i :: 0 <= i < |ts| && p in Paths(ts[i])
  }

  ghost predicate Elsewhere(base: Files, files: Files, ts: seq<Target>) {
    forall p: Path :: !Touched(ts, p) ==> At(base, p) == At(files, p)
  }

  ghost predicate AllPre(files: Files, ts: seq<Target>) {
    forall i | 0 <= i < |ts| :: IsPre(files, ts[i])
  }

  ghost predicate AllPost(files: Files, ts: seq<Target>) {
    forall i | 0 <= i < |ts| :: IsPost(files, ts[i])
  }

  lemma SameFiles(a: Files, b: Files)
    requires forall p: Path :: At(a, p) == At(b, p)
    ensures a == b
  {
    forall p: Path ensures (p in a <==> p in b) && (p in a ==> a[p] == b[p]) {
      assert At(a, p) == At(b, p);
    }
  }

  /** When every target is back at its preimage, the files are exactly those of `base`. */
  lemma AllPreIsBase(base: Files, files: Files, ts: seq<Target>)
    requires Between(base, files, ts) && AllPre(files, ts)
    ensures files == base
  {
    forall p: Path ensures At(base, p) == At(files, p) {
      if Touched(ts, p) {
        var i :| 0 <= i < |ts| && p in Paths(ts[i]);
        assert IsPre(base, ts[i]) && IsPre(files, ts[i]);
      }
    }
    SameFiles(files, base);
  }

  /** One target moved to the other image leaves all the others where they were. */
  lemma MoveOneTarget(base: Files, files: Files, ts: seq<Target>, i: nat, files': Files)
    requires WellFormed(ts) && Between(base, files, ts) && i < |ts|
    requires files' == PutPost(files, ts[i]) || files' == PutPre(files, ts[i])
    ensures Between(base, files', ts)
    ensures files' == PutPost(files, ts[i]) ==> IsPost(files', ts[i])
    ensures files' == PutPre(files, ts[i]) ==> IsPre(files', ts[i])
    ensures forall j | 0 <= j < |ts| && j != i ::
              (IsPre(files', ts[j]) <==> IsPre(files, ts[j])) && (IsPost(files', ts[j]) <==> IsPost(files, ts[j]))
  {
    assert forall p: Path :: p !in Paths(ts[i]) ==> At(files', p) == At(files, p);
    forall j | 0 <= j < |ts| && j != i
      ensures (IsPre(files', ts[j]) <==> IsPre(files, ts[j])) && (IsPost(files', ts[j]) <==> IsPost(files, ts[j]))
    {
      assert Paths(ts[i]) !! Paths(ts[j]);
    }
    assert ts[i].Move? ==> ts[i].src != ts[i].dst;
    forall p: Path | !Touched(ts, p) ensures At(base, p) == At(files', p) {
      assert p !in Paths(ts[i]);
    }
  }
}
