/** Where the artifact life cycle stops short of its promises, as concrete reachable states. */
module LifecycleLimits {
  import opened Options
  import opened Staging
  import opened Lifecycle
  import opened LifecycleRuns
  import opened Inbox

  /** A manifest transaction that is not interrupted. */
  lemma CommitReaches(origin: State, s: State, after: seq<Manifest>)
    requires Reaches(origin, s) && s.stager.Idle? && Changes(s.files, s.manifests, after)
    ensures Reaches(origin, s.(manifests := after))
    ensures Reaches(origin, s.(manifests := after, stager := Transaction(s.manifests, after, false)))
  {
    var begun := s.(stager := Transaction(s.manifests, after, false));
    var written := begun.(manifests := after);
    var recorded := written.(stager := begun.stager.(recorded := true));
    ReachesOneMore(origin, s, Begin(after), begun);
    ReachesOneMore(origin, begun, Write, written);
    ReachesOneMore(origin, written, Record, recorded);
    ReachesOneMore(origin, recorded, Close, s.(manifests := after));
  }

  lemma {:induction false} MovesReach(origin: State, s: State, m: Manifest, n: nat)
    requires WellFormedManifest(m) && Relocated(m) && n <= |m.items|
    requires Reaches(origin, s) && s.stager.Moving? && s.stager.targets == Specs(m) && AllPre(s.files, Specs(m))
    ensures Reaches(origin, s.(files := Moved(s.files, m, n)))
    ensures forall i | n <= i < |m.items| :: IsPre(Moved(s.files, m, n), Specs(m)[i])
  {
    if n == 0 {
      assert s.(files := Moved(s.files, m, 0)) == s;
    } else {
      MovesReach(origin, s, m, n - 1);
      var before := s.(files := Moved(s.files, m, n - 1));
      MoveStepLocal(before.files, m, n - 1);
      ReachesOneMore(origin, before, MoveOne(n - 1), s.(files := Moved(s.files, m, n)));
    }
  }

  /** A whole move that is not interrupted. */
  lemma MoveReaches(origin: State, s: State, k: nat)
    requires Reaches(origin, s) && s.stager.Idle? && k < |s.manifests|
    requires WellFormedManifest(s.manifests[k]) && Relocated(s.manifests[k]) && AllPre(s.files, Specs(s.manifests[k]))
    ensures Reaches(origin, s.(files := Moved(s.files, s.manifests[k], |s.manifests[k].items|)))
  {
    var m := s.manifests[k];
    var begun := s.(stager := Moving(k, Specs(m)));
    ReachesOneMore(origin, s, Publish(k), begun);
    MovesReach(origin, begun, m, |m.items|);
    MovedPointwise(s.files, m);
    var moved := begun.(files := Moved(s.files, m, |m.items|));
    assert Next(moved, Finish, s.(files := moved.files));
    ReachesOneMore(origin, moved, Finish, s.(files := moved.files));
  }

  function Pair(id: string, p: Path, d: Digest, c: Path): Manifest {
    Manifest(id, Pending, [Item(p, p, d), Item(c, c, "3")], None, false)
  }

  lemma BothRegistered(files: Files, a: Path, b: Path, c: Path)
    requires IsRaw(a) && IsRaw(b) && IsRaw(c) && a != b && a != c && b != c
    requires files == map[a := "1", b := "2", c := "3"]
    ensures Reaches(Start(files), Start(files).(manifests := [Pair("A", a, "1", c), Pair("B", b, "2", c)]))
  {
    var s0, first, second := Start(files), Pair("A", a, "1", c), Pair("B", b, "2", c);
    ReachesItself(s0);
    RegisterChanges(files, [], first);
    assert [] + [first] == [first];
    CommitReaches(s0, s0, [first]);
    var s1 := s0.(manifests := [first]);
    RegisterChanges(files, [first], second);
    assert [first] + [second] == [first, second];
    CommitReaches(s0, s1, [first, second]);
  }

  lemma FirstArchived(s: State, a: Path, b: Path, c: Path, toA: Path, toC: Path)
    requires IsRaw(a) && IsRaw(b) && IsRaw(c) && a != b && a != c && b != c
    requires !IsRaw(toA) && !IsRaw(toC) && toA != toC
    requires s == Start(map[a := "1", b := "2", c := "3"])
    ensures var m := Manifest("A", Processed, [Item(a, toA, "1"), Item(c, toC, "3")], None, false);
            Reaches(s, s.(manifests := [m, Pair("B", b, "2", c)], files := Moved(s.files, m, 2)))
  {
    BothRegistered(s.files, a, b, c);
    var both := s.(manifests := [Pair("A", a, "1", c), Pair("B", b, "2", c)]);
    var m := Manifest("A", Processed, [Item(a, toA, "1"), Item(c, toC, "3")], None, false);
    ArchiveChanges(s.files, both.manifests, 0, m);
    assert both.manifests[0 := m] == [m, Pair("B", b, "2", c)];
    CommitReaches(s, both, [m, Pair("B", b, "2", c)]);
    var marked := both.(manifests := [m, Pair("B", b, "2", c)]);
    assert AllPre(s.files, Specs(m));
    MoveReaches(s, marked, 0);
  }

  /** Two artifacts registered with the same sidecar: archiving one takes the sidecar from the other. */
  lemma SharedSidecarIsLost(a: Path, b: Path, c: Path, toA: Path, toC: Path)
    requires IsRaw(a) && IsRaw(b) && IsRaw(c) && a != b && a != c && b != c
    requires !IsRaw(toA) && !IsRaw(toC) && toA != toC
    ensures exists s, k :: Reaches(Start(map[a := "1", b := "2", c := "3"]), s) && s.stager.Idle?
                           && 0 <= k < |s.manifests| && !BytesKept(s.files, s.manifests[k])
  {
    var start := Start(map[a := "1", b := "2", c := "3"]);
    FirstArchived(start, a, b, c, toA, toC);
    var m := Manifest("A", Processed, [Item(a, toA, "1"), Item(c, toC, "3")], None, false);
    var end := start.(manifests := [m, Pair("B", b, "2", c)], files := Moved(start.files, m, 2));
    MovedItem(start.files, m, 2, 1);
    assert m.items[1].source == c;
    assert end.manifests[1].items[1] == Item(c, c, "3");
    assert !BytesKept(end.files, end.manifests[1]);
  }

  /**
   Registration reads manifests without looking at the stager, so after a crash it can answer
   `already registered` for a manifest that recovery is about to take back.
   */
  lemma UncommittedIsReported(p: Path, req: Request)
    requires IsRaw(p) && req == Request(p, [], true)
    ensures exists s :: Reaches(Start(map[p := "1"]), s) && |s.manifests| == 1 && Uncommitted(s, 0)
                        && ReplayCandidate(s.files, s.stager.Idle?, s.manifests, req) == Found(s.manifests[0])
                        && s.manifests[0].status == Pending
  {
    var files: Files := map[p := "1"];
    var m := Manifest("A", Pending, [Item(p, p, "1")], None, false);
    ReachesItself(Start(files));
    RegisterChanges(files, [], m);
    assert [] + [m] == [m];
    CommitReaches(Start(files), Start(files), [m]);
    var s := Start(files).(manifests := [m], stager := Transaction([], [m], false));
    OnlyRecordIsFound(files, m, req);
  }

  /** A quarantine's first update writes what is there; rolled back and interrupted, it blocks recovery. */
  lemma NoOpUpdateGetsStuck(p: Path, q: Path)
    requires IsRaw(p) && !IsRaw(q)
    ensures exists s :: Reaches(Start(map[p := "1"]), s) && Stuck(s.stager) && |s.manifests| == 1
  {
    var files: Files := map[p := "1"];
    var m := Manifest("A", Quarantined, [Item(p, q, "1")], None, false);
    ReachesItself(Start(files));
    RegisterChanges(files, [], m);
    assert [] + [m] == [m];
    CommitReaches(Start(files), Start(files), [m]);
    var s := Start(files).(manifests := [m]);
    AuthorizeChanges(files, [m], 0);
    var begun := s.(stager := Transaction([m], [m], false));
    ReachesOneMore(Start(files), s, Begin([m]), begun);
    ReachesOneMore(Start(files), begun, Discard, s.(stager := RolledBack([m], [m])));
    assert Stuck(s.(stager := RolledBack([m], [m])).stager);
  }

  lemma OnlyRecordIsFound(files: Files, m: Manifest, req: Request)
    requires SameRequest(m, req) && m.items[0].preserved == req.path && SourcesUnchanged(files, m) && req.path in files
    ensures ReplayCandidate(files, false, [m], req) == Found(m)
  {
    var records := Records([m]);
    assert |records| == 1 && m in records;
    assert records[0] == m;
  }

  // ------------------------------------------------------------ retry succeeds

  ghost predicate OwnsRequest(s: State, k: nat, req: Request) {
    && k < |s.manifests| && !Arrived(s.files, s.manifests[k]) && SameRequest(s.manifests[k], req)
    && (s.manifests[k].items[0].preserved == req.path || s.manifests[k].items[0].preserved !in s.files)
  }

  lemma SharedPathMeansArrived(files: Files, ms: seq<Manifest>, a: nat, b: nat)
    requires Exclusive(files, ms) && a < |ms| && b < |ms| && a != b
    requires |ms[a].items| > 0 && |ms[b].items| > 0 && ms[a].items[0].source == ms[b].items[0].source
    ensures Arrived(files, ms[a]) || Arrived(files, ms[b])
  {
    assert !Apart(ms[a], ms[b]) && !Apart(ms[b], ms[a]);
  }

  lemma {:induction false} NewestOwner(s: State, k: nat, records: seq<Manifest>, req: Request)
    requires FilesInv(s) && GoodRegistry(s.manifests) && s.stager.Idle? && OwnsRequest(s, k, req)
    requires s.manifests[k] in records && forall m | m in records :: m in s.manifests
    ensures ReplayWithSource(s.files, records, req) == Found(s.manifests[k])
  {
    var m := records[|records| - 1];
    if m == s.manifests[k] {
      assert FilesOk(s, k);
    } else {
      assert m in records && m in s.manifests;
      var j :| 0 <= j < |s.manifests| && s.manifests[j] == m;
      if SameRequest(m, req) {
        assert m.items[0].source == req.path == s.manifests[k].items[0].source;
        SharedPathMeansArrived(s.files, s.manifests, j, k);
        assert WellFormedManifest(m);
        assert m.items[0].preserved in s.files && !IsRaw(m.items[0].preserved);
        assert WellFormedManifest(s.manifests[k]);
      }
      NewestOwner(s, k, records[..|records| - 1], req);
    }
  }

  /** MAIN: repeating a request whose artifact has not reached its destination finds that artifact, not a new one. */
  lemma RetryFindsTheSame(s: State, k: nat, req: Request)
    requires FilesInv(s) && GoodRegistry(s.manifests) && s.stager.Idle? && OwnsRequest(s, k, req)
    ensures ReplayCandidate(s.files, true, s.manifests, req) == Found(s.manifests[k])
  {
    assert FilesOk(s, k);
    assert s.manifests[k].items[0].source == PathAt(req, 0) == req.path;
    assert req.path in s.files;
    NewestOwner(s, k, Records(s.manifests), req);
  }
}
