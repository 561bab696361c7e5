/** Artifact identifiers and the paths their files are preserved under. */
module Destinations {
  import opened Options
  import opened Text

  const QUARANTINE := "00_inbox/quarantine"
  const PROCESSED := "01_processed"

  /** A kept file suffix: none, or a dot and one to sixteen lower-case letters or digits. */
  predicate SafeSuffix(s: string) {
    s == "" || (2 <= |s| <= 17 && s[0] == '.' && forall i | 1 <= i < |s| :: 'a' <= s[i] <= 'z' || IsDigit(s[i]))
  }

  function Marker(index: nat): string {
    if index == 0 then "" else "-sidecar-" + Pad(index, 2)
  }

  /** Index 0 is the original, `n` the n-th sidecar. */
  function DestinationPath(zone: string, id: string, index: nat, suffix: string): string {
    zone + "/" + (id + Marker(index)) + suffix
  }

  ghost predicate NoDot(s: string) {
    forall i | 0 <= i < |s| :: s[i] != '.'
  }

  // ------------------------------------------------------------- injectivity

  lemma OnlyDot(a: string, s: string, i: nat)
    requires NoDot(a) && SafeSuffix(s) && i < |a + s| && (a + s)[i] == '.'
    ensures i == |a|
  {
  }

  /** The suffix starts at the only dot. */
  lemma CutAtDot(a: string, s: string, b: string, t: string)
    requires NoDot(a) && NoDot(b) && SafeSuffix(s) && SafeSuffix(t) && a + s == b + t
    ensures a == b && s == t
  {
    if |a| < |b| {
      OnlyDot(b, t, |a|);
    } else if |b| < |a| {
      OnlyDot(a, s, |b|);
    }
    assert (a + s)[..|a|] == a && (b + t)[..|b|] == b;
    assert (a + s)[|a|..] == s && (b + t)[|b|..] == t;
  }

  lemma CutPrefix(z: string, a: string, b: string)
    requires z + a == z + b
    ensures a == b
  {
    assert (z + a)[|z|..] == a && (z + b)[|z|..] == b;
  }

  lemma LastDash(a: string, p: string, i: nat)
    requires AllDigits(p) && i < |a + "-" + p| && (a + "-" + p)[i] == '-'
    ensures i <= |a|
  {
  }

  /** Everything before the last dash. */
  lemma CutAtDash(a: string, p: string, b: string, q: string)
    requires AllDigits(p) && AllDigits(q) && a + "-" + p == b + "-" + q
    ensures a == b && p == q
  {
    var x, y := a + "-" + p, b + "-" + q;
    LastDash(b, q, |a|);
    LastDash(a, p, |b|);
    assert x[..|a|] == a && y[..|b|] == b;
    assert x[|a| + 1..] == p && y[|b| + 1..] == q;
  }

  lemma MarkerHasNoDot(index: nat)
    ensures NoDot(Marker(index))
  {
  }

  lemma SameBase(zone: string, a: string, i: nat, s: string, b: string, j: nat, t: string)
    requires NoDot(a) && NoDot(b) && SafeSuffix(s) && SafeSuffix(t)
    ensures DestinationPath(zone, a, i, s) == DestinationPath(zone, b, j, t) <==>
              a + Marker(i) == b + Marker(j) && s == t
  {
    MarkerHasNoDot(i);
    MarkerHasNoDot(j);
    if DestinationPath(zone, a, i, s) == DestinationPath(zone, b, j, t) {
      assert DestinationPath(zone, a, i, s) == (zone + "/") + ((a + Marker(i)) + s);
      assert DestinationPath(zone, b, j, t) == (zone + "/") + ((b + Marker(j)) + t);
      CutPrefix(zone + "/", (a + Marker(i)) + s, (b + Marker(j)) + t);
      CutAtDot(a + Marker(i), s, b + Marker(j), t);
    }
  }

  lemma MarkerInjective(i: nat, j: nat)
    requires Marker(i) == Marker(j)
    ensures i == j
  {
    if i > 0 && j > 0 {
      CutPrefix("-sidecar-", Pad(i, 2), Pad(j, 2));
      PadInjective(i, j, 2);
    }
  }

  /** The files of one artifact never share a destination. */
  lemma OwnDestinationsDiffer(zone: string, id: string, i: nat, s: string, j: nat, t: string)
    requires NoDot(id) && SafeSuffix(s) && SafeSuffix(t) && i != j
    ensures DestinationPath(zone, id, i, s) != DestinationPath(zone, id, j, t)
  {
    SameBase(zone, id, i, s, id, j, t);
    if id + Marker(i) == id + Marker(j) {
      CutPrefix(id, Marker(i), Marker(j));
      MarkerInjective(i, j);
    }
  }

  lemma SidecarsOfOne(a: string, i: nat, b: string, j: nat)
    requires i > 0 && j > 0 && a + Marker(i) == b + Marker(j)
    ensures a == b
  {
    assert a + Marker(i) == (a + "-sidecar") + "-" + Pad(i, 2);
    assert b + Marker(j) == (b + "-sidecar") + "-" + Pad(j, 2);
    CutAtDash(a + "-sidecar", Pad(i, 2), b + "-sidecar", Pad(j, 2));
    assert (a + "-sidecar")[..|a|] == a && (b + "-sidecar")[..|b|] == b;
  }

  /** MAIN: files of two artifacts share a destination exactly when one identifier spells the other's sidecar. */
  lemma DestinationsCollideExactly(zone: string, a: string, i: nat, s: string, b: string, j: nat, t: string)
    requires NoDot(a) && NoDot(b) && SafeSuffix(s) && SafeSuffix(t) && a != b
    ensures DestinationPath(zone, a, i, s) == DestinationPath(zone, b, j, t) <==>
              s == t && ((i > 0 && j == 0 && b == a + Marker(i)) || (i == 0 && j > 0 && a == b + Marker(j)))
  {
    SameBase(zone, a, i, s, b, j, t);
    assert a + "" == a && b + "" == b;
    if a + Marker(i) == b + Marker(j) {
      if i > 0 && j > 0 {
        SidecarsOfOne(a, i, b, j);
      }
    }
    if i == 0 {
      assert a + Marker(0) == a;
    }
    if j == 0 {
      assert b + Marker(0) == b;
    }
  }

  /** Both identifiers can be allocated on one day, so the collision is real. */
  lemma SidecarNamesakeCollides(prefix: string, s: string)
    requires NoDot(prefix) && SafeSuffix(s)
    ensures var a := ArtifactId(prefix, 1); var b := ArtifactId(a + "-sidecar", 1);
            a != b && DestinationPath(PROCESSED, a, 1, s) == DestinationPath(PROCESSED, b, 0, s)
  {
    var a := ArtifactId(prefix, 1);
    var b := ArtifactId(a + "-sidecar", 1);
    assert b == a + Marker(1) by {
      assert a + "-sidecar" + "-" + Pad(1, 2) == a + ("-sidecar-" + Pad(1, 2));
    }
    assert a + Marker(1) == b + Marker(0);
  }

  lemma LeavesTheRawZone(id: string, index: nat, suffix: string)
    ensures !("00_inbox/raw/" <= DestinationPath(QUARANTINE, id, index, suffix))
    ensures !("00_inbox/raw/" <= DestinationPath(PROCESSED, id, index, suffix))
  {
    assert DestinationPath(QUARANTINE, id, index, suffix)[9] == 'q' && "00_inbox/raw/"[9] == 'r';
    assert DestinationPath(PROCESSED, id, index, suffix)[1] == '1' && "00_inbox/raw/"[1] == '0';
  }

  // -------------------------------------------------------------- allocation

  function ArtifactId(prefix: string, sequence: nat): string {
    prefix + "-" + Pad(sequence, 2)
  }

  lemma ArtifactIdHasNoDot(prefix: string, sequence: nat)
    requires NoDot(prefix)
    ensures NoDot(ArtifactId(prefix, sequence))
  {
  }

  ghost predicate LowestFree(used: set<string>, prefix: string, n: nat) {
    1 <= n < 100 && ArtifactId(prefix, n) !in used && forall k | 1 <= k < n :: ArtifactId(prefix, k) in used
  }

  /** The lowest free daily sequence number of a file name, or nothing after ninety-nine. */
  method AllocateArtifactId(used: set<string>, prefix: string) returns (r: Option<string>)
    ensures r.Some? ==> r.value !in used && exists n :: LowestFree(used, prefix, n) && r.value == ArtifactId(prefix, n)
    ensures r.None? <==> forall k | 1 <= k < 100 :: ArtifactId(prefix, k) in used
  {
    var sequence := 1;
    while sequence < 100
      invariant 1 <= sequence <= 100
      invariant forall k | 1 <= k < sequence :: ArtifactId(prefix, k) in used
    {
      if ArtifactId(prefix, sequence) !in used {
        assert LowestFree(used, prefix, sequence);
        return Some(ArtifactId(prefix, sequence));
      }
      sequence := sequence + 1;
    }
    r := None;
  }
}
