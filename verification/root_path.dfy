/** Following authored task parents to a root, over an arbitrary finite parent map, cycles included. */
module RootPath {
  import opened Options
  import opened Text

  type Path = string
  type Parents = map<Path, Option<Path>>

  function Step(parents: Parents, x: Path): Option<Path> {
    if x in parents then parents[x] else None
  }

  /** `min(xs, key=str.casefold)`: the first element with the least key. */
  function MinBy(xs: seq<Path>, fold: Path -> string): (r: Path)
    requires xs != []
    ensures r in xs
  {
    if |xs| == 1 then xs[0]
    else
      var rest := MinBy(xs[1..], fold);
      if LexLeq(fold(xs[0]), fold(rest)) then xs[0] else rest
  }

  function Index(xs: seq<Path>, x: Path): (i: nat)
    requires x in xs
    ensures i < |xs| && xs[i] == x && x !in xs[..i]
  {
    if xs[0] == x then 0 else 1 + Index(xs[1..], x)
  }

  ghost predicate NoRepeats(xs: seq<Path>) {
    forall i, j | 0 <= i < j < |xs| :: xs[i] != xs[j]
  }

  /** What the loop computes from a chain already walked: the root, and whether the depth is flattened. */
  function Walk(parents: Parents, chain: seq<Path>, current: Path, fold: Path -> string): (Path, bool)
    decreases parents.Keys - Elements(chain), current in chain
  {
    if current in chain then (MinBy(chain[Index(chain, current)..], fold), true)
    else
      match Step(parents, current)
      case None => (current, |chain| + 1 > 2)
      case Some(parent) =>
        assert current in parents.Keys - Elements(chain) && current !in parents.Keys - Elements(chain + [current]);
        Walk(parents, chain + [current], parent, fold)
  }

  function Elements(xs: seq<Path>): set<Path> {
    set x | x in xs
  }

  function Root(parents: Parents, x: Path, fold: Path -> string): Path {
    Walk(parents, [], x, fold).0
  }

  function Flattened(parents: Parents, x: Path, fold: Path -> string): bool {
    Walk(parents, [], x, fold).1
  }

  /** The loop itself: it ends because every round adds a path with a parent to the chain. */
  method RootTaskPath(start: Path, parents: Parents, fold: Path -> string) returns (root: Path, flattened: bool)
    ensures root == Root(parents, start, fold) && flattened == Flattened(parents, start, fold)
  {
    var chain: seq<Path> := [];
    var current := start;
    while true
      invariant Walk(parents, chain, current, fold) == Walk(parents, [], start, fold)
      decreases parents.Keys - Elements(chain), current in chain
    {
      if current in chain {
        return MinBy(chain[Index(chain, current)..], fold), true;
      }
      var parent := Step(parents, current);
      if parent.None? {
        return current, |chain| + 1 > 2;
      }
      assert current in parents.Keys - Elements(chain) && current !in parents.Keys - Elements(chain + [current]);
      chain := chain + [current];
      current := parent.value;
    }
  }

  // ------------------------------------------------------------- cycles

  ghost predicate Link(parents: Parents, xs: seq<Path>, next: Path, i: nat)
    requires i < |xs|
  {
    Step(parents, xs[i]) == Some(if i + 1 < |xs| then xs[i + 1] else next)
  }

  /** A parent chain that visits `xs` in order and continues with `next`. */
  ghost predicate Follows(parents: Parents, xs: seq<Path>, next: Path) {
    forall i | 0 <= i < |xs| :: Link(parents, xs, next, i)
  }

  lemma FollowsOneMore(parents: Parents, xs: seq<Path>, current: Path, next: Path)
    requires Follows(parents, xs, current) && Step(parents, current) == Some(next)
    ensures Follows(parents, xs + [current], next)
  {
    forall i | 0 <= i < |xs| + 1 ensures Link(parents, xs + [current], next, i) {
      assert i < |xs| ==> Link(parents, xs, current, i);
    }
  }

  lemma FollowsSuffix(parents: Parents, xs: seq<Path>, next: Path, i: nat)
    requires Follows(parents, xs, next) && i <= |xs|
    ensures Follows(parents, xs[i..], next)
  {
    forall k | 0 <= k < |xs| - i ensures Link(parents, xs[i..], next, k) {
      assert Link(parents, xs, next, i + k);
    }
  }

  ghost predicate IsCycle(parents: Parents, xs: seq<Path>) {
    xs != [] && NoRepeats(xs) && Follows(parents, xs, xs[0])
  }

  ghost predicate OnCycle(parents: Parents, x: Path) {
    exists cycle: seq<Path> :: IsCycle(parents, cycle) && cycle[0] == x
  }

  lemma ClosedChain(parents: Parents, xs: seq<Path>)
    requires xs != [] && NoRepeats(xs) && Follows(parents, xs, xs[0])
    ensures OnCycle(parents, xs[0])
  {
    assert IsCycle(parents, xs);
  }

  lemma Rotate(parents: Parents, cycle: seq<Path>, i: nat)
    requires IsCycle(parents, cycle) && i < |cycle|
    ensures IsCycle(parents, cycle[i..] + cycle[..i]) && (cycle[i..] + cycle[..i])[0] == cycle[i]
  {
    var turned := cycle[i..] + cycle[..i];
    forall k | 0 <= k < |turned| ensures Link(parents, turned, turned[0], k) {
      var j := if k < |cycle| - i then i + k else k - (|cycle| - i);
      assert turned[k] == cycle[j];
      assert Link(parents, cycle, cycle[0], j);
    }
  }

  /** Walking a whole cycle from its first element gives the least path on it. */
  lemma {:induction false} WalkCycle(parents: Parents, cycle: seq<Path>, k: nat, fold: Path -> string)
    requires IsCycle(parents, cycle) && k <= |cycle|
    ensures Walk(parents, cycle[..k], if k < |cycle| then cycle[k] else cycle[0], fold) == (MinBy(cycle, fold), true)
    decreases |cycle| - k
  {
    if k == |cycle| {
      assert cycle[..k] == cycle && Index(cycle, cycle[0]) == 0;
      assert cycle[0..] == cycle;
    } else {
      assert Link(parents, cycle, cycle[0], k);
      assert cycle[..k] + [cycle[k]] == cycle[..k + 1];
      WalkCycle(parents, cycle, k + 1, fold);
    }
  }

  lemma CycleRoot(parents: Parents, cycle: seq<Path>, fold: Path -> string)
    requires IsCycle(parents, cycle)
    ensures Root(parents, cycle[0], fold) == MinBy(cycle, fold)
  {
    WalkCycle(parents, cycle, 0, fold);
    assert cycle[..0] == [];
  }

  /** Every walk ends at a parentless path or at the least path of a cycle. */
  lemma {:induction false} WalkEnds(parents: Parents, chain: seq<Path>, current: Path, fold: Path -> string)
    returns (cycle: seq<Path>)
    requires NoRepeats(chain) && Follows(parents, chain, current)
    ensures var root := Walk(parents, chain, current, fold).0;
            if cycle == [] then Step(parents, root) == None
            else IsCycle(parents, cycle) && root == MinBy(cycle, fold)
    decreases parents.Keys - Elements(chain), current in chain
  {
    if current in chain {
      var i := Index(chain, current);
      cycle := chain[i..];
      FollowsSuffix(parents, chain, current, i);
    } else {
      var parent := Step(parents, current);
      if parent.None? {
        cycle := [];
      } else {
        assert current in parents.Keys - Elements(chain) && current !in parents.Keys - Elements(chain + [current]);
        FollowsOneMore(parents, chain, current, parent.value);
        cycle := WalkEnds(parents, chain + [current], parent.value, fold);
      }
    }
  }

  // ------------------------------------------------------------- minimum

  lemma {:induction false} MinByLeast(xs: seq<Path>, fold: Path -> string, i: nat)
    requires i < |xs|
    ensures LexLeq(fold(MinBy(xs, fold)), fold(xs[i]))
  {
    LexReflexive(fold(xs[i]));
    if |xs| > 1 {
      var rest := MinBy(xs[1..], fold);
      LexTotal(fold(xs[0]), fold(rest));
      if i > 0 {
        MinByLeast(xs[1..], fold, i - 1);
        if LexLeq(fold(xs[0]), fold(rest)) {
          LexTransitive(fold(xs[0]), fold(rest), fold(xs[i]));
        }
      }
    }
  }

  /** The first element is returned exactly when nothing is smaller than it. */
  lemma FirstIsMin(xs: seq<Path>, fold: Path -> string)
    requires xs != []
    ensures MinBy(xs, fold) == xs[0] <==> forall i | 0 <= i < |xs| :: LexLeq(fold(xs[0]), fold(xs[i]))
  {
    if MinBy(xs, fold) == xs[0] {
      forall i | 0 <= i < |xs| ensures LexLeq(fold(xs[0]), fold(xs[i])) {
        MinByLeast(xs, fold, i);
      }
    }
  }

  lemma RotationKeepsLeast(cycle: seq<Path>, i: nat, fold: Path -> string)
    requires i < |cycle| && cycle[i] == MinBy(cycle, fold)
    ensures MinBy(cycle[i..] + cycle[..i], fold) == cycle[i]
  {
    var turned := cycle[i..] + cycle[..i];
    forall k | 0 <= k < |turned| ensures LexLeq(fold(turned[0]), fold(turned[k])) {
      MinByLeast(cycle, fold, if k < |cycle| - i then i + k else k - (|cycle| - i));
    }
    FirstIsMin(turned, fold);
  }

  /** MAIN: the root of a root is itself, whatever the parents and even with case-fold ties. */
  lemma RootIsFixed(parents: Parents, x: Path, fold: Path -> string)
    ensures Root(parents, Root(parents, x, fold), fold) == Root(parents, x, fold)
  {
    var cycle := WalkEnds(parents, [], x, fold);
    if cycle != [] {
      var i := Index(cycle, MinBy(cycle, fold));
      Rotate(parents, cycle, i);
      RotationKeepsLeast(cycle, i, fold);
      CycleRoot(parents, cycle[i..] + cycle[..i], fold);
    }
  }

  /** A root has no parent, or lies on a cycle on which nothing sorts before it. */
  lemma RootMeaning(parents: Parents, x: Path, fold: Path -> string)
    ensures var r := Root(parents, x, fold);
            Step(parents, r) == None ||
            (exists cycle: seq<Path> :: IsCycle(parents, cycle) && cycle[0] == r
                && forall i | 0 <= i < |cycle| :: LexLeq(fold(r), fold(cycle[i])))
  {
    var cycle := WalkEnds(parents, [], x, fold);
    if cycle != [] {
      var i := Index(cycle, MinBy(cycle, fold));
      var turned := cycle[i..] + cycle[..i];
      Rotate(parents, cycle, i);
      RotationKeepsLeast(cycle, i, fold);
      FirstIsMin(turned, fold);
    }
  }

  // ----------------------------------------------------- root of the parent

  /** Off the cycle, the first path of the chain does not change where the walk ends. */
  lemma {:induction false} WalkForgetsFirst(parents: Parents, x: Path, chain: seq<Path>, current: Path,
                                            fold: Path -> string)
    requires NoRepeats([x] + chain) && Follows(parents, [x] + chain, current) && !OnCycle(parents, x)
    ensures Walk(parents, [x] + chain, current, fold).0 == Walk(parents, chain, current, fold).0
    decreases parents.Keys - Elements([x] + chain), current in chain
  {
    var all := [x] + chain;
    if current == x {
      ClosedChain(parents, all);
      assert false;
    } else if current in chain {
      assert Index(all, current) == 1 + Index(chain, current) by {
        assert all[1..] == chain;
      }
      assert all[1 + Index(chain, current)..] == chain[Index(chain, current)..];
    } else {
      var parent := Step(parents, current);
      if parent.Some? {
        assert current in parents.Keys - Elements(all)
            && current !in parents.Keys - Elements([x] + (chain + [current]));
        assert all + [current] == [x] + (chain + [current]);
        FollowsOneMore(parents, all, current, parent.value);
        WalkForgetsFirst(parents, x, chain + [current], parent.value, fold);
      }
    }
  }

  /** On a cycle, `x` ties with another path and nothing on the cycle sorts before it. */
  ghost predicate TiedLeast(parents: Parents, x: Path, fold: Path -> string) {
    exists cycle: seq<Path> ::
      && IsCycle(parents, cycle) && cycle[0] == x
      && MinBy(cycle, fold) == x
      && exists i :: 0 < i < |cycle| && fold(cycle[i]) == fold(x)
  }

  lemma {:induction false} SamePrefix(parents: Parents, a: seq<Path>, b: seq<Path>, n: nat)
    requires a != [] && b != [] && Follows(parents, a, a[0]) && Follows(parents, b, b[0])
    requires a[0] == b[0] && n <= |a| && n <= |b|
    ensures a[..n] == b[..n]
  {
    if n > 1 {
      SamePrefix(parents, a, b, n - 1);
      assert a[n - 2] == a[..n - 1][n - 2] == b[..n - 1][n - 2] == b[n - 2];
      assert Link(parents, a, a[0], n - 2) && Link(parents, b, b[0], n - 2);
      assert a[..n] == a[..n - 1] + [a[n - 1]] && b[..n] == b[..n - 1] + [b[n - 1]];
    } else if n == 1 {
      assert a[..1] == [a[0]] && b[..1] == [b[0]];
    }
  }

  lemma LongerRepeats(parents: Parents, a: seq<Path>, b: seq<Path>)
    requires a != [] && Follows(parents, a, a[0]) && |a| < |b| && Follows(parents, b, b[0]) && a[0] == b[0]
    ensures b[|a|] == b[0]
  {
    SamePrefix(parents, a, b, |a|);
    assert a[|a| - 1] == b[..|a|][|a| - 1] == b[|a| - 1];
    assert Link(parents, a, a[0], |a| - 1) && Link(parents, b, b[0], |a| - 1);
  }

  /** A path lies on at most one cycle. */
  lemma SameCycle(parents: Parents, a: seq<Path>, b: seq<Path>)
    requires IsCycle(parents, a) && IsCycle(parents, b) && a[0] == b[0]
    ensures a == b
  {
    if |a| < |b| {
      LongerRepeats(parents, a, b);
    } else if |b| < |a| {
      LongerRepeats(parents, b, a);
    } else {
      SamePrefix(parents, a, b, |a|);
      assert a[..|a|] == a && b[..|b|] == b;
    }
  }

  /** Moving the first element to the back changes the first minimum only when it was a tied minimum. */
  lemma {:induction false} MinByAppend(xs: seq<Path>, y: Path, fold: Path -> string)
    requires xs != []
    ensures MinBy(xs + [y], fold) == if LexLeq(fold(MinBy(xs, fold)), fold(y)) then MinBy(xs, fold) else y
  {
    if |xs| > 1 {
      MinByAppend(xs[1..], y, fold);
      assert (xs + [y])[1..] == xs[1..] + [y];
      var rest := MinBy(xs[1..], fold);
      LexTotal(fold(xs[0]), fold(rest));
      LexTotal(fold(rest), fold(y));
      LexTotal(fold(xs[0]), fold(y));
      if LexLeq(fold(xs[0]), fold(rest)) && LexLeq(fold(rest), fold(y)) {
        LexTransitive(fold(xs[0]), fold(rest), fold(y));
      }
      if LexLeq(fold(rest), fold(xs[0])) && LexLeq(fold(xs[0]), fold(y)) {
        LexTransitive(fold(rest), fold(xs[0]), fold(y));
      }
      if LexLeq(fold(y), fold(xs[0])) && LexLeq(fold(xs[0]), fold(rest)) {
        LexTransitive(fold(y), fold(xs[0]), fold(rest));
      }
      if LexLeq(fold(xs[0]), fold(y)) && LexLeq(fold(y), fold(rest)) {
        LexTransitive(fold(xs[0]), fold(y), fold(rest));
      }
    }
  }

  lemma {:induction false} MinBySplit(xs: seq<Path>, y: Path, fold: Path -> string)
    requires xs != []
    ensures MinBy([y] + xs, fold) == if LexLeq(fold(y), fold(MinBy(xs, fold))) then y else MinBy(xs, fold)
  {
    assert ([y] + xs)[1..] == xs;
  }

  lemma TurnOnce(cycle: seq<Path>, fold: Path -> string)
    requires |cycle| > 1 && NoRepeats(cycle)
    ensures MinBy(cycle, fold) != MinBy(cycle[1..] + [cycle[0]], fold) <==>
              MinBy(cycle, fold) == cycle[0] && exists i :: 0 < i < |cycle| && fold(cycle[i]) == fold(cycle[0])
  {
    var x, rest := cycle[0], cycle[1..];
    var least := MinBy(rest, fold);
    assert cycle == [x] + rest;
    MinBySplit(rest, x, fold);
    MinByAppend(rest, x, fold);
    LexTotal(fold(x), fold(least));
    var k := Index(rest, least);
    assert cycle[k + 1] == least && least != x;
    if LexLeq(fold(x), fold(least)) {
      if i :| 0 < i < |cycle| && fold(cycle[i]) == fold(x) {
        MinByLeast(rest, fold, i - 1);
        LexAntisymmetric(fold(x), fold(least));
      }
      if LexLeq(fold(least), fold(x)) {
        LexAntisymmetric(fold(x), fold(least));
      }
    }
  }

  /** MAIN: exactly when a task and its parent are filed under different roots. */
  lemma ParentHasSameRoot(parents: Parents, x: Path, p: Path, fold: Path -> string)
    requires Step(parents, x) == Some(p)
    ensures Root(parents, x, fold) != Root(parents, p, fold) <==> TiedLeast(parents, x, fold)
  {
    if OnCycle(parents, x) {
      var cycle: seq<Path> :| IsCycle(parents, cycle) && cycle[0] == x;
      CycleRoot(parents, cycle, fold);
      assert Link(parents, cycle, cycle[0], 0);
      if |cycle| == 1 {
        forall other: seq<Path> | IsCycle(parents, other) && other[0] == x ensures other == cycle {
          SameCycle(parents, cycle, other);
        }
      } else {
        Rotate(parents, cycle, 1);
        assert cycle[..1] == [x];
        CycleRoot(parents, cycle[1..] + [x], fold);
        TurnOnce(cycle, fold);
        forall other: seq<Path> | IsCycle(parents, other) && other[0] == x ensures other == cycle {
          SameCycle(parents, cycle, other);
        }
      }
    } else {
      FollowsOneMore(parents, [], x, p);
      assert [] + [x] == [x] + [];
      WalkForgetsFirst(parents, x, [], p, fold);
    }
  }

  /** So distinct case-folded paths on the cycle are enough, and with a tie it does fail. */
  lemma TieSplitsCycle(fold: Path -> string)
    requires fold("a") == fold("A")
    ensures var parents: Parents := map["a" := Some("A"), "A" := Some("a")];
            Root(parents, "a", fold) == "a" && Root(parents, "A", fold) == "A"
  {
    var parents: Parents := map["a" := Some("A"), "A" := Some("a")];
    var cycle := ["a", "A"];
    forall i | 0 <= i < 2 ensures Link(parents, cycle, "a", i) {
    }
    LexReflexive(fold("a"));
    CycleRoot(parents, cycle, fold);
    Rotate(parents, cycle, 1);
    assert cycle[1..] + cycle[..1] == ["A", "a"];
    CycleRoot(parents, ["A", "a"], fold);
  }

  lemma LongChainIsFlattened(parents: Parents, chain: seq<Path>, current: Path, fold: Path -> string)
    requires |chain| >= 2
    ensures Walk(parents, chain, current, fold).1
    decreases parents.Keys - Elements(chain), current in chain
  {
    if current !in chain {
      var parent := Step(parents, current);
      if parent.Some? {
        assert current in parents.Keys - Elements(chain) && current !in parents.Keys - Elements(chain + [current]);
        LongChainIsFlattened(parents, chain + [current], parent.value, fold);
      }
    }
  }

  /** MAIN: a path is reported as flattened exactly when its parent has a parent, self-parents included. */
  lemma FlattenedMeaning(parents: Parents, x: Path, fold: Path -> string)
    ensures Flattened(parents, x, fold) <==>
              Step(parents, x).Some? && Step(parents, Step(parents, x).value).Some?
  {
    var p := Step(parents, x);
    if p.Some? {
      assert [] + [x] == [x];
      assert Walk(parents, [], x, fold) == Walk(parents, [x], p.value, fold);
      if p.value != x {
        assert p.value !in [x];
        var q := Step(parents, p.value);
        if q.Some? {
          assert Walk(parents, [x], p.value, fold) == Walk(parents, [x] + [p.value], q.value, fold);
          LongChainIsFlattened(parents, [x] + [p.value], q.value, fold);
        }
      }
    }
  }

  /** Parents are themselves in the map. */
  ghost predicate Closed(parents: Parents) {
    forall x | x in parents && parents[x].Some? :: parents[x].value in parents
  }

  lemma {:induction false} WalkStaysInside(parents: Parents, chain: seq<Path>, current: Path, fold: Path -> string)
    requires Closed(parents) && current in parents && forall c | c in chain :: c in parents
    ensures Walk(parents, chain, current, fold).0 in parents
    decreases parents.Keys - Elements(chain), current in chain
  {
    if current !in chain {
      var parent := Step(parents, current);
      if parent.Some? {
        assert current in parents.Keys - Elements(chain) && current !in parents.Keys - Elements(chain + [current]);
        WalkStaysInside(parents, chain + [current], parent.value, fold);
      }
    }
  }

  lemma RootIsInside(parents: Parents, x: Path, fold: Path -> string)
    requires Closed(parents) && x in parents
    ensures Root(parents, x, fold) in parents
  {
    WalkStaysInside(parents, [], x, fold);
  }
}
