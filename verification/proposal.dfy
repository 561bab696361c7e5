/** Proposals: the path-collision check and what it buys, independence of the order of operations. */
module Proposals {
  import opened Options
  import opened Staging

  /** Operations with their authored paths; `expected` is the required current hash. */
  datatype Operation =
    | CreateOp(target: string, content: Digest)
    | UpdateOp(target: string, expected: Digest, content: Digest)
    | MoveOp(source: string, destination: string, expected: Digest)
    | DeleteOp(target: string, expected: Digest)

  function PathsOf(op: Operation): seq<string> {
    if op.MoveOp? then [op.source, op.destination] else [op.target]
  }

  ghost function KeysOf(op: Operation, key: string -> Path): set<Path> {
    set p | p in PathsOf(op) :: key(p)
  }

  ghost predicate SelfConsistent(op: Operation, key: string -> Path) {
    op.MoveOp? ==> key(op.source) != key(op.destination)
  }

  ghost predicate Apart(a: Operation, b: Operation, key: string -> Path) {
    KeysOf(a, key) !! KeysOf(b, key)
  }

  ghost predicate CollisionFree(ops: seq<Operation>, key: string -> Path) {
    && (forall i | 0 <= i < |ops| :: SelfConsistent(ops[i], key))
    && forall i, j | 0 <= i < j < |ops| :: Apart(ops[i], ops[j], key)
  }

  ghost predicate Collected(ops: seq<Operation>, seen: set<Path>, key: string -> Path) {
    && (forall k | k in seen :: exists i :: 0 <= i < |ops| && k in KeysOf(ops[i], key))
    && (forall i | 0 <= i < |ops| :: KeysOf(ops[i], key) <= seen)
  }

  /** The nested loop over the paths of one operation. */
  method AddPaths(op: Operation, seen: set<Path>, key: string -> Path) returns (ok: bool, next: set<Path>)
    ensures ok <==> SelfConsistent(op, key) && KeysOf(op, key) !! seen
    ensures ok ==> next == seen + KeysOf(op, key)
  {
    next := seen;
    var paths := PathsOf(op);
    for i := 0 to |paths|
      invariant next == seen + set j | 0 <= j < i :: key(paths[j])
      invariant forall j | 0 <= j < i :: key(paths[j]) !in seen
      invariant forall j, k | 0 <= j < k < i :: key(paths[j]) != key(paths[k])
    {
      var pathKey := key(paths[i]);
      if pathKey in next {
        assert paths[i] in paths && pathKey in KeysOf(op, key);
        if op.MoveOp? {
          assert paths[0] in paths && paths[1] in paths;
        }
        return false, next;
      }
      next := next + {pathKey};
    }
    assert forall j | 0 <= j < |paths| :: key(paths[j]) in KeysOf(op, key) by {
      forall j | 0 <= j < |paths| ensures key(paths[j]) in KeysOf(op, key) {
        assert paths[j] in PathsOf(op);
      }
    }
    ok := true;
  }

  /** Accepts exactly the proposals whose sources, destinations and targets all differ after normalization. */
  method RequirePathsDoNotCollide(ops: seq<Operation>, key: string -> Path) returns (ok: bool)
    ensures ok <==> CollisionFree(ops, key)
  {
    var seen: set<Path> := {};
    for i := 0 to |ops|
      invariant CollisionFree(ops[..i], key) && Collected(ops[..i], seen, key)
    {
      var fine, next := AddPaths(ops[i], seen, key);
      CollisionFreeOneMore(ops, i, seen, key);
      if !fine {
        return false;
      }
      seen := next;
    }
    assert ops[..|ops|] == ops;
    ok := true;
  }

  lemma CollisionFreeOneMore(ops: seq<Operation>, i: nat, seen: set<Path>, key: string -> Path)
    requires i < |ops| && CollisionFree(ops[..i], key) && Collected(ops[..i], seen, key)
    ensures CollisionFree(ops, key) ==> SelfConsistent(ops[i], key) && KeysOf(ops[i], key) !! seen
    ensures SelfConsistent(ops[i], key) && KeysOf(ops[i], key) !! seen ==>
              CollisionFree(ops[..i + 1], key) && Collected(ops[..i + 1], seen + KeysOf(ops[i], key), key)
  {
    var longer := ops[..i + 1];
    assert forall j | 0 <= j < i :: longer[j] == ops[..i][j] == ops[j];
    if CollisionFree(ops, key) {
      forall k | k in seen ensures k !in KeysOf(ops[i], key) {
        var j :| 0 <= j < i && k in KeysOf(ops[..i][j], key);
        assert Apart(ops[j], ops[i], key);
      }
    }
    if SelfConsistent(ops[i], key) && KeysOf(ops[i], key) !! seen {
      forall j, k | 0 <= j < k < |longer| ensures Apart(longer[j], longer[k], key) {
        if k < i {
          assert Apart(ops[..i][j], ops[..i][k], key);
        }
      }
      forall k | k in seen + KeysOf(ops[i], key) ensures exists j :: 0 <= j < |longer| && k in KeysOf(longer[j], key) {
        if k in seen {
          var j :| 0 <= j < i && k in KeysOf(ops[..i][j], key);
          assert k in KeysOf(longer[j], key);
        } else {
          assert k in KeysOf(longer[i], key);
        }
      }
    }
  }

  // --------------------------------------------------------------- meaning

  /** One operation on the files, keyed by normalized path; nothing when its precondition fails. */
  function ApplyOp(files: Files, op: Operation, key: string -> Path): Option<Files> {
    match op
    case CreateOp(t, c) => if key(t) in files then None else Some(files[key(t) := c])
    case UpdateOp(t, e, c) => if At(files, key(t)) != Some(e) then None else Some(files[key(t) := c])
    case MoveOp(s, d, e) =>
      if At(files, key(s)) != Some(e) || key(d) in files then None else Some((files - {key(s)})[key(d) := e])
    case DeleteOp(t, e) => if At(files, key(t)) != Some(e) then None else Some(files - {key(t)})
  }

  /** All the operations in order, all or nothing. */
  function ApplyOps(files: Files, ops: seq<Operation>, key: string -> Path): Option<Files>
    decreases |ops|
  {
    if ops == [] then Some(files)
    else
      var next :- ApplyOp(files, ops[0], key);
      ApplyOps(next, ops[1..], key)
  }

  /** An operation reads and writes its own paths only. */
  lemma ApplyIsLocal(files: Files, op: Operation, key: string -> Path, p: Path)
    requires ApplyOp(files, op, key).Some? && p !in KeysOf(op, key)
    ensures At(ApplyOp(files, op, key).value, p) == At(files, p)
  {
    assert forall q | q in PathsOf(op) :: key(q) in KeysOf(op, key);
    if op.MoveOp? {
      assert op.source in PathsOf(op) && op.destination in PathsOf(op);
    } else {
      assert op.target in PathsOf(op);
    }
  }

  /** What the operation does at its own paths depends on those paths alone. */
  lemma ApplyDependsOnOwn(a: Files, b: Files, op: Operation, key: string -> Path)
    requires forall p | p in KeysOf(op, key) :: At(a, p) == At(b, p)
    ensures ApplyOp(a, op, key).Some? <==> ApplyOp(b, op, key).Some?
    ensures ApplyOp(a, op, key).Some? ==> forall p | p in KeysOf(op, key) ::
              At(ApplyOp(a, op, key).value, p) == At(ApplyOp(b, op, key).value, p)
  {
    if op.MoveOp? {
      assert op.source in PathsOf(op) && op.destination in PathsOf(op);
      assert key(op.source) in KeysOf(op, key) && key(op.destination) in KeysOf(op, key);
      assert KeysOf(op, key) == {key(op.source), key(op.destination)};
    } else {
      assert op.target in PathsOf(op);
      assert key(op.target) in KeysOf(op, key) && KeysOf(op, key) == {key(op.target)};
    }
    assert forall p :: At(a, p) == None <==> p !in a;
    assert forall p :: At(b, p) == None <==> p !in b;
  }

  function Both(files: Files, a: Operation, b: Operation, key: string -> Path): Option<Files> {
    var next :- ApplyOp(files, a, key);
    ApplyOp(next, b, key)
  }

  lemma Swap(files: Files, a: Operation, b: Operation, key: string -> Path)
    requires Apart(a, b, key)
    ensures Both(files, a, b, key) == Both(files, b, a, key)
  {
    var fa, fb := ApplyOp(files, a, key), ApplyOp(files, b, key);
    if fa.Some? {
      forall p | p in KeysOf(b, key) ensures At(fa.value, p) == At(files, p) {
        ApplyIsLocal(files, a, key, p);
      }
      ApplyDependsOnOwn(fa.value, files, b, key);
    }
    if fb.Some? {
      forall p | p in KeysOf(a, key) ensures At(fb.value, p) == At(files, p) {
        ApplyIsLocal(files, b, key, p);
      }
      ApplyDependsOnOwn(fb.value, files, a, key);
    }
    if fa.Some? && fb.Some? {
      var ab, ba := ApplyOp(fa.value, b, key).value, ApplyOp(fb.value, a, key).value;
      forall p: Path ensures At(ab, p) == At(ba, p) {
        SwapAt(files, a, b, key, p);
      }
      SameFiles(ab, ba);
    }
  }

  lemma SwapAt(files: Files, a: Operation, b: Operation, key: string -> Path, p: Path)
    requires Apart(a, b, key) && Both(files, a, b, key).Some? && Both(files, b, a, key).Some?
    requires forall q | q in KeysOf(b, key) ::
              At(Both(files, a, b, key).value, q) == At(ApplyOp(files, b, key).value, q)
    requires forall q | q in KeysOf(a, key) ::
              At(Both(files, b, a, key).value, q) == At(ApplyOp(files, a, key).value, q)
    ensures At(Both(files, a, b, key).value, p) == At(Both(files, b, a, key).value, p)
  {
    var fa, fb := ApplyOp(files, a, key).value, ApplyOp(files, b, key).value;
    if p !in KeysOf(b, key) {
      ApplyIsLocal(fa, b, key, p);
    } else {
      ApplyIsLocal(fb, a, key, p);
    }
    if p !in KeysOf(a, key) && p !in KeysOf(b, key) {
      ApplyIsLocal(files, a, key, p);
      ApplyIsLocal(files, b, key, p);
      ApplyIsLocal(fb, a, key, p);
    }
  }

  function MovedToFront(ops: seq<Operation>, i: nat): seq<Operation>
    requires i < |ops|
  {
    [ops[i]] + Without(ops, i)
  }

  function Without(ops: seq<Operation>, i: nat): seq<Operation>
    requires i < |ops|
  {
    ops[..i] + ops[i + 1..]
  }

  lemma {:induction false} ToFront(files: Files, ops: seq<Operation>, i: nat, key: string -> Path)
    requires i < |ops| && CollisionFree(ops, key)
    ensures ApplyOps(files, MovedToFront(ops, i), key) == ApplyOps(files, ops, key)
    decreases |ops|
  {
    if i == 0 {
      assert MovedToFront(ops, 0) == ops;
    } else {
      var x, y, rest := ops[0], ops[i], Without(ops, i)[1..];
      assert Apart(x, y, key);
      TailIsFree(ops, key);
      assert MovedToFront(ops, i) == [y, x] + rest;
      assert MovedToFront(ops[1..], i - 1) == [y] + rest;
      Swap(files, x, y, key);
      TwoSteps(files, y, x, rest, key);
      TwoSteps(files, x, y, rest, key);
      var next := ApplyOp(files, x, key);
      if next.Some? {
        ToFront(next.value, ops[1..], i - 1, key);
        assert ([x] + ([y] + rest))[1..] == [y] + rest;
      }
      assert [x, y] + rest == [x] + ([y] + rest);
    }
  }

  lemma TwoSteps(files: Files, a: Operation, b: Operation, rest: seq<Operation>, key: string -> Path)
    ensures ApplyOps(files, [a, b] + rest, key) ==
            match Both(files, a, b, key) case None => None case Some(next) => ApplyOps(next, rest, key)
  {
    var all := [a, b] + rest;
    assert all[1..] == [b] + rest && all[1..][1..] == rest;
  }

  lemma TailIsFree(ops: seq<Operation>, key: string -> Path)
    requires ops != [] && CollisionFree(ops, key)
    ensures CollisionFree(ops[1..], key)
  {
    forall i, j | 0 <= i < j < |ops[1..]| ensures Apart(ops[1..][i], ops[1..][j], key) {
      assert Apart(ops[i + 1], ops[j + 1], key);
    }
  }

  lemma WithoutIsFree(ops: seq<Operation>, i: nat, key: string -> Path)
    requires i < |ops| && CollisionFree(ops, key)
    ensures CollisionFree(Without(ops, i), key)
  {
    var rest := Without(ops, i);
    forall j, k | 0 <= j < k < |rest| ensures Apart(rest[j], rest[k], key) {
      var a := if j < i then j else j + 1;
      var b := if k < i then k else k + 1;
      assert Apart(ops[a], ops[b], key);
    }
  }

  /** MAIN: an accepted proposal means the same in every order, refusal included. */
  lemma {:induction false} OrderDoesNotMatter(files: Files, a: seq<Operation>, b: seq<Operation>, key: string -> Path)
    requires CollisionFree(a, key) && multiset(a) == multiset(b)
    ensures ApplyOps(files, a, key) == ApplyOps(files, b, key)
    decreases |b|
  {
    if b == [] {
      assert |multiset(a)| == 0;
      assert a == [];
    } else {
      var i := FindFirst(a, b);
      ToFront(files, a, i, key);
      WithoutIsFree(a, i, key);
      assert MovedToFront(a, i)[1..] == Without(a, i);
      var next := ApplyOp(files, b[0], key);
      if next.Some? {
        OrderDoesNotMatter(next.value, Without(a, i), b[1..], key);
      }
    }
  }

  lemma FindFirst(a: seq<Operation>, b: seq<Operation>) returns (i: nat)
    requires b != [] && multiset(a) == multiset(b)
    ensures i < |a| && a[i] == b[0] && multiset(Without(a, i)) == multiset(b[1..])
  {
    assert b == [b[0]] + b[1..];
    assert b[0] in multiset(b);
    assert b[0] in multiset(a);
    i :| 0 <= i < |a| && a[i] == b[0];
    assert a == a[..i] + [a[i]] + a[i + 1..];
    assert multiset(Without(a, i)) == multiset(a) - multiset{a[i]};
    assert multiset(b[1..]) == multiset(b) - multiset{b[0]};
  }

  /** Without the check the order does matter. */
  lemma CollisionsDependOnOrder(key: string -> Path)
    ensures var x, y := CreateOp("a", "1"), UpdateOp("a", "1", "2");
            ApplyOps(map[], [x, y], key).Some? && ApplyOps(map[], [y, x], key) == None
  {
    var x, y := CreateOp("a", "1"), UpdateOp("a", "1", "2");
    assert ApplyOp(map[], y, key) == None;
    TwoSteps(map[], x, y, [], key);
    assert [x, y] + [] == [x, y];
    assert At(map[key("a") := "1"], key("a")) == Some("1");
  }
}
