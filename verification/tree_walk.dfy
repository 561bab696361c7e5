/**
 The listing that is fingerprinted: a top-down walk that sorts the names of every directory by
 their case-folded form, ties broken by the name itself. The file system lists them in any order.
 */
module TreeWalk {
  import opened Text
  import opened Utf8

  datatype File = File(name: string, size: nat, hash: Bytes)
  datatype Dir = Dir(name: string, node: Node)
  datatype Node = Node(files: seq<File>, dirs: seq<Dir>)

  /** A file by the names on the way to it. */
  datatype Leaf = Leaf(path: seq<string>, size: nat, hash: Bytes)

  type Fold = string -> string

  /** `(value.casefold(), value)` compared as a pair. */
  predicate NameLeq(fold: Fold, a: string, b: string) {
    if fold(a) == fold(b) then LexLeq(a, b) else LexLeq(fold(a), fold(b))
  }

  lemma NameTotal(fold: Fold, a: string, b: string)
    ensures NameLeq(fold, a, b) || NameLeq(fold, b, a)
  {
    LexTotal(a, b);
    LexTotal(fold(a), fold(b));
  }

  lemma NameAntisymmetric(fold: Fold, a: string, b: string)
    requires NameLeq(fold, a, b) && NameLeq(fold, b, a)
    ensures a == b
  {
    if fold(a) == fold(b) {
      LexAntisymmetric(a, b);
    } else {
      LexAntisymmetric(fold(a), fold(b));
    }
  }

  lemma NameTransitive(fold: Fold, a: string, b: string, c: string)
    requires NameLeq(fold, a, b) && NameLeq(fold, b, c)
    ensures NameLeq(fold, a, c)
  {
    if fold(a) == fold(b) == fold(c) {
      LexTransitive(a, b, c);
    } else if fold(a) == fold(c) {
      LexAntisymmetric(fold(a), fold(b));
    } else {
      LexReflexive(fold(a));
      LexReflexive(fold(b));
      LexTransitive(fold(a), fold(b), fold(c));
    }
  }

  // ------------------------------------------------------------ sorting names

  function InsertName<T>(x: T, xs: seq<T>, name: T -> string, fold: Fold): (r: seq<T>)
    ensures |r| == |xs| + 1 && multiset(r) == multiset(xs) + multiset{x}
  {
    if xs == [] then [x]
    else if NameLeq(fold, name(x), name(xs[0])) then [x] + xs
    else
      assert xs == [xs[0]] + xs[1..];
      [xs[0]] + InsertName(x, xs[1..], name, fold)
  }

  function SortNames<T>(xs: seq<T>, name: T -> string, fold: Fold): (r: seq<T>)
    ensures |r| == |xs| && multiset(r) == multiset(xs)
  {
    if xs == [] then []
    else
      assert xs == [xs[0]] + xs[1..];
      InsertName(xs[0], SortNames(xs[1..], name, fold), name, fold)
  }

  ghost predicate InNameOrder<T>(xs: seq<T>, name: T -> string, fold: Fold) {
    forall i, j | 0 <= i < j < |xs| :: NameLeq(fold, name(xs[i]), name(xs[j]))
  }

  lemma {:induction false} InsertInOrder<T>(x: T, xs: seq<T>, name: T -> string, fold: Fold)
    requires InNameOrder(xs, name, fold)
    ensures InNameOrder(InsertName(x, xs, name, fold), name, fold)
  {
    var r := InsertName(x, xs, name, fold);
    if xs != [] {
      NameTotal(fold, name(x), name(xs[0]));
      if NameLeq(fold, name(x), name(xs[0])) {
        forall j | 0 < j < |r| ensures NameLeq(fold, name(x), name(r[j])) {
          if j > 1 {
            NameTransitive(fold, name(x), name(xs[0]), name(r[j]));
          }
        }
      } else {
        InsertInOrder(x, xs[1..], name, fold);
        var tail := InsertName(x, xs[1..], name, fold);
        forall j | 0 < j < |r| ensures NameLeq(fold, name(r[0]), name(r[j])) {
          assert tail[j - 1] in multiset(tail);
          assert r[j] == x || r[j] in xs[1..];
        }
      }
    }
  }

  lemma {:induction false} SortedInOrder<T>(xs: seq<T>, name: T -> string, fold: Fold)
    ensures InNameOrder(SortNames(xs, name, fold), name, fold)
  {
    if xs != [] {
      SortedInOrder(xs[1..], name, fold);
      InsertInOrder(xs[0], SortNames(xs[1..], name, fold), name, fold);
    }
  }

  lemma SortedMembers<T>(xs: seq<T>, name: T -> string, fold: Fold, x: T)
    ensures x in SortNames(xs, name, fold) <==> x in xs
  {
    var r := SortNames(xs, name, fold);
    assert x in r <==> x in multiset(r);
    assert x in xs <==> x in multiset(xs);
  }

  function FileName(): File -> string {
    (f: File) => f.name
  }

  function DirName(): Dir -> string {
    (d: Dir) => d.name
  }

  // ----------------------------------------------------------------- the walk

  function SortedFiles(node: Node, fold: Fold): seq<File> {
    SortNames(node.files, FileName(), fold)
  }

  function SortedDirs(node: Node, fold: Fold): (r: seq<Dir>)
    ensures forall d | d in r :: d in node.dirs
  {
    var r := SortNames(node.dirs, DirName(), fold);
    assert forall d | d in r :: d in multiset(r);
    r
  }

  function OwnLeaves(files: seq<File>): (r: seq<Leaf>)
    ensures |r| == |files| && forall i | 0 <= i < |files| :: r[i] == Leaf([files[i].name], files[i].size, files[i].hash)
  {
    seq(|files|, i requires 0 <= i < |files| => Leaf([files[i].name], files[i].size, files[i].hash))
  }

  function Below(name: string, leaves: seq<Leaf>): (r: seq<Leaf>)
    ensures |r| == |leaves| && forall i | 0 <= i < |leaves| :: r[i] == leaves[i].(path := [name] + leaves[i].path)
  {
    seq(|leaves|, i requires 0 <= i < |leaves| => leaves[i].(path := [name] + leaves[i].path))
  }

  /** The files of a directory, then what is below its subdirectories, both in name order. */
  function Walk(node: Node, fold: Fold): seq<Leaf>
    decreases node, 1
  {
    OwnLeaves(SortedFiles(node, fold)) + WalkDirs(node, SortedDirs(node, fold), fold)
  }

  function WalkDirs(node: Node, dirs: seq<Dir>, fold: Fold): seq<Leaf>
    requires forall d | d in dirs :: d in node.dirs
    decreases node, 0, |dirs|
  {
    if dirs == [] then []
    else
      assert dirs[0] in node.dirs;
      Below(dirs[0].name, Walk(dirs[0].node, fold)) + WalkDirs(node, dirs[1..], fold)
  }

  method ListOwn(files: seq<File>) returns (leaves: seq<Leaf>)
    ensures leaves == OwnLeaves(files)
  {
    leaves := [];
    for i := 0 to |files|
      invariant leaves == OwnLeaves(files)[..i]
    {
      leaves := leaves + [Leaf([files[i].name], files[i].size, files[i].hash)];
    }
  }

  lemma OneMoreDir(node: Node, dirs: seq<Dir>, fold: Fold, i: nat, done: seq<Leaf>)
    requires i < |dirs| && forall d | d in dirs :: d in node.dirs
    ensures forall k, d | 0 <= k <= |dirs| && d in dirs[k..] :: d in node.dirs
    ensures done + WalkDirs(node, dirs[i..], fold) ==
            (done + Below(dirs[i].name, Walk(dirs[i].node, fold))) + WalkDirs(node, dirs[i + 1..], fold)
  {
    assert dirs[i..][1..] == dirs[i + 1..];
  }

  /** The recursion of the walk with its appending loops. */
  method ListFiles(node: Node, fold: Fold) returns (leaves: seq<Leaf>)
    ensures leaves == Walk(node, fold)
    decreases node
  {
    leaves := ListOwn(SortedFiles(node, fold));
    var dirs := SortedDirs(node, fold);
    assert dirs[0..] == dirs;
    for i := 0 to |dirs|
      invariant forall d | d in dirs[i..] :: d in node.dirs
      invariant leaves + WalkDirs(node, dirs[i..], fold) == Walk(node, fold)
    {
      assert dirs[i] in node.dirs;
      OneMoreDir(node, dirs, fold, i, leaves);
      var below := ListFiles(dirs[i].node, fold);
      leaves := leaves + Below(dirs[i].name, below);
    }
    assert dirs[|dirs|..] == [];
  }

  // ----------------------------------------------------------- what is in a tree

  predicate HasFile(node: Node, name: string, size: nat, hash: Bytes) {
    File(name, size, hash) in node.files
  }

  /** The tree has this file; the order in which the file system lists anything plays no part. */
  ghost predicate InTree(node: Node, path: seq<string>, size: nat, hash: Bytes)
    decreases |path|
  {
    if path == [] then false
    else if |path| == 1 then HasFile(node, path[0], size, hash)
    else exists d :: d in node.dirs && d.name == path[0] && InTree(d.node, path[1..], size, hash)
  }

  ghost predicate SameFiles(a: Node, b: Node) {
    forall path: seq<string>, size: nat, hash: Bytes :: InTree(a, path, size, hash) <==> InTree(b, path, size, hash)
  }

  predicate GoodName(name: string) {
    name != "" && '/' !in name
  }

  /** Within one directory every name is used once. */
  ghost predicate GoodTree(node: Node)
    decreases node
  {
    && (forall f | f in node.files :: GoodName(f.name))
    && (forall i, j | 0 <= i < j < |node.files| :: node.files[i].name != node.files[j].name)
    && (forall i, j | 0 <= i < j < |node.dirs| :: node.dirs[i].name != node.dirs[j].name)
    && (forall f, d | f in node.files && d in node.dirs :: f.name != d.name)
    && (forall d | d in node.dirs :: GoodName(d.name) && GoodTree(d.node))
  }

  lemma OwnLeavesMeaning(files: seq<File>, leaf: Leaf)
    ensures leaf in OwnLeaves(files) <==> |leaf.path| == 1 && File(leaf.path[0], leaf.size, leaf.hash) in files
  {
    if |leaf.path| == 1 && File(leaf.path[0], leaf.size, leaf.hash) in files {
      var i :| 0 <= i < |files| && files[i] == File(leaf.path[0], leaf.size, leaf.hash);
      assert leaf.path == [leaf.path[0]];
      assert OwnLeaves(files)[i] == leaf;
    }
  }

  lemma BelowMeaning(name: string, leaves: seq<Leaf>, leaf: Leaf)
    ensures leaf in Below(name, leaves) <==>
              leaf.path != [] && leaf.path[0] == name && leaf.(path := leaf.path[1..]) in leaves
  {
    if leaf.path != [] && leaf.path[0] == name && leaf.(path := leaf.path[1..]) in leaves {
      var i :| 0 <= i < |leaves| && leaves[i] == leaf.(path := leaf.path[1..]);
      assert leaf.path == [name] + leaf.path[1..];
      assert Below(name, leaves)[i] == leaf;
    }
  }

  /** The walk lists exactly the files of the tree. */
  lemma {:induction false} WalkMeaning(node: Node, fold: Fold, leaf: Leaf)
    ensures leaf in Walk(node, fold) <==> InTree(node, leaf.path, leaf.size, leaf.hash)
    decreases node, 1
  {
    OwnLeavesMeaning(SortedFiles(node, fold), leaf);
    if |leaf.path| == 1 {
      SortedMembers(node.files, FileName(), fold, File(leaf.path[0], leaf.size, leaf.hash));
    }
    WalkDirsMeaning(node, SortedDirs(node, fold), fold, leaf);
    forall d ensures d in SortedDirs(node, fold) <==> d in node.dirs {
      SortedMembers(node.dirs, DirName(), fold, d);
    }
  }

  ghost predicate UnderOneOf(dirs: seq<Dir>, leaf: Leaf) {
    |leaf.path| > 1 && exists d ::
        d in dirs && d.name == leaf.path[0] && InTree(d.node, leaf.path[1..], leaf.size, leaf.hash)
  }

  lemma {:induction false} WalkDirsMeaning(node: Node, dirs: seq<Dir>, fold: Fold, leaf: Leaf)
    requires forall d | d in dirs :: d in node.dirs
    ensures leaf in WalkDirs(node, dirs, fold) <==> UnderOneOf(dirs, leaf)
    decreases node, 0, |dirs|
  {
    if dirs != [] {
      assert dirs[0] in node.dirs;
      WalkDirsMeaning(node, dirs[1..], fold, leaf);
      BelowMeaning(dirs[0].name, Walk(dirs[0].node, fold), leaf);
      if leaf.path != [] {
        WalkMeaning(dirs[0].node, fold, leaf.(path := leaf.path[1..]));
      }
      assert forall d :: d in dirs <==> d == dirs[0] || d in dirs[1..];
    }
  }

  // --------------------------------------------------------- one order per tree

  /** Where the walk puts one path before another. */
  predicate Before(fold: Fold, p: seq<string>, q: seq<string>) {
    if p == [] || q == [] then false
    else if p[0] == q[0] then Before(fold, p[1..], q[1..])
    else if |p| == 1 && |q| > 1 then true
    else if |p| > 1 && |q| == 1 then false
    else NameLeq(fold, p[0], q[0])
  }

  lemma {:induction false} BeforeAsymmetric(fold: Fold, p: seq<string>, q: seq<string>)
    requires Before(fold, p, q)
    ensures !Before(fold, q, p)
  {
    if p[0] == q[0] {
      BeforeAsymmetric(fold, p[1..], q[1..]);
    } else if Before(fold, q, p) {
      NameAntisymmetric(fold, p[0], q[0]);
    }
  }

  ghost predicate InWalkOrder(leaves: seq<Leaf>, fold: Fold) {
    forall i, j | 0 <= i < j < |leaves| :: Before(fold, leaves[i].path, leaves[j].path)
  }

  lemma OwnLeavesOrdered(files: seq<File>, fold: Fold)
    requires InNameOrder(files, FileName(), fold) && DistinctKeys(files, FileName())
    ensures InWalkOrder(OwnLeaves(files), fold)
  {
    forall i, j | 0 <= i < j < |files| ensures Before(fold, [files[i].name], [files[j].name]) {
      assert NameLeq(fold, FileName()(files[i]), FileName()(files[j]));
      assert FileName()(files[i]) != FileName()(files[j]);
    }
  }

  lemma BelowOrdered(name: string, leaves: seq<Leaf>, fold: Fold)
    requires InWalkOrder(leaves, fold)
    ensures InWalkOrder(Below(name, leaves), fold)
  {
    var r := Below(name, leaves);
    forall i, j | 0 <= i < j < |r| ensures Before(fold, r[i].path, r[j].path) {
      assert r[i].path[1..] == leaves[i].path && r[j].path[1..] == leaves[j].path;
    }
  }

  lemma ConcatOrdered(a: seq<Leaf>, b: seq<Leaf>, fold: Fold)
    requires InWalkOrder(a, fold) && InWalkOrder(b, fold)
    requires forall x, y | x in a && y in b :: Before(fold, x.path, y.path)
    ensures InWalkOrder(a + b, fold)
  {
  }

  lemma OwnBeforeBelow(node: Node, fold: Fold, x: Leaf, y: Leaf)
    requires GoodTree(node) && x in OwnLeaves(SortedFiles(node, fold))
              && y in WalkDirs(node, SortedDirs(node, fold), fold)
    ensures Before(fold, x.path, y.path)
  {
    OwnLeavesMeaning(SortedFiles(node, fold), x);
    WalkDirsMeaning(node, SortedDirs(node, fold), fold, y);
    SortedMembers(node.files, FileName(), fold, File(x.path[0], x.size, x.hash));
    var d :| d in SortedDirs(node, fold) && d.name == y.path[0];
    assert d in node.dirs && File(x.path[0], x.size, x.hash) in node.files;
  }

  lemma SortedFilesOrdered(node: Node, fold: Fold)
    requires GoodTree(node)
    ensures InWalkOrder(OwnLeaves(SortedFiles(node, fold)), fold)
  {
    assert DistinctKeys(node.files, FileName());
    SortedInOrder(node.files, FileName(), fold);
    PermutationKeepsDistinct(node.files, SortedFiles(node, fold), FileName());
    OwnLeavesOrdered(SortedFiles(node, fold), fold);
  }

  lemma SortedDirsOrdered(node: Node, fold: Fold)
    requires GoodTree(node)
    ensures DirsOrdered(SortedDirs(node, fold), fold)
  {
    assert DistinctKeys(node.dirs, DirName());
    SortedInOrder(node.dirs, DirName(), fold);
    PermutationKeepsDistinct(node.dirs, SortedDirs(node, fold), DirName());
  }

  lemma {:induction false} WalkOrdered(node: Node, fold: Fold)
    requires GoodTree(node)
    ensures InWalkOrder(Walk(node, fold), fold)
    decreases node, 1
  {
    var own, below := OwnLeaves(SortedFiles(node, fold)), WalkDirs(node, SortedDirs(node, fold), fold);
    SortedFilesOrdered(node, fold);
    SortedDirsOrdered(node, fold);
    WalkDirsOrdered(node, SortedDirs(node, fold), fold);
    forall x, y | x in own && y in below ensures Before(fold, x.path, y.path) {
      OwnBeforeBelow(node, fold, x, y);
    }
    ConcatOrdered(own, below, fold);
  }

  ghost predicate DirsOrdered(dirs: seq<Dir>, fold: Fold) {
    InNameOrder(dirs, DirName(), fold) && DistinctKeys(dirs, DirName())
  }

  lemma {:induction false} WalkDirsOrdered(node: Node, dirs: seq<Dir>, fold: Fold)
    requires GoodTree(node) && DirsOrdered(dirs, fold) && forall d | d in dirs :: d in node.dirs
    ensures InWalkOrder(WalkDirs(node, dirs, fold), fold)
    decreases node, 0, |dirs|
  {
    if dirs != [] {
      var first, rest := Below(dirs[0].name, Walk(dirs[0].node, fold)), WalkDirs(node, dirs[1..], fold);
      assert dirs[0] in node.dirs;
      WalkOrdered(dirs[0].node, fold);
      BelowOrdered(dirs[0].name, Walk(dirs[0].node, fold), fold);
      WalkDirsOrdered(node, dirs[1..], fold);
      forall x, y | x in first && y in rest ensures Before(fold, x.path, y.path) {
        FirstBeforeRest(node, dirs, fold, x, y);
      }
      ConcatOrdered(first, rest, fold);
    }
  }

  lemma FirstBeforeRest(node: Node, dirs: seq<Dir>, fold: Fold, x: Leaf, y: Leaf)
    requires dirs != [] && DirsOrdered(dirs, fold) && forall d | d in dirs :: d in node.dirs
    requires x in Below(dirs[0].name, Walk(dirs[0].node, fold)) && y in WalkDirs(node, dirs[1..], fold)
    ensures Before(fold, x.path, y.path)
  {
    BelowMeaning(dirs[0].name, Walk(dirs[0].node, fold), x);
    WalkMeaning(dirs[0].node, fold, x.(path := x.path[1..]));
    WalkDirsMeaning(node, dirs[1..], fold, y);
    var d :| d in dirs[1..] && d.name == y.path[0];
    var j :| 0 < j < |dirs| && dirs[j] == d;
    assert NameLeq(fold, DirName()(dirs[0]), DirName()(dirs[j])) && DirName()(dirs[0]) != DirName()(dirs[j]);
  }

  lemma OrderedDistinct(leaves: seq<Leaf>, fold: Fold, i: nat, j: nat)
    requires InWalkOrder(leaves, fold) && i < j < |leaves|
    ensures leaves[i] != leaves[j]
  {
    if leaves[i] == leaves[j] {
      BeforeAsymmetric(fold, leaves[i].path, leaves[j].path);
    }
  }

  lemma SameFirstLeaf(a: seq<Leaf>, b: seq<Leaf>, fold: Fold)
    requires InWalkOrder(a, fold) && InWalkOrder(b, fold) && a != [] && b != []
    requires forall x :: x in a <==> x in b
    ensures a[0] == b[0]
  {
    if a[0] != b[0] {
      assert a[0] in b && b[0] in a;
      var i :| 0 < i < |b| && b[i] == a[0];
      var j :| 0 < j < |a| && a[j] == b[0];
      BeforeAsymmetric(fold, b[0].path, a[0].path);
    }
  }

  lemma TailMembers(a: seq<Leaf>, fold: Fold, x: Leaf)
    requires InWalkOrder(a, fold) && a != []
    ensures x in a[1..] <==> x in a && x != a[0]
    ensures InWalkOrder(a[1..], fold)
  {
    if x in a[1..] {
      var j :| 0 < j < |a| && a[j] == x;
      OrderedDistinct(a, fold, 0, j);
    }
  }

  lemma FirstIsMember(a: seq<Leaf>)
    ensures a != [] ==> a[0] in a
  {
  }

  /** There is only one walk over a set of files. */
  lemma {:induction false} OrderUnique(a: seq<Leaf>, b: seq<Leaf>, fold: Fold)
    requires InWalkOrder(a, fold) && InWalkOrder(b, fold) && forall x :: x in a <==> x in b
    ensures a == b
    decreases |a|
  {
    FirstIsMember(a);
    FirstIsMember(b);
    if a != [] {
      SameFirstLeaf(a, b, fold);
      TailMembers(a, fold, a[0]);
      TailMembers(b, fold, b[0]);
      forall x ensures x in a[1..] <==> x in b[1..] {
        TailMembers(a, fold, x);
        TailMembers(b, fold, x);
      }
      OrderUnique(a[1..], b[1..], fold);
      assert a == [a[0]] + a[1..] && b == [b[0]] + b[1..];
    }
  }

  /** MAIN: the listing depends on the files alone, not on the order in which the file system names them. */
  lemma SameFilesSameWalk(a: Node, b: Node, fold: Fold)
    requires GoodTree(a) && GoodTree(b)
    ensures Walk(a, fold) == Walk(b, fold) <==> SameFiles(a, b)
  {
    WalkOrdered(a, fold);
    WalkOrdered(b, fold);
    forall leaf: Leaf
      ensures leaf in Walk(a, fold) <==> InTree(a, leaf.path, leaf.size, leaf.hash)
      ensures leaf in Walk(b, fold) <==> InTree(b, leaf.path, leaf.size, leaf.hash)
    {
      WalkMeaning(a, fold, leaf);
      WalkMeaning(b, fold, leaf);
    }
    if SameFiles(a, b) {
      OrderUnique(Walk(a, fold), Walk(b, fold), fold);
    }
    if Walk(a, fold) == Walk(b, fold) {
      forall path: seq<string>, size: nat, hash: Bytes
        ensures InTree(a, path, size, hash) <==> InTree(b, path, size, hash)
      {
        var leaf := Leaf(path, size, hash);
        assert leaf in Walk(a, fold) <==> leaf in Walk(b, fold);
      }
    }
  }
}
