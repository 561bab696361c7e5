/** The source-tree fingerprint: the byte string fed to the digest, row by row. */
module TreeDigest {
  import opened Text
  import opened TreeWalk
  import opened Utf8

  /** A regular file: its relative path, its size and the 32 bytes of its content hash. */
  datatype Row = Row(path: string, size: nat, hash: Bytes)

  ghost predicate InRange(r: Row) {
    |Encode(r.path)| < Pow256(8) && r.size < Pow256(8) && |r.hash| == 32
  }

  ghost predicate AllInRange(rows: seq<Row>) {
    forall i | 0 <= i < |rows| :: InRange(rows[i])
  }

  function RowBytes(r: Row): Bytes {
    BigEndian(|Encode(r.path)|, 8) + Encode(r.path) + BigEndian(r.size, 8) + r.hash
  }

  function AllBytes(rows: seq<Row>): Bytes {
    if rows == [] then [] else RowBytes(rows[0]) + AllBytes(rows[1..])
  }

  function ByFold(fold: string -> string): Row -> string {
    (r: Row) => fold(r.path)
  }

  function TreeBytes(rows: seq<Row>, fold: string -> string): Bytes {
    AllBytes(SortBy(rows, ByFold(fold)))
  }

  /** The update loop feeds the digest the rows in case-folded order. */
  method TreeHash(rows: seq<Row>, fold: string -> string) returns (fed: Bytes)
    ensures fed == TreeBytes(rows, fold)
  {
    var sorted := SortBy(rows, ByFold(fold));
    fed := [];
    for i := 0 to |sorted|
      invariant fed + AllBytes(sorted[i..]) == AllBytes(sorted)
    {
      var encoded := Encode(sorted[i].path);
      ghost var before := fed;
      fed := fed + BigEndian(|encoded|, 8);
      fed := fed + encoded;
      fed := fed + BigEndian(sorted[i].size, 8);
      fed := fed + sorted[i].hash;
      FedOneMore(before, BigEndian(|encoded|, 8), encoded, BigEndian(sorted[i].size, 8), sorted[i].hash,
          AllBytes(sorted[i + 1..]));
      assert sorted[i..][1..] == sorted[i + 1..];
    }
    assert sorted[|sorted|..] == [];
  }

  lemma FedOneMore(fed: Bytes, a: Bytes, b: Bytes, c: Bytes, d: Bytes, rest: Bytes)
    ensures fed + (a + b + c + d + rest) == fed + a + b + c + d + rest
  {
  }

  lemma Regroup(a: Bytes, b: Bytes, c: Bytes, d: Bytes, rest: Bytes)
    ensures a + b + c + d + rest == a + (b + (c + (d + rest)))
  {
  }

  // -------------------------------------------------------- unique decoding

  lemma CutAt(a: Bytes, x: Bytes, b: Bytes, y: Bytes)
    requires |a| == |b| && a + x == b + y
    ensures a == b && x == y
  {
    assert (a + x)[..|a|] == a && (b + y)[..|b|] == b;
    assert (a + x)[|a|..] == x && (b + y)[|b|..] == y;
  }

  lemma SameInteger(m: nat, n: nat)
    requires m < Pow256(8) && n < Pow256(8) && BigEndian(m, 8) == BigEndian(n, 8)
    ensures m == n
  {
    BigEndianRoundTrip(m, 8);
    BigEndianRoundTrip(n, 8);
  }

  /** A row announces its own length, so what follows it can be told apart. */
  lemma RowsCutApart(r: Row, x: Bytes, s: Row, y: Bytes)
    requires InRange(r) && InRange(s) && RowBytes(r) + x == RowBytes(s) + y
    ensures r == s && x == y
  {
    var p, q := Encode(r.path), Encode(s.path);
    var tailR, tailS := BigEndian(r.size, 8) + (r.hash + x), BigEndian(s.size, 8) + (s.hash + y);
    Regroup(BigEndian(|p|, 8), p, BigEndian(r.size, 8), r.hash, x);
    Regroup(BigEndian(|q|, 8), q, BigEndian(s.size, 8), s.hash, y);
    CutAt(BigEndian(|p|, 8), p + tailR, BigEndian(|q|, 8), q + tailS);
    SameInteger(|p|, |q|);
    CutAt(p, tailR, q, tailS);
    CutAt(BigEndian(r.size, 8), r.hash + x, BigEndian(s.size, 8), s.hash + y);
    CutAt(r.hash, x, s.hash, y);
    SameInteger(r.size, s.size);
    EncodeInjective(r.path, s.path);
  }

  lemma RowNotEmpty(r: Row)
    ensures |RowBytes(r)| >= 16
  {
  }

  /** MAIN: the byte string determines the list of rows it was fed from. */
  lemma {:induction false} UniquelyDecodable(a: seq<Row>, b: seq<Row>)
    requires AllInRange(a) && AllInRange(b) && AllBytes(a) == AllBytes(b)
    ensures a == b
    decreases |a|
  {
    if a != [] {
      RowNotEmpty(a[0]);
      assert b != [];
      RowsCutApart(a[0], AllBytes(a[1..]), b[0], AllBytes(b[1..]));
      UniquelyDecodable(a[1..], b[1..]);
      assert a == [a[0]] + a[1..] && b == [b[0]] + b[1..];
    } else if b != [] {
      RowNotEmpty(b[0]);
    }
  }

  lemma SortedInRange(rows: seq<Row>, fold: string -> string)
    requires AllInRange(rows)
    ensures AllInRange(SortBy(rows, ByFold(fold)))
  {
    var sorted := SortBy(rows, ByFold(fold));
    forall i | 0 <= i < |sorted| ensures InRange(sorted[i]) {
      assert sorted[i] in multiset(sorted) && multiset(sorted) == multiset(rows);
      assert sorted[i] in rows;
    }
  }

  /**
   MAIN: with case-fold-distinct paths, two trees give the same bytes exactly when they have the
   same files, in whatever order they were listed.
   */
  lemma SameBytesSameTree(a: seq<Row>, b: seq<Row>, fold: string -> string)
    requires AllInRange(a) && AllInRange(b) && DistinctKeys(a, ByFold(fold))
    ensures TreeBytes(a, fold) == TreeBytes(b, fold) <==> multiset(a) == multiset(b)
  {
    var key := ByFold(fold);
    if TreeBytes(a, fold) == TreeBytes(b, fold) {
      SortedInRange(a, fold);
      SortedInRange(b, fold);
      UniquelyDecodable(SortBy(a, key), SortBy(b, key));
    }
    if multiset(a) == multiset(b) {
      SortSorted(a, key);
      SortSorted(b, key);
      PermutationKeepsDistinct(a, SortBy(a, key), key);
      SortedUnique(SortBy(a, key), SortBy(b, key), key);
    }
  }

  // ------------------------------------------------------------- whole trees

  function RowOf(leaf: Leaf): Row {
    Row(Join(leaf.path), leaf.size, leaf.hash)
  }

  function RowsOf(leaves: seq<Leaf>): (r: seq<Row>)
    ensures |r| == |leaves| && forall i | 0 <= i < |leaves| :: r[i] == RowOf(leaves[i])
  {
    seq(|leaves|, i requires 0 <= i < |leaves| => RowOf(leaves[i]))
  }

  /** What the digest of a source tree is fed. */
  method FingerprintSourceTree(root: Node, fold: Fold) returns (fed: Bytes)
    ensures fed == TreeBytes(RowsOf(Walk(root, fold)), fold)
  {
    var leaves := ListFiles(root, fold);
    fed := TreeHash(RowsOf(leaves), fold);
  }

  predicate GoodPath(path: seq<string>) {
    path != [] && forall i | 0 <= i < |path| :: GoodName(path[i])
  }

  lemma {:induction false} TreePathsGood(node: Node, path: seq<string>, size: nat, hash: Bytes)
    requires GoodTree(node) && InTree(node, path, size, hash)
    ensures GoodPath(path)
    decreases |path|
  {
    if |path| > 1 {
      var d :| d in node.dirs && d.name == path[0] && InTree(d.node, path[1..], size, hash);
      TreePathsGood(d.node, path[1..], size, hash);
      assert forall i | 1 <= i < |path| :: path[i] == path[1..][i - 1];
    } else {
      assert File(path[0], size, hash) in node.files;
    }
  }

  lemma {:induction false} SplitJoin(path: seq<string>)
    requires GoodPath(path)
    ensures Split(Join(path)) == path
  {
    if |path| == 1 {
      SplitOne(path[0]);
    } else {
      SplitJoin(path[1..]);
      SplitAtSlash(path[0], Join(path[1..]));
      assert path == [path[0]] + path[1..];
    }
  }

  lemma LeafPathGood(node: Node, fold: Fold, leaf: Leaf)
    requires GoodTree(node) && leaf in Walk(node, fold)
    ensures GoodPath(leaf.path)
  {
    WalkMeaning(node, fold, leaf);
    TreePathsGood(node, leaf.path, leaf.size, leaf.hash);
  }

  lemma RowOfInjective(a: Leaf, b: Leaf)
    requires GoodPath(a.path) && GoodPath(b.path) && RowOf(a) == RowOf(b)
    ensures a == b
  {
    SplitJoin(a.path);
    SplitJoin(b.path);
  }

  lemma LeafByRow(a: seq<Leaf>, b: seq<Leaf>, x: Leaf)
    requires multiset(RowsOf(a)) == multiset(RowsOf(b)) && x in a
    requires forall y | y in a || y in b :: GoodPath(y.path)
    ensures x in b
  {
    var i :| 0 <= i < |a| && a[i] == x;
    assert RowsOf(a)[i] in multiset(RowsOf(b));
    var j :| 0 <= j < |b| && RowsOf(b)[j] == RowOf(x);
    RowOfInjective(x, b[j]);
  }

  lemma SameRowsSameFiles(a: Node, b: Node, fold: Fold)
    requires GoodTree(a) && GoodTree(b) && multiset(RowsOf(Walk(a, fold))) == multiset(RowsOf(Walk(b, fold)))
    ensures SameFiles(a, b)
  {
    forall y | y in Walk(a, fold) ensures GoodPath(y.path) {
      LeafPathGood(a, fold, y);
    }
    forall y | y in Walk(b, fold) ensures GoodPath(y.path) {
      LeafPathGood(b, fold, y);
    }
    forall path: seq<string>, size: nat, hash: Bytes ensures InTree(a, path, size, hash) <==>
        InTree(b, path, size, hash) {
      var leaf := Leaf(path, size, hash);
      WalkMeaning(a, fold, leaf);
      WalkMeaning(b, fold, leaf);
      if leaf in Walk(a, fold) {
        LeafByRow(Walk(a, fold), Walk(b, fold), leaf);
      }
      if leaf in Walk(b, fold) {
        LeafByRow(Walk(b, fold), Walk(a, fold), leaf);
      }
    }
  }

  /**
   MAIN: two source trees feed the digest the same bytes exactly when they hold the same files,
   paths that differ only in case included, in whatever order the file system lists them.
   */
  lemma SameBytesSameFiles(a: Node, b: Node, fold: Fold)
    requires GoodTree(a) && GoodTree(b)
    requires AllInRange(RowsOf(Walk(a, fold))) && AllInRange(RowsOf(Walk(b, fold)))
    ensures TreeBytes(RowsOf(Walk(a, fold)), fold) == TreeBytes(RowsOf(Walk(b, fold)), fold) <==> SameFiles(a, b)
  {
    var rows, others := RowsOf(Walk(a, fold)), RowsOf(Walk(b, fold));
    if TreeBytes(rows, fold) == TreeBytes(others, fold) {
      SortedInRange(rows, fold);
      SortedInRange(others, fold);
      UniquelyDecodable(SortBy(rows, ByFold(fold)), SortBy(others, ByFold(fold)));
      SameRowsSameFiles(a, b, fold);
    }
    if SameFiles(a, b) {
      SameFilesSameWalk(a, b, fold);
    }
  }
}
