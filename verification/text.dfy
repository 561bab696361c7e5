/** Decimal numerals, the code-point order on strings and a stable sort by a string key. */
module Text {
  predicate IsDigit(c: char) {
    '0' <= c <= '9'
  }

  predicate Lower(c: char) {
    'a' <= c <= 'z'
  }

  predicate AlNum(c: char) {
    Lower(c) || IsDigit(c)
  }

  /** Lower-case ASCII segments separated by single characters of `separators`. */
  predicate Segments(s: string, separators: set<char>) {
    && s != ""
    && (forall i | 0 <= i < |s| :: AlNum(s[i]) || s[i] in separators)
    && s[0] !in separators && s[|s| - 1] !in separators
    && forall i | 0 < i < |s| :: !(s[i - 1] in separators && s[i] in separators)
  }

  predicate AllDigits(s: string) {
    forall i | 0 <= i < |s| :: IsDigit(s[i])
  }

  function Digit(n: nat): (c: char)
    requires n < 10
    ensures IsDigit(c)
  {
    ('0' as int + n) as char
  }

  function Decimal(n: nat): (s: string)
    ensures |s| > 0 && AllDigits(s)
    ensures n > 0 ==> s[0] != '0'
  {
    if n < 10 then [Digit(n)] else Decimal(n / 10) + [Digit(n % 10)]
  }

  /** The value `int()` gives a string of digits. */
  function Value(s: string): nat
    requires AllDigits(s)
  {
    if s == "" then 0 else 10 * Value(s[..|s| - 1]) + (s[|s| - 1] as int - '0' as int)
  }

  lemma {:induction false} DecimalValue(n: nat)
    ensures Value(Decimal(n)) == n
  {
    if n >= 10 {
      DecimalValue(n / 10);
      assert Decimal(n)[..|Decimal(n)| - 1] == Decimal(n / 10);
    } else {
      assert Decimal(n)[..0] == "";
    }
  }

  lemma DecimalInjective(a: nat, b: nat)
    requires Decimal(a) == Decimal(b)
    ensures a == b
  {
    DecimalValue(a);
    DecimalValue(b);
  }

  function Power10(w: nat): (p: nat)
    ensures p >= 1
  {
    if w == 0 then 1 else 10 * Power10(w - 1)
  }

  /** A numeral has at most `w` digits exactly for values below ten to the `w`. */
  lemma {:induction false} DecimalWidth(n: nat, w: nat)
    requires w > 0
    ensures |Decimal(n)| <= w <==> n < Power10(w)
    decreases w
  {
    if n < 10 {
      assert Power10(w) >= 10 by {
        assert Power10(w) == 10 * Power10(w - 1);
      }
    } else if w == 1 {
      assert Power10(1) == 10 * Power10(0);
    } else {
      DecimalWidth(n / 10, w - 1);
      assert Power10(w) == 10 * Power10(w - 1);
    }
  }

  /** `f"{n:0{w}d}"`: the numeral padded with zeros to at least `w` digits. */
  function Pad(n: nat, w: nat): (s: string)
    ensures AllDigits(s) && |s| >= w && |s| > 0
  {
    Zeros(w - |Decimal(n)|) + Decimal(n)
  }

  function Zeros(k: int): (s: string)
    ensures AllDigits(s) && |s| == if k <= 0 then 0 else k
  {
    if k <= 0 then "" else "0" + Zeros(k - 1)
  }

  lemma PadWidth(n: nat, w: nat)
    requires w > 0
    ensures |Pad(n, w)| == w <==> n < Power10(w)
  {
    DecimalWidth(n, w);
  }

  lemma {:induction false} ZerosValue(k: int, s: string)
    requires AllDigits(s)
    ensures AllDigits(Zeros(k) + s) && Value(Zeros(k) + s) == Value(s)
    decreases |s|, if k > 0 then k else 0
  {
    var all := Zeros(k) + s;
    if s == "" {
      if k > 0 {
        ZerosShift(k - 1);
        assert Zeros(k) == Zeros(k - 1) + "0";
        assert Zeros(k)[..k - 1] == Zeros(k - 1);
        ZerosValue(k - 1, "");
        assert Zeros(k - 1) + "" == Zeros(k - 1);
      }
      assert all == Zeros(k);
    } else {
      assert all[..|all| - 1] == Zeros(k) + s[..|s| - 1];
      ZerosValue(k, s[..|s| - 1]);
    }
  }

  lemma {:induction false} ZerosShift(k: nat)
    ensures "0" + Zeros(k) == Zeros(k) + "0"
  {
    if k > 0 {
      ZerosShift(k - 1);
    }
  }

  lemma PadInjective(a: nat, b: nat, w: nat)
    requires Pad(a, w) == Pad(b, w)
    ensures a == b
  {
    DecimalValue(a);
    DecimalValue(b);
    ZerosValue(w - |Decimal(a)|, Decimal(a));
    ZerosValue(w - |Decimal(b)|, Decimal(b));
  }

  // ------------------------------------------------------------ separators

  /** `s.split("/")`. */
  function Split(s: string): (r: seq<string>)
    ensures |r| > 0
  {
    if s == "" then [""]
    else
      var rest := Split(s[1..]);
      if s[0] == '/' then [""] + rest else [[s[0]] + rest[0]] + rest[1..]
  }

  /** `"/".join(parts)`. */
  function Join(parts: seq<string>): string {
    if parts == [] then "" else if |parts| == 1 then parts[0] else parts[0] + "/" + Join(parts[1..])
  }

  lemma {:induction false} SplitOne(a: string)
    requires '/' !in a
    ensures Split(a) == [a]
  {
    if a != "" {
      SplitOne(a[1..]);
      assert [a[0]] + a[1..] == a;
    }
  }

  lemma {:induction false} SplitAtSlash(a: string, b: string)
    requires '/' !in a
    ensures Split(a + "/" + b) == [a] + Split(b)
  {
    var s := a + "/" + b;
    if a == "" {
      assert s[1..] == b;
    } else {
      SplitAtSlash(a[1..], b);
      assert s[1..] == a[1..] + "/" + b;
      assert [a[0]] + a[1..] == a;
      assert Split(s)[1..] == Split(b);
    }
  }

  /** The position of the first `c`, or the length. */
  function IndexOf(s: string, c: char): (i: nat)
    ensures i <= |s| && (i < |s| ==> s[i] == c) && forall k | 0 <= k < i :: s[k] != c
    ensures i == |s| <==> c !in s
  {
    if s == "" then 0 else if s[0] == c then 0 else 1 + IndexOf(s[1..], c)
  }

  lemma IndexAfter(a: string, c: char, b: string)
    requires c !in a
    ensures IndexOf(a + [c] + b, c) == |a|
  {
    var s := a + [c] + b;
    assert s[|a|] == c;
    assert forall k | 0 <= k < |a| :: s[k] == a[k];
  }

  // ------------------------------------------------------- order and sort

  predicate LexLeq(a: string, b: string) {
    a == "" || (b != "" && (a[0] < b[0] || (a[0] == b[0] && LexLeq(a[1..], b[1..]))))
  }

  lemma {:induction false} LexTotal(a: string, b: string)
    ensures LexLeq(a, b) || LexLeq(b, a)
  {
    if a != "" && b != "" {
      LexTotal(a[1..], b[1..]);
    }
  }

  lemma {:induction false} LexAntisymmetric(a: string, b: string)
    requires LexLeq(a, b) && LexLeq(b, a)
    ensures a == b
  {
    if a != "" && b != "" {
      LexAntisymmetric(a[1..], b[1..]);
      assert a == [a[0]] + a[1..] && b == [b[0]] + b[1..];
    }
  }

  lemma {:induction false} LexTransitive(a: string, b: string, c: string)
    requires LexLeq(a, b) && LexLeq(b, c)
    ensures LexLeq(a, c)
  {
    if a != "" && a[0] == b[0] == c[0] {
      LexTransitive(a[1..], b[1..], c[1..]);
    }
  }

  lemma LexReflexive(a: string)
    ensures LexLeq(a, a)
  {
  }

  /** Insert before the first element with a greater key, as a stable insertion sort does from the right. */
  function Insert<T>(x: T, xs: seq<T>, key: T -> string): (r: seq<T>)
    ensures |r| == |xs| + 1 && multiset(r) == multiset(xs) + multiset{x}
  {
    if xs == [] then [x]
    else if LexLeq(key(x), key(xs[0])) then [x] + xs
    else
      assert xs == [xs[0]] + xs[1..];
      [xs[0]] + Insert(x, xs[1..], key)
  }

  /** `sorted(xs, key=key)`: stable, ascending by key. */
  function SortBy<T>(xs: seq<T>, key: T -> string): (r: seq<T>)
    ensures |r| == |xs| && multiset(r) == multiset(xs)
  {
    if xs == [] then []
    else
      assert xs == [xs[0]] + xs[1..];
      Insert(xs[0], SortBy(xs[1..], key), key)
  }

  ghost predicate SortedBy<T>(xs: seq<T>, key: T -> string) {
    forall i, j | 0 <= i < j < |xs| :: LexLeq(key(xs[i]), key(xs[j]))
  }

  lemma {:induction false} InsertSorted<T>(x: T, xs: seq<T>, key: T -> string)
    requires SortedBy(xs, key)
    ensures SortedBy(Insert(x, xs, key), key)
  {
    var r := Insert(x, xs, key);
    if xs != [] {
      LexTotal(key(x), key(xs[0]));
      if LexLeq(key(x), key(xs[0])) {
        forall j | 0 < j < |r| ensures LexLeq(key(x), key(r[j])) {
          LexReflexive(key(xs[0]));
          LexTransitive(key(x), key(xs[0]), key(r[j]));
        }
      } else {
        InsertSorted(x, xs[1..], key);
        var tail := Insert(x, xs[1..], key);
        forall j | 0 < j < |r| ensures LexLeq(key(r[0]), key(r[j])) {
          assert tail[j - 1] in multiset(tail);
          assert r[j] == x || r[j] in xs[1..];
        }
      }
    }
  }

  lemma {:induction false} SortSorted<T>(xs: seq<T>, key: T -> string)
    ensures SortedBy(SortBy(xs, key), key)
  {
    if xs != [] {
      SortSorted(xs[1..], key);
      InsertSorted(xs[0], SortBy(xs[1..], key), key);
    }
  }

  ghost predicate DistinctKeys<T>(xs: seq<T>, key: T -> string) {
    forall i, j | 0 <= i < j < |xs| :: key(xs[i]) != key(xs[j])
  }

  lemma TailKeepsOrder<T>(xs: seq<T>, key: T -> string)
    requires xs != []
    ensures SortedBy(xs, key) ==> SortedBy(xs[1..], key)
    ensures DistinctKeys(xs, key) ==> DistinctKeys(xs[1..], key)
    ensures multiset(xs[1..]) == multiset(xs) - multiset{xs[0]}
  {
    assert xs == [xs[0]] + xs[1..];
  }

  lemma SortedFirstLeast<T>(a: seq<T>, x: T, key: T -> string)
    requires SortedBy(a, key) && x in a
    ensures LexLeq(key(a[0]), key(x))
  {
    var i :| 0 <= i < |a| && a[i] == x;
    LexReflexive(key(x));
  }

  lemma SameFirst<T>(a: seq<T>, b: seq<T>, key: T -> string)
    requires multiset(a) == multiset(b) && SortedBy(a, key) && SortedBy(b, key) && a != []
    requires DistinctKeys(a, key)
    ensures b != [] && a[0] == b[0]
  {
    assert a[0] in multiset(b);
    assert b[0] in multiset(a);
    SortedFirstLeast(a, b[0], key);
    SortedFirstLeast(b, a[0], key);
    LexAntisymmetric(key(a[0]), key(b[0]));
  }

  /** With distinct keys there is only one sorted order. */
  lemma {:induction false} SortedUnique<T>(a: seq<T>, b: seq<T>, key: T -> string)
    requires multiset(a) == multiset(b) && SortedBy(a, key) && SortedBy(b, key)
    requires DistinctKeys(a, key)
    ensures a == b
  {
    assert |multiset(a)| == |multiset(b)|;
    assert |a| == |b|;
    if a != [] {
      SameFirst(a, b, key);
      TailKeepsOrder(a, key);
      TailKeepsOrder(b, key);
      SortedUnique(a[1..], b[1..], key);
      SplitFirst(a);
      SplitFirst(b);
    }
  }

  lemma SplitFirst<T>(a: seq<T>)
    requires a != []
    ensures a == [a[0]] + a[1..]
  {
  }

  lemma {:induction false} DistinctOccurOnce<T>(a: seq<T>, x: T, key: T -> string)
    requires DistinctKeys(a, key)
    ensures multiset(a)[x] <= 1
  {
    if a != [] {
      TailKeepsOrder(a, key);
      DistinctOccurOnce(a[1..], x, key);
      SplitFirst(a);
      if a[0] == x {
        assert x !in a[1..];
        assert multiset(a[1..])[x] == 0;
      }
    }
  }

  lemma TwiceIsTwo<T>(b: seq<T>, i: nat, j: nat)
    requires i < j < |b| && b[i] == b[j]
    ensures multiset(b)[b[i]] >= 2
  {
    assert b == b[..j] + b[j..] && b[..j][i] == b[i] && b[j..][0] == b[j];
    assert b[i] in multiset(b[..j]) && b[i] in multiset(b[j..]);
  }

  lemma PermutationKeepsDistinct<T>(a: seq<T>, b: seq<T>, key: T -> string)
    requires multiset(a) == multiset(b) && DistinctKeys(a, key)
    ensures DistinctKeys(b, key)
  {
    forall i, j | 0 <= i < j < |b| ensures key(b[i]) != key(b[j]) {
      if b[i] == b[j] {
        TwiceIsTwo(b, i, j);
        DistinctOccurOnce(a, b[i], key);
      } else {
        assert b[i] in multiset(a) && b[j] in multiset(a);
        var k, l :| 0 <= k < |a| && 0 <= l < |a| && a[k] == b[i] && a[l] == b[j];
        assert key(a[k]) != key(a[l]);
      }
    }
  }
}
