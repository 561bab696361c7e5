/**
 Streaming artifact scan: chunks of a file are hashed and searched with an overlap window.
 Bytes are decoded one to one, so a file is a string. A detector is a predicate on the
 characters of one match; a word detector also demands a word boundary on both sides.
 */
module Scanning {
  type Detector = string -> bool

  datatype Reason = PossibleSecret | PromptInjection | ExecutablePayload

  function Min(a: nat, b: nat): nat {
    if a < b then a else b
  }

  /** The last `n` characters, or all of them. */
  function Last(s: string, n: nat): string {
    s[|s| - Min(n, |s|)..]
  }

  predicate MatchAt(d: Detector, t: string, i: nat, j: nat)
    requires i <= j <= |t|
  {
    d(t[i..j])
  }

  predicate Fires(d: Detector, t: string) {
    exists i, j :: 0 <= i < j <= |t| && MatchAt(d, t, i, j)
  }

  function Strip(t: string): string {
    if t == "" then ""
    else if t[|t| - 1] == '\0' then Strip(t[..|t| - 1])
    else Strip(t[..|t| - 1]) + [t[|t| - 1]]
  }

  /** One window is searched as it is and without its NUL characters. */
  predicate WindowFires(d: Detector, w: string) {
    Fires(d, w) || Fires(d, Strip(w))
  }

  /** Where the window that ends the chunk at `pos` starts. */
  function WindowStart(pos: nat, overlap: nat): nat {
    if pos < overlap then 0 else pos - overlap
  }

  /** Some window from the chunk at `pos` on fires. */
  predicate ScanFrom(d: Detector, text: string, pos: nat, size: nat, overlap: nat)
    requires size > 0
    decreases |text| - pos
  {
    pos < |text| &&
    (WindowFires(d, text[WindowStart(pos, overlap)..Min(pos + size, |text|)])
        || ScanFrom(d, text, pos + size, size, overlap))
  }

  // ------------------------------------------------------------- the loops

  predicate HasPrefix(s: string, magics: seq<string>) {
    magics != [] && (magics[0] <= s || HasPrefix(s, magics[1..]))
  }

  predicate NoneLonger(magics: seq<string>, size: nat) {
    magics == [] || (|magics[0]| <= size && NoneLonger(magics[1..], size))
  }

  /** The set of reasons is shared by all windows; a reason once found is not searched for again. */
  method ScanTextWindow(window: string, secret: Detector, injection: Detector, reasons: set<Reason>)
    returns (next: set<Reason>)
    ensures PossibleSecret in next <==> PossibleSecret in reasons || WindowFires(secret, window)
    ensures PromptInjection in next <==> PromptInjection in reasons || WindowFires(injection, window)
    ensures ExecutablePayload in next <==> ExecutablePayload in reasons
  {
    next := reasons;
    if PossibleSecret !in next && WindowFires(secret, window) {
      next := next + {PossibleSecret};
    }
    if PromptInjection !in next && WindowFires(injection, window) {
      next := next + {PromptInjection};
    }
  }

  /** The reasons found before the chunk at `pos`, together with those still ahead, are those of the whole scan. */
  ghost predicate Found(text: string, pos: nat, size: nat, overlap: nat, secret: Detector, injection: Detector,
                        magics: seq<string>, reasons: set<Reason>)
    requires size > 0
  {
    && (ScanFrom(secret, text, 0, size, overlap) <==>
        PossibleSecret in reasons || ScanFrom(secret, text, pos, size, overlap))
    && (ScanFrom(injection, text, 0, size, overlap) <==>
        PromptInjection in reasons || ScanFrom(injection, text, pos, size, overlap))
    && (ExecutablePayload in reasons <==> pos > 0 && text != "" && HasPrefix(text, magics))
  }

  /** The digest has absorbed the text up to `pos`, and the tail is the end of that part. */
  ghost predicate ReadTo(text: string, pos: nat, overlap: nat, digested: string, tail: string) {
    digested == text[..Min(pos, |text|)] && tail == Last(digested, overlap)
  }

  lemma ReadAll(text: string, pos: nat, overlap: nat, digested: string, tail: string)
    requires ReadTo(text, pos, overlap, digested, tail) && pos >= |text|
    ensures digested == text && tail == Last(text, overlap)
  {
  }

  lemma NothingAhead(d: Detector, text: string, pos: nat, size: nat, overlap: nat)
    requires size > 0 && pos >= |text|
    ensures !ScanFrom(d, text, pos, size, overlap)
  {
  }

  lemma ScanStep(d: Detector, text: string, pos: nat, size: nat, overlap: nat)
    requires size > 0 && pos < |text|
    ensures ScanFrom(d, text, pos, size, overlap) <==>
              || WindowFires(d, text[WindowStart(pos, overlap)..Min(pos + size, |text|)])
              || ScanFrom(d, text, pos + size, size, overlap)
  {
  }

  lemma ReadMore(text: string, pos: nat, size: nat, overlap: nat, digested: string, tail: string)
    requires size > 0 && overlap > 0 && pos < |text| && ReadTo(text, pos, overlap, digested, tail)
    ensures var chunk := text[pos..Min(pos + size, |text|)];
            && tail + chunk == text[WindowStart(pos, overlap)..Min(pos + size, |text|)]
            && ReadTo(text, pos + size, overlap, digested + chunk, Last(tail + chunk, overlap))
  {
    WindowIsSlice(text, pos, Min(pos + size, |text|), overlap);
  }

  lemma FoundMore(text: string, pos: nat, size: nat, overlap: nat, secret: Detector, injection: Detector,
                  magics: seq<string>, reasons: set<Reason>, next: set<Reason>)
    requires size > 0 && pos < |text| && NoneLonger(magics, size)
    requires Found(text, pos, size, overlap, secret, injection, magics, reasons)
    requires var window := text[WindowStart(pos, overlap)..Min(pos + size, |text|)];
             && (PossibleSecret in next <==> PossibleSecret in reasons || WindowFires(secret, window))
             && (PromptInjection in next <==> PromptInjection in reasons || WindowFires(injection, window))
    requires ExecutablePayload in next <==>
               ExecutablePayload in reasons || (pos == 0 && HasPrefix(text[pos..Min(pos + size, |text|)], magics))
    ensures Found(text, pos + size, size, overlap, secret, injection, magics, next)
  {
    ScanStep(secret, text, pos, size, overlap);
    ScanStep(injection, text, pos, size, overlap);
    if pos == 0 {
      MagicInFirstChunk(text, size, magics);
    }
  }

  /** One round of the read loop. */
  method ScanChunk(text: string, pos: nat, size: nat, overlap: nat, secret: Detector, injection: Detector,
                   magics: seq<string>, digested: string, tail: string, reasons: set<Reason>)
    returns (nextDigested: string, nextTail: string, next: set<Reason>)
    requires size > 0 && overlap > 0 && pos < |text| && ReadTo(text, pos, overlap, digested, tail)
    requires NoneLonger(magics, size)
    requires Found(text, pos, size, overlap, secret, injection, magics, reasons)
    ensures ReadTo(text, pos + size, overlap, nextDigested, nextTail)
    ensures Found(text, pos + size, size, overlap, secret, injection, magics, next)
  {
    ReadMore(text, pos, size, overlap, digested, tail);
    var chunk := text[pos..Min(pos + size, |text|)];
    nextDigested := digested + chunk;
    next := reasons;
    if pos == 0 && HasPrefix(chunk, magics) {
      next := next + {ExecutablePayload};
    }
    var window := tail + chunk;
    next := ScanTextWindow(window, secret, injection, next);
    nextTail := Last(window, overlap);
    FoundMore(text, pos, size, overlap, secret, injection, magics, reasons, next);
  }

  /** The read loop: what is digested is the file, and the reasons are those of its windows. */
  method ScanChunks(text: string, size: nat, overlap: nat, secret: Detector, injection: Detector, magics: seq<string>)
    returns (digested: string, tail: string, reasons: set<Reason>)
    requires size > 0 && overlap > 0
    requires NoneLonger(magics, size)
    ensures digested == text && tail == Last(text, overlap)
    ensures PossibleSecret in reasons <==> ScanFrom(secret, text, 0, size, overlap)
    ensures PromptInjection in reasons <==> ScanFrom(injection, text, 0, size, overlap)
    ensures ExecutablePayload in reasons <==> text != "" && HasPrefix(text, magics)
  {
    digested, tail, reasons := "", "", {};
    var pos := 0;
    while pos < |text|
      invariant ReadTo(text, pos, overlap, digested, tail)
      invariant Found(text, pos, size, overlap, secret, injection, magics, reasons)
      decreases |text| - pos
    {
      digested, tail, reasons :=
          ScanChunk(text, pos, size, overlap, secret, injection, magics, digested, tail, reasons);
      pos := pos + size;
    }
    ReadAll(text, pos, overlap, digested, tail);
    NothingAhead(secret, text, pos, size, overlap);
    NothingAhead(injection, text, pos, size, overlap);
  }

  /** The kept tail and the next chunk together are one slice of the text, and so is the new tail. */
  lemma WindowIsSlice(text: string, pos: nat, next: nat, overlap: nat)
    requires pos <= next <= |text| && overlap > 0
    ensures text[..pos] + text[pos..next] == text[..next]
    ensures Last(text[..pos], overlap) + text[pos..next] == text[WindowStart(pos, overlap)..next]
    ensures Last(text[WindowStart(pos, overlap)..next], overlap) == Last(text[..next], overlap)
  {
    assert Last(text[..pos], overlap) == text[WindowStart(pos, overlap)..pos];
  }

  lemma {:induction false} MagicInFirstChunk(text: string, size: nat, magics: seq<string>)
    requires NoneLonger(magics, size)
    ensures HasPrefix(text[0..Min(size, |text|)], magics) <==> HasPrefix(text, magics)
  {
    if magics != [] {
      var chunk, magic := text[0..Min(size, |text|)], magics[0];
      assert magic <= text ==> chunk[..|magic|] == text[..|magic|];
      MagicInFirstChunk(text, size, magics[1..]);
    }
  }

  /** Hashing a preserved file with another chunk size digests the same bytes. */
  method HashPreservedFile(text: string, size: nat) returns (digested: string)
    requires size > 0
    ensures digested == text
  {
    digested := "";
    var pos := 0;
    while pos < |text|
      invariant digested == text[..Min(pos, |text|)]
      decreases |text| - pos
    {
      digested := digested + text[pos..Min(pos + size, |text|)];
      pos := pos + size;
    }
  }

  // ---------------------------------------------- agreement with a whole scan

  /** `text[i..j]` without its NULs is a match, over at most `span` raw characters. */
  predicate RawMatch(d: Detector, text: string, i: nat, j: nat, span: nat)
    requires i <= j <= |text|
  {
    j - i <= span && (d(text[i..j]) || d(Strip(text[i..j])))
  }

  lemma {:induction false} StripConcat(a: string, b: string)
    ensures Strip(a + b) == Strip(a) + Strip(b)
  {
    if b == "" {
      assert a + b == a;
    } else {
      assert (a + b)[..|a + b| - 1] == a + b[..|b| - 1];
      StripConcat(a, b[..|b| - 1]);
    }
  }

  lemma CutInThree(t: string, i: nat, j: nat)
    requires i <= j <= |t|
    ensures t == t[..i] + t[i..j] + t[j..]
  {
  }

  lemma SliceOfSlice(t: string, i: nat, j: nat, k: nat, l: nat)
    requires i <= j <= |t| && k <= l <= j - i
    ensures t[i..j][k..l] == t[i + k..i + l]
  {
    var a, b := t[i..j][k..l], t[i + k..i + l];
    assert |a| == |b| == l - k;
    forall m | 0 <= m < l - k ensures a[m] == b[m] {
      assert t[i..j][k + m] == t[i + (k + m)];
    }
  }

  /** A match inside a part of the text is a match of the whole. */
  lemma StripSlice(t: string, i: nat, j: nat)
    requires i <= j <= |t|
    ensures Strip(t) == Strip(t[..i]) + Strip(t[i..j]) + Strip(t[j..])
  {
    CutInThree(t, i, j);
    StripConcat(t[..i] + t[i..j], t[j..]);
    StripConcat(t[..i], t[i..j]);
  }

  lemma SliceFires(d: Detector, t: string, i: nat, j: nat)
    requires i <= j <= |t| && WindowFires(d, t[i..j])
    ensures WindowFires(d, t)
  {
    if Fires(d, t[i..j]) {
      var k, l :| 0 <= k < l <= |t[i..j]| && MatchAt(d, t[i..j], k, l);
      SliceOfSlice(t, i, j, k, l);
      assert MatchAt(d, t, i + k, i + l);
    } else {
      var part := Strip(t[i..j]);
      var k, l :| 0 <= k < l <= |part| && MatchAt(d, part, k, l);
      StripSlice(t, i, j);
      var before := |Strip(t[..i])|;
      assert Strip(t)[before + k..before + l] == part[k..l];
      assert MatchAt(d, Strip(t), before + k, before + l);
    }
  }

  lemma {:induction false} ScanIsSound(d: Detector, text: string, pos: nat, size: nat, overlap: nat)
    requires size > 0 && ScanFrom(d, text, pos, size, overlap)
    ensures WindowFires(d, text)
    decreases |text| - pos
  {
    var a, b := WindowStart(pos, overlap), Min(pos + size, |text|);
    if WindowFires(d, text[a..b]) {
      SliceFires(d, text, a, b);
    } else {
      ScanIsSound(d, text, pos + size, size, overlap);
    }
  }

  lemma MatchFires(d: Detector, w: string, i: nat, j: nat)
    requires i < j <= |w| && (d(w[i..j]) || (d(Strip(w[i..j])) && Strip(w[i..j]) != ""))
    ensures WindowFires(d, w)
  {
    if d(w[i..j]) {
      assert MatchAt(d, w, i, j);
    } else {
      StripSlice(w, i, j);
      var before, part := |Strip(w[..i])|, Strip(w[i..j]);
      assert Strip(w)[before..before + |part|] == part;
      assert MatchAt(d, Strip(w), before, before + |part|);
    }
  }

  lemma WindowCatches(d: Detector, text: string, a: nat, b: nat, i: nat, j: nat)
    requires a <= i < j <= b <= |text| && !d("") && (d(text[i..j]) || d(Strip(text[i..j])))
    ensures WindowFires(d, text[a..b])
  {
    SliceOfSlice(text, a, b, i - a, j - a);
    MatchFires(d, text[a..b], i - a, j - a);
  }

  /** A match that ends after `pos` and spans at most one more character than the overlap lies in one window. */
  lemma {:induction false} ScanIsComplete(d: Detector, text: string, pos: nat, size: nat, overlap: nat, i: nat, j: nat)
    requires size > 0 && i < j <= |text| && pos < j && RawMatch(d, text, i, j, overlap + 1) && !d("")
    ensures ScanFrom(d, text, pos, size, overlap)
    decreases |text| - pos
  {
    var a, b := WindowStart(pos, overlap), Min(pos + size, |text|);
    if j <= b {
      WindowCatches(d, text, a, b, i, j);
    } else {
      ScanIsComplete(d, text, pos + size, size, overlap, i, j);
    }
  }

  /** Every match of the detector, raw or NUL-stripped, can be found within `span` raw characters. */
  ghost predicate ShortMatches(d: Detector, text: string, span: nat) {
    WindowFires(d, text) ==> exists i, j :: 0 <= i < j <= |text| && RawMatch(d, text, i, j, span)
  }

  /** MAIN: if matches span at most overlap + 1 characters, any chunk size finds what a whole scan finds. */
  lemma ChunkedScanAgrees(d: Detector, text: string, size: nat, overlap: nat)
    requires size > 0 && !d("") && ShortMatches(d, text, overlap + 1)
    ensures ScanFrom(d, text, 0, size, overlap) <==> WindowFires(d, text)
  {
    if ScanFrom(d, text, 0, size, overlap) {
      ScanIsSound(d, text, 0, size, overlap);
    }
    if WindowFires(d, text) {
      var i, j :| 0 <= i < j <= |text| && RawMatch(d, text, i, j, overlap + 1);
      ScanIsComplete(d, text, 0, size, overlap, i, j);
    }
  }

  // --------------------------------------------------------------- limits

  lemma {:induction false} StripShrinks(t: string)
    ensures |Strip(t)| <= |t|
    ensures '\0' !in t ==> Strip(t) == t
  {
    if t != "" {
      StripShrinks(t[..|t| - 1]);
      assert t == t[..|t| - 1] + [t[|t| - 1]];
    }
  }

  lemma ShortWindowMisses(text: string, w: string)
    requires |w| < |text|
    ensures !WindowFires((s: string) => s == text, w)
  {
    StripShrinks(w);
    var d: Detector := (s: string) => s == text;
    forall i, j | 0 <= i < j <= |w| ensures !MatchAt(d, w, i, j) {
      assert |w[i..j]| < |text|;
    }
    forall i, j | 0 <= i < j <= |Strip(w)| ensures !MatchAt(d, Strip(w), i, j) {
      assert |Strip(w)[i..j]| < |text|;
    }
  }

  /** The bound is exact: a match of overlap + 2 characters across a chunk border is missed. */
  lemma LongerMatchIsMissed(text: string, overlap: nat)
    requires overlap > 0 && |text| == overlap + 2
    ensures var d: Detector := (s: string) => s == text;
            WindowFires(d, text) && !ScanFrom(d, text, 0, overlap + 1, overlap)
  {
    var d: Detector := (s: string) => s == text;
    assert text[0..|text|] == text;
    assert MatchAt(d, text, 0, |text|);
    ScanStep(d, text, 0, overlap + 1, overlap);
    ScanStep(d, text, overlap + 1, overlap + 1, overlap);
    ShortWindowMisses(text, text[0..overlap + 1]);
    ShortWindowMisses(text, text[1..overlap + 2]);
  }

  // --------------------------------------------------------- word detectors

  predicate LeftEdge(isWord: char -> bool, t: string, i: nat)
    requires i <= |t|
  {
    i == 0 || !isWord(t[i - 1])
  }

  predicate RightEdge(isWord: char -> bool, t: string, j: nat)
    requires j <= |t|
  {
    j == |t| || !isWord(t[j])
  }

  predicate WordMatchAt(d: Detector, isWord: char -> bool, t: string, i: nat, j: nat)
    requires i <= j <= |t|
  {
    MatchAt(d, t, i, j) && LeftEdge(isWord, t, i) && RightEdge(isWord, t, j)
  }

  /** A pattern between word boundaries. */
  predicate WordFires(d: Detector, isWord: char -> bool, t: string) {
    exists i, j :: 0 <= i < j <= |t| && WordMatchAt(d, isWord, t, i, j)
  }

  /** One window is searched as it is and without its NUL characters. */
  predicate WordWindowFires(d: Detector, isWord: char -> bool, w: string) {
    WordFires(d, isWord, w) || WordFires(d, isWord, Strip(w))
  }

  predicate WordScanFrom(d: Detector, isWord: char -> bool, text: string, pos: nat, size: nat, overlap: nat)
    requires size > 0
    decreases |text| - pos
  {
    pos < |text| &&
    (WordWindowFires(d, isWord, text[WindowStart(pos, overlap)..Min(pos + size, |text|)])
     || WordScanFrom(d, isWord, text, pos + size, size, overlap))
  }

  /** The text as one of the two passes sees it. */
  function View(strip: bool, t: string): string {
    if strip then Strip(t) else t
  }

  lemma ViewConcat(strip: bool, a: string, b: string)
    ensures View(strip, a + b) == View(strip, a) + View(strip, b)
  {
    StripConcat(a, b);
  }

  lemma ViewThree(strip: bool, a: string, b: string, c: string)
    ensures View(strip, a + b + c) == View(strip, a) + View(strip, b) + View(strip, c)
  {
    ViewConcat(strip, a + b, c);
    ViewConcat(strip, a, b);
  }

  /** No word character comes right before, as this pass sees it. */
  predicate LeftOpen(isWord: char -> bool, strip: bool, before: string) {
    var v := View(strip, before);
    v == "" || !isWord(v[|v| - 1])
  }

  predicate RightOpen(isWord: char -> bool, strip: bool, after: string) {
    var v := View(strip, after);
    v == "" || !isWord(v[0])
  }

  /** `text[i..j]` is a match as far as the part from `a` to `b` shows: the part's edges count as boundaries. */
  predicate PartMatch(d: Detector, isWord: char -> bool, strip: bool, text: string, a: nat, b: nat, i: nat, j: nat)
    requires a <= i <= j <= b <= |text|
  {
    && View(strip, text[i..j]) != "" && d(View(strip, text[i..j]))
    && LeftOpen(isWord, strip, text[a..i]) && RightOpen(isWord, strip, text[j..b])
  }

  /** Every position of the view is the end of some prefix. */
  lemma {:induction false} PrefixFor(strip: bool, t: string, k: nat) returns (i: nat)
    requires k <= |View(strip, t)|
    ensures i <= |t| && View(strip, t[..i]) == View(strip, t)[..k]
  {
    if k == |View(strip, t)| {
      i := |t|;
      assert t[..|t|] == t;
    } else {
      var front := t[..|t| - 1];
      assert t == front + [t[|t| - 1]];
      ViewConcat(strip, front, [t[|t| - 1]]);
      OneCharView(strip, t[|t| - 1]);
      i := PrefixFor(strip, front, k);
      assert front[..i] == t[..i];
    }
  }

  lemma OneCharView(strip: bool, c: char)
    ensures |View(strip, [c])| <= 1
  {
    StripShrinks([c]);
  }

  /** A slice of the view is the view of a slice. */
  lemma SliceFor(strip: bool, w: string, k: nat, l: nat) returns (i: nat, j: nat)
    requires k < l <= |View(strip, w)|
    ensures i <= j <= |w| && View(strip, w[..i]) == View(strip, w)[..k]
    ensures View(strip, w[i..j]) == View(strip, w)[k..l] && View(strip, w[j..]) == View(strip, w)[l..]
  {
    j := PrefixFor(strip, w, l);
    i := PrefixFor(strip, w[..j], k);
    assert w[..j][..i] == w[..i];
    CutInThree(w, i, j);
    ViewThree(strip, w[..i], w[i..j], w[j..]);
    assert w[..j] == w[..i] + w[i..j];
    ViewConcat(strip, w[..i], w[i..j]);
    var v := View(strip, w);
    assert v[..l][..k] == v[..k];
    assert v == v[..k] + View(strip, w[i..j]) + View(strip, w[j..]);
    assert v[..l] == v[..k] + View(strip, w[i..j]);
  }

  lemma ThreeSlices(text: string, a: nat, b: nat, m: nat, n: nat)
    requires a <= b <= |text| && m <= n <= b - a
    ensures text[a..b][..m] == text[a..a + m] && text[a..b][m..n] == text[a + m..a + n]
              && text[a..b][n..] == text[a + n..b]
  {
    SliceOfSlice(text, a, b, 0, m);
    SliceOfSlice(text, a, b, m, n);
    SliceOfSlice(text, a, b, n, b - a);
  }

  lemma EdgesAreOpen(isWord: char -> bool, v: string, k: nat, l: nat)
    requires k <= l <= |v|
    ensures LeftEdge(isWord, v, k) <==> v[..k] == "" || !isWord(v[..k][|v[..k]| - 1])
    ensures RightEdge(isWord, v, l) <==> v[l..] == "" || !isWord(v[l..][0])
  {
  }

  lemma ReportIsPart(d: Detector, isWord: char -> bool, strip: bool, text: string, a: nat, b: nat, k: nat, l: nat)
    returns (i: nat, j: nat)
    requires a <= b <= |text| && k < l <= |View(strip, text[a..b])|
    requires WordMatchAt(d, isWord, View(strip, text[a..b]), k, l)
    ensures a <= i <= j <= b && PartMatch(d, isWord, strip, text, a, b, i, j)
  {
    var m, n := SliceFor(strip, text[a..b], k, l);
    ThreeSlices(text, a, b, m, n);
    EdgesAreOpen(isWord, View(strip, text[a..b]), k, l);
    i, j := a + m, a + n;
  }

  lemma PartInThree(text: string, a: nat, b: nat, i: nat, j: nat)
    requires a <= i <= j <= b <= |text|
    ensures text[a..b] == text[a..i] + text[i..j] + text[j..b]
  {
  }

  lemma ViewOfParts(strip: bool, w: string, p: string, q: string, r: string)
    requires w == p + q + r
    ensures View(strip, w) == View(strip, p) + View(strip, q) + View(strip, r)
  {
    ViewThree(strip, p, q, r);
  }

  lemma PartIsReport(d: Detector, isWord: char -> bool, strip: bool, text: string, a: nat, b: nat, i: nat, j: nat)
    requires a <= i <= j <= b <= |text| && PartMatch(d, isWord, strip, text, a, b, i, j)
    ensures WordFires(d, isWord, View(strip, text[a..b]))
  {
    var before, match', after := View(strip, text[a..i]), View(strip, text[i..j]), View(strip, text[j..b]);
    PartInThree(text, a, b, i, j);
    ViewOfParts(strip, text[a..b], text[a..i], text[i..j], text[j..b]);
    MiddleFires(d, isWord, before, match', after);
  }

  lemma MiddleFires(d: Detector, isWord: char -> bool, before: string, match': string, after: string)
    requires match' != "" && d(match') && (before == "" || !isWord(before[|before| - 1]))
              && (after == "" || !isWord(after[0]))
    ensures WordFires(d, isWord, before + match' + after)
  {
    var v, k, l := before + match' + after, |before|, |before| + |match'|;
    assert v[k..l] == match';
    assert WordMatchAt(d, isWord, v, k, l);
  }

  /** What a pass over a window reports, in terms of the whole text. */
  lemma WindowReports(d: Detector, isWord: char -> bool, strip: bool, text: string, a: nat, b: nat)
    requires a <= b <= |text|
    ensures WordFires(d, isWord, View(strip, text[a..b])) <==>
              exists i, j :: a <= i <= j <= b && PartMatch(d, isWord, strip, text, a, b, i, j)
  {
    var v := View(strip, text[a..b]);
    if WordFires(d, isWord, v) {
      var k, l :| 0 <= k < l <= |v| && WordMatchAt(d, isWord, v, k, l);
      var i, j := ReportIsPart(d, isWord, strip, text, a, b, k, l);
    }
    if i, j :| a <= i <= j <= b && PartMatch(d, isWord, strip, text, a, b, i, j) {
      PartIsReport(d, isWord, strip, text, a, b, i, j);
    }
  }

  /** A boundary seen from the whole text is one seen from any part. */
  lemma OpenInPart(isWord: char -> bool, strip: bool, far: string, near: string)
    ensures LeftOpen(isWord, strip, far + near) ==> LeftOpen(isWord, strip, near)
    ensures RightOpen(isWord, strip, near + far) ==> RightOpen(isWord, strip, near)
    ensures View(strip, near) != "" && LeftOpen(isWord, strip, near) ==> LeftOpen(isWord, strip, far + near)
    ensures View(strip, near) != "" && RightOpen(isWord, strip, near) ==> RightOpen(isWord, strip, near + far)
  {
    ViewConcat(strip, far, near);
    ViewConcat(strip, near, far);
  }

  lemma PartOfWhole(d: Detector, isWord: char -> bool, strip: bool, text: string, a: nat, b: nat, i: nat, j: nat)
    requires a <= i <= j <= b <= |text|
    ensures PartMatch(d, isWord, strip, text, 0, |text|, i, j) ==> PartMatch(d, isWord, strip, text, a, b, i, j)
    ensures PartMatch(d, isWord, strip, text, a, b, i, j) ==>
              PartMatch(d, isWord, strip, text, 0, |text|, i, j) || CutAtEdge(isWord, strip, text, a, b, i, j)
  {
    assert text[0..i] == text[..a] + text[a..i] && text[j..|text|] == text[j..b] + text[b..];
    OpenInPart(isWord, strip, text[..a], text[a..i]);
    OpenInPart(isWord, strip, text[b..], text[j..b]);
  }

  /** Nothing but the edge of the part is between the match and a word character. */
  predicate CutAtEdge(isWord: char -> bool, strip: bool, text: string, a: nat, b: nat, i: nat, j: nat)
    requires a <= i <= j <= b <= |text|
  {
    || (View(strip, text[a..i]) == "" && !LeftOpen(isWord, strip, text[0..i]))
    || (View(strip, text[j..b]) == "" && !RightOpen(isWord, strip, text[j..|text|]))
  }

  /** The window has a match that touches one of its edges from inside a word. */
  predicate EdgeMatch(d: Detector, isWord: char -> bool, strip: bool, text: string, a: nat, b: nat)
    requires a <= b <= |text|
  {
    exists i, j :: a <= i <= j <= b && PartMatch(d, isWord, strip, text, a, b, i, j)
                   && CutAtEdge(isWord, strip, text, a, b, i, j)
  }

  /** Some window from the chunk at `pos` on has such a match, in one of its two passes. */
  predicate EdgeFrom(d: Detector, isWord: char -> bool, text: string, pos: nat, size: nat, overlap: nat)
    requires size > 0
    decreases |text| - pos
  {
    pos < |text| &&
    (EdgeMatch(d, isWord, false, text, WindowStart(pos, overlap), Min(pos + size, |text|))
     || EdgeMatch(d, isWord, true, text, WindowStart(pos, overlap), Min(pos + size, |text|))
     || EdgeFrom(d, isWord, text, pos + size, size, overlap))
  }

  /** One pass over one window fires exactly for a match of the file inside it or one cut at its edge. */
  lemma PassExactly(d: Detector, isWord: char -> bool, strip: bool, text: string, a: nat, b: nat)
    requires a <= b <= |text|
    ensures WordFires(d, isWord, View(strip, text[a..b])) ==>
              WordFires(d, isWord, View(strip, text)) || EdgeMatch(d, isWord, strip, text, a, b)
    ensures EdgeMatch(d, isWord, strip, text, a, b) ==> WordFires(d, isWord, View(strip, text[a..b]))
  {
    WindowReports(d, isWord, strip, text, a, b);
    WindowReports(d, isWord, strip, text, 0, |text|);
    assert text[0..|text|] == text;
    if WordFires(d, isWord, View(strip, text[a..b])) {
      var i, j :| a <= i <= j <= b && PartMatch(d, isWord, strip, text, a, b, i, j);
      PartOfWhole(d, isWord, strip, text, a, b, i, j);
    }
  }

  lemma {:induction false} WordScanIsSound(d: Detector, isWord: char -> bool, text: string, pos: nat, size: nat,
                                           overlap: nat)
    requires size > 0
    ensures WordScanFrom(d, isWord, text, pos, size, overlap) ==>
              WordWindowFires(d, isWord, text) || EdgeFrom(d, isWord, text, pos, size, overlap)
    ensures EdgeFrom(d, isWord, text, pos, size, overlap) ==> WordScanFrom(d, isWord, text, pos, size, overlap)
    decreases |text| - pos
  {
    if pos < |text| {
      PassExactly(d, isWord, false, text, WindowStart(pos, overlap), Min(pos + size, |text|));
      PassExactly(d, isWord, true, text, WindowStart(pos, overlap), Min(pos + size, |text|));
      WordScanIsSound(d, isWord, text, pos + size, size, overlap);
    }
  }

  /** MAIN: a word detector is never silenced by the chunking, in either pass. */
  lemma {:induction false} WordMatchIsNeverMissed(d: Detector, isWord: char -> bool, strip: bool, text: string,
                                                  pos: nat,
                                                  size: nat, overlap: nat, i: nat, j: nat)
    requires size > 0 && i < j <= |text| && pos < j && j - i <= overlap + 1
    requires PartMatch(d, isWord, strip, text, 0, |text|, i, j)
    ensures WordScanFrom(d, isWord, text, pos, size, overlap)
    decreases |text| - pos
  {
    var a, b := WindowStart(pos, overlap), Min(pos + size, |text|);
    if j <= b {
      PartOfWhole(d, isWord, strip, text, a, b, i, j);
      WindowReports(d, isWord, strip, text, a, b);
    } else {
      WordMatchIsNeverMissed(d, isWord, strip, text, pos + size, size, overlap, i, j);
    }
  }

  /** If the whole text fires, it does so for a match of at most `span` raw characters. */
  ghost predicate ShortWordMatches(d: Detector, isWord: char -> bool, text: string, span: nat) {
    WordWindowFires(d, isWord, text) ==>
      exists strip, i, j :: 0 <= i < j <= |text| && j - i <= span && PartMatch(d, isWord, strip, text, 0, |text|, i, j)
  }

  /**
   MAIN: for word detectors whose matches span at most overlap + 1 characters, the chunked scan fires
   exactly when the whole text does or some window has a match that only the window's edge bounds.
   */
  lemma WordScanExactly(d: Detector, isWord: char -> bool, text: string, size: nat, overlap: nat)
    requires size > 0 && ShortWordMatches(d, isWord, text, overlap + 1)
    ensures WordScanFrom(d, isWord, text, 0, size, overlap) <==>
              WordWindowFires(d, isWord, text) || EdgeFrom(d, isWord, text, 0, size, overlap)
  {
    WordScanIsSound(d, isWord, text, 0, size, overlap);
    if WordWindowFires(d, isWord, text) {
      var strip, i, j :|
        0 <= i < j <= |text| && j - i <= overlap + 1 && PartMatch(d, isWord, strip, text, 0, |text|, i, j);
      WordMatchIsNeverMissed(d, isWord, strip, text, 0, size, overlap, i, j);
    }
  }

  lemma InsideWordIsSilent(d: Detector, isWord: char -> bool, text: string)
    requires |text| == 2 && isWord(text[1]) && forall s: string :: d(s) ==> |s| == 1 && s[0] == text[0] != text[1]
    ensures !WordFires(d, isWord, text)
  {
    forall i, j | 0 <= i < j <= 2 ensures !WordMatchAt(d, isWord, text, i, j) {
      var part := text[i..j];
      assert |part| == j - i && part[0] == text[i];
    }
  }

  /** It may speak up where the whole text has no match: a chunk that ends inside a word looks like the end of one. */
  lemma ChunkEdgeOverReports(isWord: char -> bool, text: string, overlap: nat)
    requires |text| == 2 && text[0] != text[1] && isWord(text[1]) && '\0' !in text
    ensures var d: Detector := (s: string) => s == [text[0]];
            WordScanFrom(d, isWord, text, 0, 1, overlap) && !WordWindowFires(d, isWord, text)
  {
    var d: Detector := (s: string) => s == [text[0]];
    var w := text[0..1];
    assert w == [text[0]] && w[0..1] == w;
    assert WordMatchAt(d, isWord, w, 0, 1);
    StripShrinks(text);
    InsideWordIsSilent(d, isWord, text);
  }
}
