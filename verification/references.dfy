/** Work Context URIs and repository references: parsing, printing and normalization. */
module References {
  import opened Options
  import opened Text
  import opened Percent
  import Utf8

  // ------------------------------------------------------------ generic URLs

  datatype Url = Url(scheme: string, netloc: string, path: string, query: string, fragment: string)

  predicate Alpha(c: char) {
    Lower(c) || 'A' <= c <= 'Z'
  }

  predicate SchemeChar(c: char) {
    Alpha(c) || IsDigit(c) || c == '+' || c == '-' || c == '.'
  }

  function LowerChar(c: char): char {
    if 'A' <= c <= 'Z' then (c as int + 32) as char else c
  }

  function LowerAll(s: string): string {
    if s == "" then "" else [LowerChar(s[0])] + LowerAll(s[1..])
  }

  predicate AllScheme(s: string) {
    forall i | 0 <= i < |s| :: SchemeChar(s[i])
  }

  function DropLeading(s: string): string {
    if s != "" && s[0] <= ' ' then DropLeading(s[1..]) else s
  }

  function DropBreaks(s: string): string {
    if s == "" then ""
    else if s[0] == '\t' || s[0] == '\r' || s[0] == '\n' then DropBreaks(s[1..])
    else [s[0]] + DropBreaks(s[1..])
  }

  /** Leading control characters and spaces go, tabs and line breaks go everywhere. */
  function Clean(s: string): string {
    DropBreaks(DropLeading(s))
  }

  function Before(s: string, c: char): string {
    s[..IndexOf(s, c)]
  }

  /** What follows the first `c`, or nothing. */
  function Behind(s: string, c: char): string {
    var i := IndexOf(s, c);
    if i == |s| then "" else s[i + 1..]
  }

  function NetlocEnd(s: string): (n: nat)
    ensures n <= |s| && (n < |s| ==> s[n] in {'/', '?', '#'}) && forall k | 0 <= k < n :: s[k] !in {'/', '?', '#'}
  {
    if s == "" || s[0] in {'/', '?', '#'} then 0 else 1 + NetlocEnd(s[1..])
  }

  /** The part after the scheme: authority after `//`, then fragment, then query. */
  function ParseRest(scheme: string, rest: string): Url {
    var hasNetloc := |rest| >= 2 && rest[..2] == "//";
    var n := if hasNetloc then NetlocEnd(rest[2..]) else 0;
    var netloc := if hasNetloc then rest[2..][..n] else "";
    var tail := if hasNetloc then rest[2..][n..] else rest;
    var fragment := Behind(tail, '#');
    var noFragment := Before(tail, '#');
    Url(scheme, netloc, Before(noFragment, '?'), Behind(noFragment, '?'), fragment)
  }

  function UrlParse(value: string): Url {
    var url := Clean(value);
    var i := IndexOf(url, ':');
    if 0 < i < |url| && Alpha(url[0]) && AllScheme(url[..i])
    then ParseRest(LowerAll(url[..i]), url[i + 1..])
    else ParseRest("", url)
  }

  // -------------------------------------------------------- Work Context URIs

  datatype WorkctxUri = WorkctxUri(contextId: string, entityType: string, entityId: string)

  predicate ValidUri(u: WorkctxUri) {
    && Segments(u.contextId, {'-'}) && Segments(u.entityType, {'-'})
    && u.entityId != "" && u.entityId != "." && u.entityId != ".."
    && '/' !in u.entityId && '\\' !in u.entityId
  }

  function PrintUri(u: WorkctxUri): string {
    "workctx://" + u.contextId + "/" + u.entityType + "/" + Quote(u.entityId, {})
  }

  function ParseUri(value: string): (r: Option<WorkctxUri>)
    ensures r.Some? ==> ValidUri(r.value)
  {
    var url := UrlParse(value);
    var parts := Split(url.path);
    if url.scheme != "workctx" || url.query != "" || '?' in value || url.fragment != "" || '#' in value then None
    else if |parts| != 3 || parts[0] != "" || parts[1] == "" || parts[2] == "" || !WellEscaped(parts[2]) then None
    else
      var id :- Unquote(parts[2]);
      var u := WorkctxUri(url.netloc, parts[1], id);
      if ValidUri(u) then Some(u) else None
  }

  predicate IsObservationFragment(f: string) {
    |f| == 7 && f[..4] == "OBS-" && AllDigits(f[4..])
  }

  /** The canonical form; an authored `#OBS-NNN` is taken as part of an observation identifier. */
  function Normalize(value: string, observationOk: string -> bool): Option<string> {
    var url := UrlParse(value);
    if url.fragment == "" then
      var u :- ParseUri(value);
      if u.entityType == "observation" && !observationOk(u.entityId) then None else Some(PrintUri(u))
    else if url.query != "" then
      var u :- ParseUri(value);
      Some(PrintUri(u))
    else if url.scheme != "workctx" || !IsObservationFragment(url.fragment) then None
    else
      var parts := Split(url.path);
      if |parts| != 3 || parts[0] != "" || parts[1] != "observation" || parts[2] == "" then None
      else
        var u :- ParseUri(Before(value, '#') + "%23" + url.fragment);
        if observationOk(u.entityId) then Some(PrintUri(u)) else None
  }

  // ------------------------------------------------------------- round trip

  /** Printable ASCII without a space. */
  predicate Visible(s: string) {
    forall i | 0 <= i < |s| :: ' ' < s[i] < '\U{7F}'
  }

  lemma {:induction false} CleanVisible(s: string)
    requires Visible(s)
    ensures DropBreaks(s) == s && Clean(s) == s
  {
    if s != "" {
      CleanVisible(s[1..]);
      assert s == [s[0]] + s[1..];
    }
  }

  lemma {:induction false} NetlocIs(a: string, b: string)
    requires b != "" && b[0] == '/' && forall i | 0 <= i < |a| :: a[i] !in {'/', '?', '#'}
    ensures NetlocEnd(a + b) == |a|
  {
    if a != "" {
      NetlocIs(a[1..], b);
      assert (a + b)[1..] == a[1..] + b;
    }
  }

  lemma CutNone(s: string, c: char)
    requires c !in s
    ensures Before(s, c) == s && Behind(s, c) == ""
  {
  }

  lemma CutOnce(a: string, c: char, b: string)
    requires c !in a
    ensures Before(a + [c] + b, c) == a && Behind(a + [c] + b, c) == b
  {
    IndexAfter(a, c, b);
  }

  /** How a URL with an authority and a slash-led path comes apart. */
  lemma RestParts(scheme: string, netloc: string, path: string, tail: string)
    requires path != "" && path[0] == '/' && '#' !in path && '?' !in path
    requires forall i | 0 <= i < |netloc| :: netloc[i] !in {'/', '?', '#'}
    requires tail == "" || tail[0] == '#'
    ensures ParseRest(scheme, "//" + netloc + path + tail) ==
            Url(scheme, netloc, path, "", if tail == "" then "" else tail[1..])
  {
    var rest := "//" + netloc + path + tail;
    assert rest[..2] == "//" && rest[2..] == netloc + (path + tail);
    NetlocIs(netloc, path + tail);
    assert rest[2..][..|netloc|] == netloc && rest[2..][|netloc|..] == path + tail;
    if tail == "" {
      assert path + tail == path;
      CutNone(path, '#');
    } else {
      assert path + tail == path + ['#'] + tail[1..];
      CutOnce(path, '#', tail[1..]);
    }
    CutNone(path, '?');
  }

  lemma SchemeParts(scheme: string, rest: string)
    requires scheme != "" && Visible(scheme + ":" + rest) && AllScheme(scheme) && LowerAll(scheme) == scheme
              && Alpha(scheme[0])
    ensures UrlParse(scheme + ":" + rest) == ParseRest(scheme, rest)
  {
    var value := scheme + ":" + rest;
    CleanVisible(value);
    assert ':' !in scheme;
    IndexAfter(scheme, ':', rest);
    assert value == scheme + [':'] + rest;
    assert value[..|scheme|] == scheme && value[|scheme| + 1..] == rest;
  }

  lemma SegmentsCharacters(s: string, separators: set<char>)
    requires Segments(s, separators) && separators <= {'-', '.', '_'}
    ensures Visible(s) && forall i | 0 <= i < |s| :: s[i] !in {'/', '?', '#', ':', '@', '%'}
  {
  }

  lemma QuotedIsVisible(s: string, safe: set<char>)
    requires safe <= {'/'}
    ensures Visible(Quote(s, safe))
    ensures forall i | 0 <= i < |Quote(s, safe)| :: Quote(s, safe)[i] !in {'?', '#', ':', '@', '\\'}
    ensures safe == {} ==> '/' !in Quote(s, safe)
  {
    QuotedCharacters(s, safe);
  }

  lemma PathCharacters(u: WorkctxUri)
    requires ValidUri(u)
    ensures var path := "/" + u.entityType + "/" + Quote(u.entityId, {});
            Visible(path) && '?' !in path && '#' !in path
  {
    SegmentsCharacters(u.entityType, {'-'});
    QuotedIsVisible(u.entityId, {});
  }

  lemma SplitPrinted(contextId: string, path: string)
    ensures "workctx://" + contextId + path == "workctx" + ":" + ("//" + contextId + path + "")
  {
  }

  lemma {:induction false} LowerStays(s: string)
    requires forall i | 0 <= i < |s| :: Lower(s[i])
    ensures LowerAll(s) == s && AllScheme(s)
  {
    if s != "" {
      LowerStays(s[1..]);
      assert s == [s[0]] + s[1..];
    }
  }

  /** A URL with a lower-case scheme, an authority and a path comes apart as it was put together. */
  lemma AuthorityUrl(scheme: string, netloc: string, path: string, tail: string)
    requires scheme != "" && forall i | 0 <= i < |scheme| :: Lower(scheme[i])
    requires Visible(netloc) && forall i | 0 <= i < |netloc| :: netloc[i] !in {'/', '?', '#'}
    requires Visible(path) && '?' !in path && '#' !in path && path != "" && path[0] == '/'
    requires Visible(tail) && (tail == "" || tail[0] == '#')
    ensures UrlParse(scheme + ":" + ("//" + netloc + path + tail)) ==
            Url(scheme, netloc, path, "", if tail == "" then "" else tail[1..])
  {
    LowerStays(scheme);
    SchemeParts(scheme, "//" + netloc + path + tail);
    RestParts(scheme, netloc, path, tail);
  }

  lemma Regroup(a: string, b: string, c: string)
    ensures "workctx://" + a + "/" + b + "/" + c == "workctx" + ":" + ("//" + a + ("/" + b + "/" + c) + "")
  {
    assert "workctx://" + a + "/" + b + "/" + c == "workctx://" + a + ("/" + b + "/" + c);
    SplitPrinted(a, "/" + b + "/" + c);
  }

  lemma ConcatLacks(a: string, b: string, c: string, x: char)
    requires x !in a && x !in b && x !in c && x !in "workctx:///"
    ensures x !in "workctx://" + a + "/" + b + "/" + c
  {
  }

  lemma PrintedHasNoQuery(u: WorkctxUri)
    requires ValidUri(u)
    ensures '?' !in PrintUri(u) && '#' !in PrintUri(u)
  {
    SegmentsCharacters(u.contextId, {'-'});
    SegmentsCharacters(u.entityType, {'-'});
    QuotedIsVisible(u.entityId, {});
    ConcatLacks(u.contextId, u.entityType, Quote(u.entityId, {}), '?');
    ConcatLacks(u.contextId, u.entityType, Quote(u.entityId, {}), '#');
  }

  lemma PrintedUriUrl(u: WorkctxUri)
    requires ValidUri(u)
    ensures '?' !in PrintUri(u) && '#' !in PrintUri(u)
    ensures UrlParse(PrintUri(u)) ==
              Url("workctx", u.contextId, "/" + u.entityType + "/" + Quote(u.entityId, {}), "", "")
  {
    PrintedHasNoQuery(u);
    PathCharacters(u);
    SegmentsCharacters(u.contextId, {'-'});
    var path := "/" + u.entityType + "/" + Quote(u.entityId, {});
    AuthorityUrl("workctx", u.contextId, path, "");
    Regroup(u.contextId, u.entityType, Quote(u.entityId, {}));
  }

  lemma ThreeParts(a: string, b: string)
    requires '/' !in a && '/' !in b
    ensures Split("/" + a + "/" + b) == ["", a, b]
  {
    assert "/" + a + "/" + b == "" + "/" + (a + "/" + b);
    SplitAtSlash("", a + "/" + b);
    SplitAtSlash(a, b);
    SplitOne(b);
  }

  /** MAIN: parsing the printed form of any valid URI gives the URI back. */
  lemma UriRoundTrip(u: WorkctxUri)
    requires ValidUri(u)
    ensures ParseUri(PrintUri(u)) == Some(u)
  {
    PrintedUriUrl(u);
    SegmentsCharacters(u.entityType, {'-'});
    QuotedIsVisible(u.entityId, {});
    ThreeParts(u.entityType, Quote(u.entityId, {}));
    QuotedNotEmpty(u.entityId, {});
    QuoteDecodes(u.entityId, {});
    QuoteRoundTrip(u.entityId, {});
  }

  /** MAIN: whatever was parsed prints to a form that parses the same and prints the same. */
  lemma PrintedIsCanonical(value: string)
    requires ParseUri(value).Some?
    ensures ParseUri(PrintUri(ParseUri(value).value)) == ParseUri(value)
  {
    UriRoundTrip(ParseUri(value).value);
  }

  /** MAIN: normalization is idempotent, and the normal form names the same entity. */
  lemma NormalizeIdempotent(value: string, observationOk: string -> bool)
    requires Normalize(value, observationOk).Some?
    ensures Normalize(Normalize(value, observationOk).value, observationOk) == Normalize(value, observationOk)
    ensures ParseUri(value).Some? ==> ParseUri(Normalize(value, observationOk).value) == ParseUri(value)
  {
    var u := NormalizedUri(value, observationOk);
    PrintedUriUrl(u);
    UriRoundTrip(u);
  }

  /** The entity a successful normalization printed, already past the observation check. */
  lemma NormalizedUri(value: string, observationOk: string -> bool) returns (u: WorkctxUri)
    requires Normalize(value, observationOk).Some?
    ensures ValidUri(u) && Normalize(value, observationOk) == Some(PrintUri(u))
    ensures u.entityType == "observation" ==> observationOk(u.entityId)
    ensures ParseUri(value).Some? ==> ParseUri(value) == Some(u)
  {
    var url := UrlParse(value);
    if url.fragment == "" {
      u := ParseUri(value).value;
    } else {
      u := ParseUri(Before(value, '#') + "%23" + url.fragment).value;
    }
  }

  // ------------------------------------------------------ accepted spellings

  lemma {:induction false} CleanRemovesOnly(s: string, c: char)
    ensures c in Clean(s) ==> c in s
  {
    BreaksRemoveOnly(DropLeading(s), c);
    LeadingRemoveOnly(s, c);
  }

  lemma {:induction false} BreaksRemoveOnly(s: string, c: char)
    ensures c in DropBreaks(s) ==> c in s
  {
    if s != "" {
      BreaksRemoveOnly(s[1..], c);
    }
  }

  lemma {:induction false} LeadingRemoveOnly(s: string, c: char)
    ensures c in DropLeading(s) ==> c in s
  {
    if s != "" && s[0] <= ' ' {
      LeadingRemoveOnly(s[1..], c);
    }
  }

  lemma {:induction false} LowerPointwise(s: string)
    ensures |LowerAll(s)| == |s| && forall i | 0 <= i < |s| :: LowerAll(s)[i] == LowerChar(s[i])
  {
    if s != "" {
      LowerPointwise(s[1..]);
    }
  }

  ghost predicate AllLower(s: string) {
    forall i | 0 <= i < |s| :: Lower(s[i])
  }

  lemma LoweredToLetters(s: string, t: string)
    requires LowerAll(s) == t && AllLower(t)
    ensures |s| == |t| && AllScheme(s) && forall i | 0 <= i < |s| :: Alpha(s[i])
  {
    LowerPointwise(s);
    forall i | 0 <= i < |s| ensures Alpha(s[i]) {
      assert LowerChar(s[i]) == t[i];
    }
  }

  lemma {:induction false} SplitHasNoSlash(s: string)
    ensures forall i | 0 <= i < |Split(s)| :: '/' !in Split(s)[i]
    ensures Join(Split(s)) == s
  {
    if s != "" {
      SplitHasNoSlash(s[1..]);
      var rest := Split(s[1..]);
      if s[0] == '/' {
        assert ([""] + rest)[1..] == rest;
        assert s == "/" + s[1..];
      } else {
        assert s == [s[0]] + s[1..];
        if |rest| > 1 {
          assert ([[s[0]] + rest[0]] + rest[1..])[1..] == rest[1..];
        }
      }
    }
  }

  /** A spelling of `u`: any case of the scheme, any well-formed escapes, tabs and line breaks ignored. */
  ghost predicate Spells(value: string, u: WorkctxUri, scheme: string, id: string) {
    && '?' !in value && '#' !in value && LowerAll(scheme) == "workctx"
    && Clean(value) == scheme + ":" + ("//" + u.contextId + ("/" + u.entityType + "/" + id))
    && id != "" && '/' !in id && WellEscaped(id) && Unquote(id) == Some(u.entityId)
  }

  lemma ColonAfter(scheme: string, rest: string)
    requires AllScheme(scheme)
    ensures var url := scheme + ":" + rest;
            IndexOf(url, ':') == |scheme| && url[..|scheme|] == scheme && url[|scheme| + 1..] == rest
  {
    var url := scheme + ":" + rest;
    assert ':' !in scheme;
    IndexAfter(scheme, ':', rest);
    assert url == scheme + [':'] + rest;
  }

  lemma SchemeTaken(value: string, scheme: string, rest: string, lowered: string)
    requires LowerAll(scheme) == lowered && lowered != "" && AllLower(lowered)
    requires Clean(value) == scheme + ":" + rest
    ensures UrlParse(value) == ParseRest(lowered, rest)
  {
    LoweredToLetters(scheme, lowered);
    ColonAfter(scheme, rest);
    assert (scheme + ":" + rest)[0] == scheme[0];
  }

  lemma SchemeIsFound(value: string, scheme: string, rest: string)
    requires LowerAll(scheme) == "workctx" && Clean(value) == scheme + ":" + rest
    ensures UrlParse(value) == ParseRest("workctx", rest)
  {
    SchemeTaken(value, scheme, rest, "workctx");
  }

  lemma AuthorityRest(netloc: string, path: string)
    requires Segments(netloc, {'-'}) && path != "" && path[0] == '/' && '?' !in path && '#' !in path
    ensures ParseRest("workctx", "//" + netloc + path) == Url("workctx", netloc, path, "", "")
  {
    SegmentsCharacters(netloc, {'-'});
    RestParts("workctx", netloc, path, "");
    assert "//" + netloc + path + "" == "//" + netloc + path;
  }

  lemma PathOfClean(value: string, scheme: string, netloc: string, path: string)
    requires '?' !in value && '#' !in value && Clean(value) == scheme + ":" + ("//" + netloc + path)
    ensures '?' !in path && '#' !in path
  {
    CleanRemovesOnly(value, '?');
    CleanRemovesOnly(value, '#');
    var head := scheme + ":" + ("//" + netloc);
    assert scheme + ":" + ("//" + netloc + path) == head + path;
    PathLacks(Clean(value), head, path);
  }

  lemma SpellingUrl(value: string, netloc: string, path: string, scheme: string)
    requires '?' !in value && '#' !in value && LowerAll(scheme) == "workctx" && Segments(netloc, {'-'})
    requires path != "" && path[0] == '/' && Clean(value) == scheme + ":" + ("//" + netloc + path)
    ensures UrlParse(value) == Url("workctx", netloc, path, "", "")
  {
    PathOfClean(value, scheme, netloc, path);
    SchemeIsFound(value, scheme, "//" + netloc + path);
    AuthorityRest(netloc, path);
  }

  lemma SpellingParses(value: string, u: WorkctxUri, scheme: string, id: string)
    requires ValidUri(u) && Spells(value, u, scheme, id)
    ensures ParseUri(value) == Some(u)
  {
    SpellingUrl(value, u.contextId, "/" + u.entityType + "/" + id, scheme);
    SegmentsCharacters(u.entityType, {'-'});
    ThreeParts(u.entityType, id);
  }

  lemma PathLacks(url: string, head: string, path: string)
    requires url == head + path
    ensures '?' !in url ==> '?' !in path
    ensures '#' !in url ==> '#' !in path
  {
    assert forall i | 0 <= i < |path| :: url[|head| + i] == path[i];
  }

  lemma ParsedRest(scheme: string, rest: string)
    requires '#' !in rest && '?' !in rest && ParseRest(scheme, rest).netloc != ""
    ensures rest == "//" + ParseRest(scheme, rest).netloc + ParseRest(scheme, rest).path
  {
    var n := NetlocEnd(rest[2..]);
    var tail := rest[2..][n..];
    assert rest == "//" + rest[2..][..n] + tail;
    CutNone(tail, '#');
    CutNone(tail, '?');
  }

  lemma CutAtColon(url: string, i: nat)
    requires i < |url| && url[i] == ':'
    ensures url == url[..i] + ":" + url[i + 1..]
  {
  }

  lemma TailLacks(url: string, i: nat, c: char)
    requires i <= |url| && c !in url
    ensures c !in url[i..]
  {
  }

  lemma ParsedUrl(value: string) returns (scheme: string)
    requires '?' !in value && '#' !in value && UrlParse(value).scheme == "workctx" && UrlParse(value).netloc != ""
    ensures LowerAll(scheme) == "workctx"
    ensures Clean(value) == scheme + ":" + ("//" + UrlParse(value).netloc + UrlParse(value).path)
  {
    var url := Clean(value);
    var i := IndexOf(url, ':');
    scheme := url[..i];
    assert i < |url| && UrlParse(value) == ParseRest(LowerAll(scheme), url[i + 1..]);
    CutAtColon(url, i);
    CleanRemovesOnly(value, '?');
    CleanRemovesOnly(value, '#');
    TailLacks(url, i + 1, '?');
    TailLacks(url, i + 1, '#');
    ParsedRest(LowerAll(scheme), url[i + 1..]);
  }

  lemma JoinThree(parts: seq<string>)
    requires |parts| == 3 && parts[0] == ""
    ensures Join(parts) == "/" + parts[1] + "/" + parts[2]
  {
    var tail := parts[1..];
    assert tail[1..] == [parts[2]] && tail[0] == parts[1];
    assert Join(tail) == parts[1] + "/" + parts[2];
    assert "" + "/" + Join(tail) == "/" + parts[1] + "/" + parts[2];
  }

  lemma ParsedIsSpelled(value: string, u: WorkctxUri) returns (scheme: string, id: string)
    requires ParseUri(value) == Some(u)
    ensures Spells(value, u, scheme, id)
  {
    scheme := ParsedUrl(value);
    var path := UrlParse(value).path;
    SplitHasNoSlash(path);
    id := Split(path)[2];
    JoinThree(Split(path));
  }

  /** MAIN: exactly the spellings of a valid URI are accepted. */
  lemma AcceptedSpellings(value: string, u: WorkctxUri)
    ensures ParseUri(value) == Some(u) <==> ValidUri(u) && exists scheme, id :: Spells(value, u, scheme, id)
  {
    if ParseUri(value) == Some(u) {
      var scheme, id := ParsedIsSpelled(value, u);
    }
    if ValidUri(u) {
      if scheme, id :| Spells(value, u, scheme, id) {
        SpellingParses(value, u, scheme, id);
      }
    }
  }

  // ------------------------------------------- authored observation fragments

  lemma {:induction false} QuoteConcat(a: string, b: string)
    ensures Quote(a + b, {}) == Quote(a, {}) + Quote(b, {})
  {
    if a == "" {
      assert a + b == b;
    } else {
      QuoteConcat(a[1..], b);
      QuoteStep(a, b);
      Associative(QuoteChar(a[0], {}), Quote(a[1..], {}), Quote(b, {}));
    }
  }

  lemma QuoteStep(a: string, b: string)
    requires a != ""
    ensures Quote(a + b, {}) == QuoteChar(a[0], {}) + Quote(a[1..] + b, {})
  {
    assert (a + b)[0] == a[0];
    assert (a + b)[1..] == a[1..] + b;
  }

  lemma Associative(a: string, b: string, c: string)
    ensures (a + b) + c == a + (b + c)
  {
  }

  lemma {:induction false} QuoteKeeps(s: string)
    requires forall i | 0 <= i < |s| :: Unreserved(s[i])
    ensures Quote(s, {}) == s
  {
    if s != "" {
      QuoteKeeps(s[1..]);
      assert s == [s[0]] + s[1..];
    }
  }

  lemma QuotedHash()
    ensures Quote("#", {}) == "%23"
  {
    assert Utf8.EncodeChar('#') == [0x23];
    assert Triplets([0x23]) == Triplet(0x23) + Triplets([]) == "%23";
    assert Quote("#", {}) == "%23" + Quote("", {}) == "%23";
  }

  lemma FragmentIsPlain(f: string)
    requires IsObservationFragment(f)
    ensures Quote(f, {}) == f && Visible("#" + f)
  {
    assert forall i | 0 <= i < 7 :: f[i] == if i < 4 then "OBS-"[i] else f[4..][i - 4];
    QuoteKeeps(f);
  }

  lemma QuotedObservation(id: string, f: string)
    requires IsObservationFragment(f)
    ensures Quote(id + "#" + f, {}) == Quote(id, {}) + "%23" + f && Visible("#" + f)
  {
    var hash := "#";
    QuotedHash();
    FragmentIsPlain(f);
    QuoteConcat(id + hash, f);
    QuoteConcat(id, hash);
  }

  /** An entity reference as authors write it, with a literal fragment after the quoted identifier. */
  function Authored(contextId: string, entityType: string, quoted: string, f: string): string {
    "workctx://" + contextId + "/" + entityType + "/" + quoted + "#" + f
  }

  lemma AuthoredParts(c: string, t: string, q: string, f: string)
    ensures Authored(c, t, q, f) == "workctx" + ":" + ("//" + c + ("/" + t + "/" + q) + ("#" + f))
    ensures Authored(c, t, q, f) == ("workctx://" + c + "/" + t + "/" + q) + ['#'] + f
    ensures ("workctx://" + c + "/" + t + "/" + q) + "%23" + f == "workctx://" + c + "/" + t + "/" + (q + "%23" + f)
  {
  }

  lemma AuthoredPath(t: string, q: string)
    requires Segments(t, {'-'}) && Visible(q) && '?' !in q && '#' !in q
    ensures var path := "/" + t + "/" + q; Visible(path) && '?' !in path && '#' !in path
  {
    SegmentsCharacters(t, {'-'});
  }

  lemma AuthoredUrl(c: string, t: string, q: string, f: string)
    requires Segments(c, {'-'}) && Segments(t, {'-'}) && Visible(q) && '?' !in q && '#' !in q && Visible("#" + f)
    ensures UrlParse(Authored(c, t, q, f)) == Url("workctx", c, "/" + t + "/" + q, "", f)
  {
    AuthoredPath(t, q);
    SegmentsCharacters(c, {'-'});
    AuthorityUrl("workctx", c, "/" + t + "/" + q, "#" + f);
    AuthoredParts(c, t, q, f);
    assert ("#" + f)[1..] == f;
  }

  lemma AuthoredCandidate(c: string, t: string, q: string, f: string)
    requires Segments(c, {'-'}) && Segments(t, {'-'}) && '#' !in q
    ensures Before(Authored(c, t, q, f), '#') + "%23" + f == "workctx://" + c + "/" + t + "/" + (q + "%23" + f)
  {
    SegmentsCharacters(c, {'-'});
    SegmentsCharacters(t, {'-'});
    ConcatLacks(c, t, q, '#');
    AuthoredParts(c, t, q, f);
    CutOnce("workctx://" + c + "/" + t + "/" + q, '#', f);
  }

  /** How an authored reference whose URL has come apart like this is normalized. */
  lemma FragmentNormalizes(value: string, u: WorkctxUri, q: string, f: string, observationOk: string -> bool)
    requires IsObservationFragment(f) && ValidUri(u) && u.entityType == "observation" && q != "" && '/' !in q
    requires UrlParse(value) == Url("workctx", u.contextId, "/" + u.entityType + "/" + q, "", f)
    requires Before(value, '#') + "%23" + f == PrintUri(u)
    ensures Normalize(value, observationOk) == if observationOk(u.entityId) then Some(PrintUri(u)) else None
  {
    SegmentsCharacters(u.entityType, {'-'});
    ThreeParts(u.entityType, q);
    UriRoundTrip(u);
  }

  /** MAIN: a literal `#OBS-NNN` is normalized to the escaped form, exactly for an observation's identifier. */
  lemma AuthoredObservationNormalizes(u: WorkctxUri, evidenceId: string, f: string, observationOk: string -> bool)
    requires IsObservationFragment(f) && ValidUri(u) && u.entityType == "observation"
    requires u.entityId == evidenceId + "#" + f && evidenceId != ""
    ensures Normalize(Authored(u.contextId, u.entityType, Quote(evidenceId, {}), f), observationOk) ==
            if observationOk(u.entityId) then Some(PrintUri(u)) else None
  {
    var q := Quote(evidenceId, {});
    QuotedIsVisible(evidenceId, {});
    QuotedNotEmpty(evidenceId, {});
    QuotedObservation(evidenceId, f);
    AuthoredUrl(u.contextId, u.entityType, q, f);
    AuthoredCandidate(u.contextId, u.entityType, q, f);
    FragmentNormalizes(Authored(u.contextId, u.entityType, q, f), u, q, f, observationOk);
  }

  // ---------------------------------------------------- repository references

  datatype RepoReference = RepoReference(repoId: string, commit: string, path: string, startLine: nat, endLine: nat)

  predicate IsCommit(s: string) {
    7 <= |s| <= 64 && forall i | 0 <= i < |s| :: HexValue(s[i]).Some?
  }

  predicate NoTraversal(parts: seq<string>) {
    forall i | 0 <= i < |parts| :: parts[i] != "" && parts[i] != "." && parts[i] != ".."
  }

  predicate ValidRepoPath(p: string) {
    && p != "" && p[0] != '/' && '\\' !in p && '\0' !in p
    && !(|p| >= 3 && Alpha(p[0]) && p[1] == ':' && p[2] == '/')
    && NoTraversal(Split(p))
  }

  predicate ValidRepo(r: RepoReference) {
    && Segments(r.repoId, {'.', '_', '-'}) && IsCommit(r.commit) && ValidRepoPath(r.path)
    && 1 <= r.startLine <= r.endLine
  }

  function LineFragment(first: nat, last: nat): string {
    "L" + Decimal(first) + "-L" + Decimal(last)
  }

  function PrintRepo(r: RepoReference): string {
    "repo://" + r.repoId + "@" + r.commit + "/" + Quote(r.path, {'/'}) + "#" + LineFragment(r.startLine, r.endLine)
  }

  predicate IsCount(s: string) {
    s != "" && AllDigits(s) && s[0] != '0'
  }

  /** `L<start>-L<end>` with positive decimal numbers. */
  function ParseLines(f: string): Option<(nat, nat)> {
    var dash := IndexOf(f, '-');
    if |f| < 2 || f[0] != 'L' || dash + 2 > |f| || f[dash..dash + 2] != "-L" || dash < 1 then None
    else if !IsCount(f[1..dash]) || !IsCount(f[dash + 2..]) then None
    else Some((Value(f[1..dash]), Value(f[dash + 2..])))
  }

  /** Everything before and behind the last at sign. */
  function SplitAtSign(netloc: string): Option<(string, string)> {
    if netloc == "" then None
    else if netloc[|netloc| - 1] == '@' then Some((netloc[..|netloc| - 1], ""))
    else
      var parts :- SplitAtSign(netloc[..|netloc| - 1]);
      Some((parts.0, parts.1 + [netloc[|netloc| - 1]]))
  }

  /** The path behind its leading slash, unquoted. */
  function ReadPath(path: string): Option<string> {
    if path == "" || path[0] != '/' || path == "/" || !WellEscaped(path[1..]) then None else Unquote(path[1..])
  }

  function ReadUrl(url: Url): Option<RepoReference> {
    var identity :- SplitAtSign(url.netloc);
    var lines :- ParseLines(url.fragment);
    var path :- ReadPath(url.path);
    Some(RepoReference(identity.0, identity.1, path, lines.0, lines.1))
  }

  function ParseRepo(value: string): (r: Option<RepoReference>)
    ensures r.Some? ==> ValidRepo(r.value) && PrintRepo(r.value) == value
  {
    var url := UrlParse(value);
    if !("repo://" <= value) || url.scheme != "repo" || url.query != "" then None
    else
      var r :- ReadUrl(url);
      if ValidRepo(r) && PrintRepo(r) == value then Some(r) else None
  }

  lemma {:induction false} AtSignFound(a: string, b: string)
    requires '@' !in b
    ensures SplitAtSign(a + "@" + b) == Some((a, b))
  {
    var s := a + "@" + b;
    if b == "" {
      assert s[|s| - 1] == '@' && s[..|s| - 1] == a;
    } else {
      var front := b[..|b| - 1];
      assert s[..|s| - 1] == a + "@" + front && s[|s| - 1] == b[|b| - 1];
      AtSignFound(a, front);
      assert front + [b[|b| - 1]] == b;
    }
  }

  lemma DigitsHaveNoDash(n: nat)
    ensures '-' !in Decimal(n) && Visible(Decimal(n))
  {
  }

  lemma FragmentParts(a: string, b: string)
    requires '-' !in a
    ensures var f := "L" + a + "-L" + b;
            && IndexOf(f, '-') == |a| + 1 && f[1..|a| + 1] == a && f[|a| + 1..|a| + 3] == "-L" && f[|a| + 3..] == b
  {
    var f, head := "L" + a + "-L" + b, "L" + a;
    assert f == head + ['-'] + ("L" + b);
    IndexAfter(head, '-', "L" + b);
  }

  lemma LinesRoundTrip(first: nat, last: nat)
    requires first >= 1 && last >= 1
    ensures ParseLines(LineFragment(first, last)) == Some((first, last))
  {
    DigitsHaveNoDash(first);
    FragmentParts(Decimal(first), Decimal(last));
    DecimalValue(first);
    DecimalValue(last);
  }

  lemma FragmentIsVisible(first: nat, last: nat)
    ensures Visible("#" + LineFragment(first, last))
  {
    DigitsHaveNoDash(first);
    DigitsHaveNoDash(last);
  }

  lemma CommitCharacters(s: string)
    requires IsCommit(s)
    ensures Visible(s) && '@' !in s && forall i | 0 <= i < |s| :: s[i] !in {'/', '?', '#', '@'}
  {
  }

  lemma NetlocCharacters(id: string, commit: string)
    requires Segments(id, {'.', '_', '-'}) && IsCommit(commit)
    ensures var netloc := id + "@" + commit; Visible(netloc) && forall i | 0 <= i < |netloc| ::
              netloc[i] !in {'/', '?', '#'}
  {
    SegmentsCharacters(id, {'.', '_', '-'});
    CommitCharacters(commit);
  }

  lemma RegroupRepo(netloc: string, path: string, fragment: string)
    ensures "repo://" + netloc + "/" + path + "#" + fragment
            == "repo" + ":" + ("//" + netloc + ("/" + path) + ("#" + fragment))
  {
  }

  lemma RepoUrl(netloc: string, q: string, f: string)
    requires Visible(netloc) && forall i | 0 <= i < |netloc| :: netloc[i] !in {'/', '?', '#'}
    requires Visible(q) && '?' !in q && '#' !in q && Visible("#" + f)
    ensures UrlParse("repo://" + netloc + "/" + q + "#" + f) == Url("repo", netloc, "/" + q, "", f)
  {
    AuthorityUrl("repo", netloc, "/" + q, "#" + f);
    RegroupRepo(netloc, q, f);
    assert ("#" + f)[1..] == f;
  }

  lemma PrintedAsParts(r: RepoReference)
    ensures PrintRepo(r) == "repo://" + (r.repoId + "@" + r.commit) + "/" + Quote(r.path,
              {'/'}) + "#" + LineFragment(r.startLine, r.endLine)
    ensures "repo://" <= PrintRepo(r)
  {
  }

  lemma PrintedRepoUrl(r: RepoReference)
    requires ValidRepo(r)
    ensures UrlParse(PrintRepo(r)) ==
            Url("repo", r.repoId + "@" + r.commit, "/" + Quote(r.path, {'/'}), "", LineFragment(r.startLine, r.endLine))
  {
    NetlocCharacters(r.repoId, r.commit);
    QuotedIsVisible(r.path, {'/'});
    FragmentIsVisible(r.startLine, r.endLine);
    PrintedAsParts(r);
    RepoUrl(r.repoId + "@" + r.commit, Quote(r.path, {'/'}), LineFragment(r.startLine, r.endLine));
  }

  lemma PathReadsBack(path: string)
    requires path != ""
    ensures ReadPath("/" + Quote(path, {'/'})) == Some(path)
  {
    var q := Quote(path, {'/'});
    assert ("/" + q)[1..] == q;
    QuotedNotEmpty(path, {'/'});
    QuoteDecodes(path, {'/'});
    QuoteRoundTrip(path, {'/'});
  }

  lemma PrintedRepoParses(r: RepoReference)
    requires ValidRepo(r)
    ensures ParseRepo(PrintRepo(r)) == Some(r)
  {
    PrintedRepoUrl(r);
    PrintedAsParts(r);
    CommitCharacters(r.commit);
    AtSignFound(r.repoId, r.commit);
    LinesRoundTrip(r.startLine, r.endLine);
    PathReadsBack(r.path);
    assert ReadUrl(UrlParse(PrintRepo(r))) == Some(r);
  }

  /** MAIN: a repository reference has exactly one accepted spelling, the printed one. */
  lemma RepoSpelling(value: string, r: RepoReference)
    ensures ParseRepo(value) == Some(r) <==> ValidRepo(r) && value == PrintRepo(r)
  {
    if ValidRepo(r) {
      PrintedRepoParses(r);
    }
  }
}
