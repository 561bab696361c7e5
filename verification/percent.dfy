/** Percent-encoding (RFC 3986, sections 2.1 and 2.3) over UTF-8, as `quote` and strict `unquote` do it. */
module Percent {
  import opened Options
  import opened Utf8

  function HexChar(n: nat): char
    requires n < 16
  {
    if n < 10 then ('0' as int + n) as char else ('A' as int + n - 10) as char
  }

  function HexValue(c: char): Option<nat> {
    if '0' <= c <= '9' then Some(c as int - '0' as int)
    else if 'A' <= c <= 'F' then Some(c as int - 'A' as int + 10)
    else if 'a' <= c <= 'f' then Some(c as int - 'a' as int + 10)
    else None
  }

  predicate Unreserved(c: char) {
    'a' <= c <= 'z' || 'A' <= c <= 'Z' || '0' <= c <= '9' || c == '-' || c == '.' || c == '_' || c == '~'
  }

  predicate Kept(c: char, safe: set<char>) {
    Unreserved(c) || c in safe
  }

  function Triplet(b: byte): string {
    ['%', HexChar(b as int / 16), HexChar(b as int % 16)]
  }

  function Triplets(b: Bytes): string {
    if b == [] then "" else Triplet(b[0]) + Triplets(b[1..])
  }

  function QuoteChar(c: char, safe: set<char>): string {
    if Kept(c, safe) then [c] else Triplets(EncodeChar(c))
  }

  function Quote(s: string, safe: set<char>): string {
    if s == "" then "" else QuoteChar(s[0], safe) + Quote(s[1..], safe)
  }

  predicate IsTriplet(s: string) {
    |s| >= 3 && s[0] == '%' && HexValue(s[1]).Some? && HexValue(s[2]).Some?
  }

  /** No percent sign without two hexadecimal digits after it. */
  predicate WellEscaped(s: string) {
    s == "" || ((s[0] == '%' ==> IsTriplet(s)) && WellEscaped(s[1..]))
  }

  predicate Ascii(s: string) {
    forall i | 0 <= i < |s| :: s[i] < '\U{80}'
  }

  /** The bytes of an ASCII run, triplets resolved and anything else kept. */
  function ToBytes(s: string): Bytes
    requires Ascii(s)
  {
    if s == "" then []
    else if IsTriplet(s) then [(HexValue(s[1]).value * 16 + HexValue(s[2]).value) as byte] + ToBytes(s[3..])
    else [s[0] as int as byte] + ToBytes(s[1..])
  }

  function AsciiRun(s: string): (n: nat)
    ensures n <= |s| && Ascii(s[..n])
    ensures Ascii(s) ==> n == |s|
  {
    if s == "" || s[0] >= '\U{80}' then 0
    else
      var n := 1 + AsciiRun(s[1..]);
      assert s[..n] == [s[0]] + s[1..][..n - 1];
      n
  }

  /** Each ASCII run is decoded strictly by itself; characters outside ASCII stand for themselves. */
  function Unquote(s: string): Option<string>
    decreases |s|
  {
    if s == "" then Some("")
    else if s[0] >= '\U{80}' then
      var rest :- Unquote(s[1..]);
      Some([s[0]] + rest)
    else
      var n := AsciiRun(s);
      var run :- Decode(ToBytes(s[..n]));
      var rest :- Unquote(s[n..]);
      Some(run + rest)
  }

  // ------------------------------------------------------------- round trip

  predicate SafeAscii(safe: set<char>) {
    forall c | c in safe :: c < '\U{80}' && c != '%'
  }

  lemma HexRoundTrip(n: nat)
    requires n < 16
    ensures HexValue(HexChar(n)) == Some(n) && Unreserved(HexChar(n))
  {
  }

  lemma TripletsCons(b: Bytes, rest: string)
    requires b != []
    ensures Triplets(b) + rest == Triplet(b[0]) + (Triplets(b[1..]) + rest)
  {
  }

  lemma FirstByte(b: Bytes, tail: Bytes)
    requires b != []
    ensures [b[0]] + (b[1..] + tail) == b + tail
  {
  }

  /** `s` is ASCII and its bytes are `bytes`. */
  predicate StandsFor(s: string, bytes: Bytes) {
    Ascii(s) && ToBytes(s) == bytes
  }

  lemma {:induction false} TripletsDecode(b: Bytes, rest: string)
    requires Ascii(rest)
    ensures StandsFor(Triplets(b) + rest, b + ToBytes(rest))
    ensures WellEscaped(rest) ==> WellEscaped(Triplets(b) + rest)
  {
    if b != [] {
      TripletsDecode(b[1..], rest);
      TripletsCons(b, rest);
      TripletFirst(b[0], Triplets(b[1..]) + rest);
      FirstByte(b, ToBytes(rest));
    } else {
      assert Triplets(b) + rest == rest && b + ToBytes(rest) == ToBytes(rest);
    }
  }

  lemma TripletFirst(b: byte, tail: string)
    requires Ascii(tail)
    ensures var s := Triplet(b) + tail;
            Ascii(s) && ToBytes(s) == [b] + ToBytes(tail) && (WellEscaped(tail) ==> WellEscaped(s))
  {
    var s := Triplet(b) + tail;
    HexRoundTrip(b as int / 16);
    HexRoundTrip(b as int % 16);
    assert s[3..] == tail;
    assert s[1] != '%' && s[2] != '%';
    assert s[1..][1..] == s[2..] && s[2..][1..] == s[3..];
  }

  lemma KeptDecode(c: char, rest: string, safe: set<char>)
    requires Kept(c, safe) && SafeAscii(safe) && Ascii(rest)
    ensures Ascii([c] + rest) && ToBytes([c] + rest) == EncodeChar(c) + ToBytes(rest)
    ensures WellEscaped(rest) ==> WellEscaped([c] + rest)
  {
    assert ([c] + rest)[1..] == rest;
  }

  /** The bytes of a quoted string are the UTF-8 bytes of the string, and no escape is malformed. */
  lemma {:induction false} QuoteDecodes(s: string, safe: set<char>)
    requires SafeAscii(safe)
    ensures Ascii(Quote(s, safe)) && WellEscaped(Quote(s, safe)) && ToBytes(Quote(s, safe)) == Encode(s)
  {
    if s != "" {
      QuoteDecodes(s[1..], safe);
      if Kept(s[0], safe) {
        KeptDecode(s[0], Quote(s[1..], safe), safe);
      } else {
        TripletsDecode(EncodeChar(s[0]), Quote(s[1..], safe));
      }
    }
  }

  lemma UnquoteAscii(q: string)
    requires Ascii(q)
    ensures Unquote(q) == Decode(ToBytes(q))
  {
    if q != "" {
      assert AsciiRun(q) == |q| && q[..|q|] == q && q[|q|..] == "";
      assert Unquote("") == Some("");
      var run := Decode(ToBytes(q));
      if run.Some? {
        assert run.value + "" == run.value;
      }
    }
  }

  /** MAIN: strict unquoting gives back every string that was quoted. */
  lemma QuoteRoundTrip(s: string, safe: set<char>)
    requires SafeAscii(safe)
    ensures Unquote(Quote(s, safe)) == Some(s)
  {
    QuoteDecodes(s, safe);
    UnquoteAscii(Quote(s, safe));
    Utf8.RoundTrip(s);
  }

  /** Every character of a quoted string is unreserved, a percent sign or one of the safe ones. */
  lemma {:induction false} QuotedCharacters(s: string, safe: set<char>)
    ensures forall i | 0 <= i < |Quote(s, safe)| :: Kept(Quote(s, safe)[i], safe) || Quote(s, safe)[i] == '%'
  {
    if s != "" {
      QuotedCharacters(s[1..], safe);
      TripletCharacters(EncodeChar(s[0]));
    }
  }

  lemma {:induction false} TripletCharacters(b: Bytes)
    ensures forall i | 0 <= i < |Triplets(b)| :: Unreserved(Triplets(b)[i]) || Triplets(b)[i] == '%'
  {
    if b != [] {
      HexRoundTrip(b[0] as int / 16);
      HexRoundTrip(b[0] as int % 16);
      TripletCharacters(b[1..]);
    }
  }

  lemma QuotedNotEmpty(s: string, safe: set<char>)
    requires s != ""
    ensures Quote(s, safe) != ""
  {
    assert EncodeChar(s[0]) != [];
    assert Triplets(EncodeChar(s[0])) != "";
  }
}
