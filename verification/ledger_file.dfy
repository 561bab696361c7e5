/**
 The ledger as the bytes of its file: one compact JSON line per event. The JSON library is a
 printer and a strict parser of ordered objects.
 */
module LedgerFile {
  import opened Options
  import opened AuditChain
  import opened Utf8

  const NEWLINE: byte := 0x0A
  const RETURN: byte := 0x0D
  const BYTE_ORDER_MARK: Bytes := [0xEF, 0xBB, 0xBF]

  /** Compact dumping, and loading that refuses anything but an object without repeated keys. */
  datatype JsonText = JsonText(render: Object -> string, load: string -> Option<Object>)

  /** Compact JSON opens with a brace, escapes control characters and can be loaded again. */
  ghost predicate IsJson(json: JsonText) {
    forall e: AuditEvent ::
      var text := json.render(EventData(e));
      && text != "" && text[0] == '{' && '\n' !in text && '\r' !in text
      && json.load(text) == Some(EventData(e))
  }

  // ------------------------------------------------------------ lines of bytes

  function Terminated(lines: seq<Bytes>): Bytes {
    if lines == [] then [] else lines[0] + [NEWLINE] + Terminated(lines[1..])
  }

  /** `split` at every newline. */
  function CutLines(b: Bytes): (lines: seq<Bytes>)
    ensures lines != []
  {
    if b == [] then [[]]
    else if b[0] == NEWLINE then [[]] + CutLines(b[1..])
    else
      var rest := CutLines(b[1..]);
      [[b[0]] + rest[0]] + rest[1..]
  }

  lemma TerminatedFirst(line: Bytes, lines: seq<Bytes>)
    ensures Terminated([line] + lines) == line + [NEWLINE] + Terminated(lines)
  {
    assert ([line] + lines)[1..] == lines;
  }

  lemma {:induction false} CutTerminates(b: Bytes)
    ensures Terminated(CutLines(b)) == b + [NEWLINE]
  {
    if b == [] {
      TerminatedFirst([], []);
    } else {
      CutTerminates(b[1..]);
      var rest := CutLines(b[1..]);
      assert b == [b[0]] + b[1..];
      if b[0] == NEWLINE {
        TerminatedFirst([], rest);
      } else {
        var later := Terminated(rest[1..]);
        assert rest == [rest[0]] + rest[1..];
        TerminatedFirst(rest[0], rest[1..]);
        TerminatedFirst([b[0]] + rest[0], rest[1..]);
        assert [b[0]] + rest[0] + [NEWLINE] + later == [b[0]] + (rest[0] + [NEWLINE] + later);
      }
    }
  }

  lemma {:induction false} CutOne(line: Bytes, b: Bytes)
    requires NEWLINE !in line
    ensures CutLines(line) == [line]
    ensures CutLines(line + [NEWLINE] + b) == [line] + CutLines(b)
  {
    var all := line + [NEWLINE] + b;
    if line == [] {
      assert all[1..] == b;
    } else {
      CutOne(line[1..], b);
      assert all[1..] == line[1..] + [NEWLINE] + b;
      assert line == [line[0]] + line[1..];
    }
  }

  lemma {:induction false} TerminatedCuts(lines: seq<Bytes>)
    requires lines != [] && forall i | 0 <= i < |lines| :: NEWLINE !in lines[i]
    ensures var b := Terminated(lines);
            |b| > 0 && b[|b| - 1] == NEWLINE && CutLines(b[..|b| - 1]) == lines
  {
    var b := Terminated(lines);
    if |lines| == 1 {
      assert Terminated(lines[1..]) == [];
      assert b == lines[0] + [NEWLINE] && b[..|b| - 1] == lines[0];
      CutOne(lines[0], []);
    } else {
      TerminatedCuts(lines[1..]);
      var rest := Terminated(lines[1..]);
      assert b[..|b| - 1] == lines[0] + [NEWLINE] + rest[..|rest| - 1];
      CutOne(lines[0], rest[..|rest| - 1]);
    }
  }

  // ---------------------------------------------------------------- encoding

  lemma Reassociate(a: Bytes, b: Bytes, c: Bytes)
    ensures a + (b + c) == a + b + c
  {
  }

  lemma {:induction false} EncodeConcat(a: string, b: string)
    ensures Encode(a + b) == Encode(a) + Encode(b)
  {
    if a == "" {
      assert a + b == b;
    } else {
      var both := a + b;
      EncodeConcat(a[1..], b);
      assert both[0] == a[0] && both[1..] == a[1..] + b;
      Reassociate(EncodeChar(a[0]), Encode(a[1..]), Encode(b));
    }
  }

  /** An ASCII byte stands for its own character and nothing else. */
  lemma {:induction false} AsciiByte(s: string, c: char)
    requires (c as int) < 0x80
    ensures (c as int as byte) in Encode(s) <==> c in s
  {
    if s != "" {
      AsciiByte(s[1..], c);
      assert (c as int as byte) in EncodeChar(s[0]) <==> c == s[0];
    }
  }

  function LineText(json: JsonText, e: AuditEvent): string {
    json.render(EventData(e))
  }

  function LineBytes(json: JsonText, e: AuditEvent): Bytes {
    Encode(LineText(json, e))
  }

  function LinesOf(json: JsonText, events: seq<AuditEvent>): (lines: seq<Bytes>)
    ensures |lines| == |events|
  {
    seq(|events|, i requires 0 <= i < |events| => LineBytes(json, events[i]))
  }

  /** The file that holds these events: no file when there are none. */
  function FileOf(json: JsonText, events: seq<AuditEvent>): Option<Bytes> {
    if events == [] then None else Some(Terminated(LinesOf(json, events)))
  }

  lemma LineShape(json: JsonText, e: AuditEvent)
    requires IsJson(json)
    ensures var line := LineBytes(json, e);
            && line != [] && line[0] == '{' as int as byte && NEWLINE !in line && '\r' !in LineText(json, e)
            && Decode(line) == Some(LineText(json, e)) && json.load(LineText(json, e)) == Some(EventData(e))
  {
    var text := LineText(json, e);
    AsciiByte(text, '\n');
    RoundTrip(text);
    assert Encode(text) == EncodeChar(text[0]) + Encode(text[1..]);
  }

  lemma LineInjective(json: JsonText, a: AuditEvent, b: AuditEvent)
    requires IsJson(json) && LineBytes(json, a) == LineBytes(json, b)
    ensures a == b
  {
    LineShape(json, a);
    LineShape(json, b);
    EventDataInjective(a, b);
  }

  /** The file as text. */
  function TextOf(json: JsonText, events: seq<AuditEvent>): string {
    if events == [] then "" else LineText(json, events[0]) + "\n" + TextOf(json, events[1..])
  }

  lemma {:induction false} FileIsText(json: JsonText, events: seq<AuditEvent>)
    ensures Terminated(LinesOf(json, events)) == Encode(TextOf(json, events))
  {
    if events != [] {
      var line, rest := LineText(json, events[0]), TextOf(json, events[1..]);
      FileIsText(json, events[1..]);
      EncodeConcat(line, "\n");
      EncodeConcat(line + "\n", rest);
      assert LinesOf(json, events)[1..] == LinesOf(json, events[1..]);
      assert Encode("\n") == [NEWLINE];
    }
  }

  lemma {:induction false} NoReturnInText(json: JsonText, events: seq<AuditEvent>)
    requires IsJson(json)
    ensures '\r' !in TextOf(json, events)
  {
    if events != [] {
      NoReturnInText(json, events[1..]);
      LineShape(json, events[0]);
    }
  }

  lemma TerminatedShape(json: JsonText, events: seq<AuditEvent>)
    requires IsJson(json) && events != []
    ensures var b := Terminated(LinesOf(json, events));
            RETURN !in b && Decode(b).Some? && b != [] && b[0] == '{' as int as byte
  {
    FileIsText(json, events);
    NoReturnInText(json, events);
    AsciiByte(TextOf(json, events), '\r');
    RoundTrip(TextOf(json, events));
    LineShape(json, events[0]);
    assert LinesOf(json, events)[0] == LineBytes(json, events[0]);
  }

  /** What the checks on the whole file see of a file made of lines. */
  lemma FileShape(json: JsonText, events: seq<AuditEvent>)
    requires IsJson(json) && events != []
    ensures var b := FileOf(json, events).value;
            && WholeFile(b) && CutLines(b[..|b| - 1]) == LinesOf(json, events)
            && [] !in LinesOf(json, events)
  {
    TerminatedShape(json, events);
    forall i | 0 <= i < |events| ensures NEWLINE !in LinesOf(json, events)[i] && LinesOf(json, events)[i] != [] {
      LineShape(json, events[i]);
    }
    TerminatedCuts(LinesOf(json, events));
  }

  /** MAIN: the bytes of the file and the events in it determine each other. */
  lemma FileDeterminesEvents(json: JsonText, a: seq<AuditEvent>, b: seq<AuditEvent>)
    requires IsJson(json)
    ensures FileOf(json, a) == FileOf(json, b) <==> a == b
  {
    if FileOf(json, a) == FileOf(json, b) && a != [] {
      FileShape(json, a);
      FileShape(json, b);
      SameLines(json, a, b);
    }
  }

  lemma SameLines(json: JsonText, a: seq<AuditEvent>, b: seq<AuditEvent>)
    requires IsJson(json) && LinesOf(json, a) == LinesOf(json, b)
    ensures a == b
  {
    assert |a| == |LinesOf(json, a)| == |b|;
    forall i | 0 <= i < |a| ensures a[i] == b[i] {
      assert LinesOf(json, a)[i] == LinesOf(json, b)[i];
      LineInjective(json, a[i], b[i]);
    }
  }

  /** Appending an event's line to the file is appending the event. */
  lemma {:induction false} TerminatedLast(lines: seq<Bytes>, line: Bytes)
    ensures Terminated(lines + [line]) == Terminated(lines) + line + [NEWLINE]
  {
    if lines == [] {
      TerminatedFirst(line, []);
      assert [] + [line] == [line] + [];
    } else {
      TerminatedLast(lines[1..], line);
      assert lines + [line] == [lines[0]] + (lines[1..] + [line]);
      TerminatedFirst(lines[0], lines[1..] + [line]);
    }
  }

  lemma LinesOneMore(json: JsonText, events: seq<AuditEvent>, e: AuditEvent)
    ensures LinesOf(json, events + [e]) == LinesOf(json, events) + [LineBytes(json, e)]
  {
  }

  lemma AppendedLine(json: JsonText, events: seq<AuditEvent>, e: AuditEvent)
    ensures Terminated(LinesOf(json, events + [e]))
            == Terminated(LinesOf(json, events)) + LineBytes(json, e) + [NEWLINE]
  {
    LinesOneMore(json, events, e);
    TerminatedLast(LinesOf(json, events), LineBytes(json, e));
  }

  // ---------------------------------------------------------------- reading

  /** The checks made before the file is cut into lines. */
  predicate WholeFile(b: Bytes) {
    && b != [] && !(BYTE_ORDER_MARK <= b) && RETURN !in b && b[|b| - 1] == NEWLINE && Decode(b).Some?
  }

  method ReadFileLine(contextId: string, before: seq<AuditEvent>, line: Bytes, json: JsonText, hash: Hash,
                      key: string -> string)
    returns (r: Option<AuditEvent>)
    requires IsJson(json)
    ensures r.Some? ==> LineBytes(json, r.value) == line && Extends(contextId, before, r.value, hash, key)
    ensures r.None? ==> forall e :: LineBytes(json, e) == line ==> !Extends(contextId, before, e, hash, key)
  {
    forall e | LineBytes(json, e) == line
      ensures Decode(line) == Some(LineText(json, e)) && json.load(LineText(json, e)) == Some(EventData(e))
    {
      LineShape(json, e);
    }
    var text := Decode(line);
    if text.None? {
      return None;
    }
    var loaded := json.load(text.value);
    if loaded.None? {
      return None;
    }
    r := ReadLine(contextId, before, loaded.value, hash, key);
    if r.Some? && LineBytes(json, r.value) != line {
      return None;
    }
  }

  ghost predicate Holds(contextId: string, lines: seq<Bytes>, events: seq<AuditEvent>, json: JsonText, hash: Hash,
                        key: string -> string) {
    LinesOf(json, events) == lines && ValidChain(contextId, events, hash, key)
  }

  lemma BadFileLine(contextId: string, lines: seq<Bytes>, before: seq<AuditEvent>, all: seq<AuditEvent>, json: JsonText,
                    hash: Hash, key: string -> string)
    requires IsJson(json) && |before| < |lines| && LinesOf(json, before) == lines[..|before|]
    requires forall e | LineBytes(json, e) == lines[|before|] :: !Extends(contextId, before, e, hash, key)
    ensures !Holds(contextId, lines, all, json, hash, key)
  {
    var i := |before|;
    if |all| == |lines| && LinesOf(json, all)[..i] == lines[..i] {
      assert LinesOf(json, all[..i]) == lines[..i];
      SameLines(json, all[..i], before);
      assert LinesOf(json, all)[i] == LineBytes(json, all[i]);
    }
  }

  lemma OneMoreLine(contextId: string, lines: seq<Bytes>, before: seq<AuditEvent>, e: AuditEvent, json: JsonText,
                    hash: Hash, key: string -> string)
    requires |before| < |lines| && Holds(contextId, lines[..|before|], before, json, hash, key)
    requires LineBytes(json, e) == lines[|before|] && Extends(contextId, before, e, hash, key)
    ensures Holds(contextId, lines[..|before| + 1], before + [e], json, hash, key)
  {
    ChainOneMore(contextId, before, e, hash, key);
    LinesOneMore(json, before, e);
    assert lines[..|before| + 1] == lines[..|before|] + [lines[|before|]];
  }

  method ReadLines(contextId: string, lines: seq<Bytes>, json: JsonText, hash: Hash, key: string -> string)
    returns (r: Option<seq<AuditEvent>>)
    requires IsJson(json)
    ensures r.Some? ==> Holds(contextId, lines, r.value, json, hash, key)
    ensures r.None? ==> forall events :: !Holds(contextId, lines, events, json, hash, key)
  {
    var events: seq<AuditEvent> := [];
    for i := 0 to |lines|
      invariant |events| == i && Holds(contextId, lines[..i], events, json, hash, key)
    {
      var e := ReadFileLine(contextId, events, lines[i], json, hash, key);
      if e.None? {
        forall all ensures !Holds(contextId, lines, all, json, hash, key) {
          BadFileLine(contextId, lines, events, all, json, hash, key);
        }
        return None;
      }
      OneMoreLine(contextId, lines, events, e.value, json, hash, key);
      events := events + [e.value];
    }
    assert lines[..|lines|] == lines;
    r := Some(events);
  }

  /** A whole file is that of the events whose lines it is cut into, and no other. */
  lemma CutIntoLines(json: JsonText, b: Bytes, events: seq<AuditEvent>)
    requires IsJson(json) && WholeFile(b)
    ensures Some(b) == FileOf(json, events) <==> LinesOf(json, events) == CutLines(b[..|b| - 1])
    ensures Some(b) == FileOf(json, events) ==> [] !in CutLines(b[..|b| - 1])
  {
    CutTerminates(b[..|b| - 1]);
    assert b == b[..|b| - 1] + [NEWLINE];
    if events != [] {
      FileShape(json, events);
    }
  }

  /** The lines of a file, unless a check on the whole file or an empty line refuses it. */
  method SplitFile(b: Bytes, json: JsonText) returns (lines: Option<seq<Bytes>>)
    requires IsJson(json)
    ensures lines.Some? ==> forall events :: Some(b) == FileOf(json, events) <==> LinesOf(json, events) == lines.value
    ensures lines.None? ==> forall events :: Some(b) != FileOf(json, events)
  {
    if !WholeFile(b) {
      forall events ensures Some(b) != FileOf(json, events) {
        if events != [] {
          FileShape(json, events);
        }
      }
      return None;
    }
    var cut := CutLines(b[..|b| - 1]);
    forall events
      ensures Some(b) == FileOf(json, events) <==> LinesOf(json, events) == cut
      ensures Some(b) == FileOf(json, events) ==> [] !in cut
    {
      CutIntoLines(json, b, events);
    }
    lines := if [] in cut then None else Some(cut);
  }

  /** The file holds the valid chain `events`, byte for byte. */
  ghost predicate IsLedger(contextId: string, file: Option<Bytes>, events: seq<AuditEvent>, json: JsonText, hash: Hash,
                           key: string -> string) {
    file == FileOf(json, events) && ValidChain(contextId, events, hash, key)
  }

  /** MAIN: the reader accepts exactly the files of valid chains, byte for byte, and returns the chain. */
  method ReadLedger(contextId: string, file: Option<Bytes>, json: JsonText, hash: Hash, key: string -> string)
    returns (r: Option<seq<AuditEvent>>)
    requires IsJson(json)
    ensures r.Some? ==> IsLedger(contextId, file, r.value, json, hash, key)
    ensures r.None? ==> forall events :: !IsLedger(contextId, file, events, json, hash, key)
  {
    if file.None? {
      return Some([]);
    }
    var lines := SplitFile(file.value, json);
    if lines.None? {
      return None;
    }
    r := ReadLines(contextId, lines.value, json, hash, key);
    forall events
      ensures IsLedger(contextId, file, events, json, hash, key)
              <==> Holds(contextId, lines.value, events, json, hash, key)
    {
    }
  }

  /** MAIN: the head hash pins every byte of the file. */
  lemma HeadDeterminesFile(ctxA: string, a: seq<AuditEvent>, ctxB: string, b: seq<AuditEvent>, json: JsonText,
                           hash: Hash, key: string -> string, known: set<Content>)
    requires IsJson(json) && CollisionFree(hash, known) && Known(a, known) && Known(b, known)
    requires ValidChain(ctxA, a, hash, key) && ValidChain(ctxB, b, hash, key)
    ensures HeadOf(a) == HeadOf(b) <==> FileOf(json, a) == FileOf(json, b)
  {
    HeadDeterminesHistory(ctxA, a, ctxB, b, hash, key, known);
    FileDeterminesEvents(json, a, b);
  }

  // ---------------------------------------------------------------- appending

  /** What the ledger holds after a request to append `e`. */
  ghost function Appended(contextId: string, before: seq<AuditEvent>, e: AuditEvent, landed: bool, hash: Hash,
                          key: string -> string): seq<AuditEvent> {
    if e !in before && landed && Extends(contextId, before, e, hash, key) then before + [e] else before
  }

  function BytesOf(file: Option<Bytes>): Bytes {
    if file.None? then [] else file.value
  }

  lemma AppendedFile(contextId: string, file: Option<Bytes>, before: seq<AuditEvent>, e: AuditEvent, json: JsonText,
                     hash: Hash, key: string -> string)
    requires IsLedger(contextId, file, before, json, hash, key) && Extends(contextId, before, e, hash, key)
    ensures IsLedger(contextId, Some(BytesOf(file) + LineBytes(json, e) + [NEWLINE]), before + [e], json, hash, key)
  {
    AppendedLine(json, before, e);
    ChainOneMore(contextId, before, e, hash, key);
  }

  /** A member re-uses its own identity. */
  lemma MembersDoNotExtend(contextId: string, events: seq<AuditEvent>, e: AuditEvent, hash: Hash, key: string -> string)
    ensures e in events ==> !Extends(contextId, events, e, hash, key)
  {
  }

  class AuditLog {
    var file: Option<Bytes>

    constructor ()
      ensures file == None
    {
      file := None;
    }

    /**
     MAIN: the idempotent append. `landed` says whether the line reached the file before the adapter
     returned or failed; only the re-read decides what the caller is told.
     */
    method Append(contextId: string, e: AuditEvent, json: JsonText, hash: Hash, key: string -> string, landed: bool)
      returns (ok: bool)
      requires IsJson(json) && ValidContent(e.content, key)
      modifies this
      ensures forall before | IsLedger(contextId, old(file), before, json, hash, key) ::
                var after := Appended(contextId, before, e, landed, hash, key);
                IsLedger(contextId, file, after, json, hash, key) && (ok <==> e in after)
      ensures (forall before :: !IsLedger(contextId, old(file), before, json, hash, key)) ==> !ok && file == old(file)
    {
      var read := ReadLedger(contextId, file, json, hash, key);
      if read.None? {
        return false;
      }
      var before := read.value;
      forall other | IsLedger(contextId, file, other, json, hash, key) ensures other == before {
        FileDeterminesEvents(json, other, before);
      }
      ReplayMeaning(contextId, before, e, hash, key);
      MembersDoNotExtend(contextId, before, e, hash, key);
      if MatchingReplay(before, e) != NotRecorded {
        return MatchingReplay(before, e) == Replay.Recorded;
      }
      if e.content.contextId != contextId || e.content.prevHash != HeadOf(before)
          || e.eventHash != LedgerHashOf(e, hash) {
        return false;
      }
      if landed {
        AppendedFile(contextId, file, before, e, json, hash, key);
        file := Some(BytesOf(file) + LineBytes(json, e) + [NEWLINE]);
      }
      var again := ReadLedger(contextId, file, json, hash, key);
      ghost var after := Appended(contextId, before, e, landed, hash, key);
      FileDeterminesEvents(json, again.value, after);
      ReplayMeaning(contextId, after, e, hash, key);
      ok := MatchingReplay(again.value, e) == Replay.Recorded;
    }
  }
}
