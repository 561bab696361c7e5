/** The stateful identifier allocator of the legacy migration. */
module Allocator {
  import opened Options
  import opened Text
  import opened Hierarchy

  const OBSERVATION_SUFFIX := "#OBS-001"

  /** Entity types that get a slug identifier, with their prefix; any other type is upper-cased. */
  const GENERIC_PREFIXES: map<string, string> :=
    map["draft" := "DRAFT", "flow" := "FLOW", "incident" := "INC", "integration" := "INT",
        "investigation" := "INV", "module" := "MOD", "project" := "PRJ", "service" := "SVC", "team" := "TEAM"]

  function Upper(s: string): (r: string)
    ensures '#' in r ==> '#' in s
  {
    if s == "" then ""
    else
      var c := if 'a' <= s[0] <= 'z' then (s[0] as int - 32) as char else s[0];
      [c] + Upper(s[1..])
  }

  function PrefixOf(entityType: string): string {
    if entityType == "person" then "PER"
    else if entityType == "system" then "SYS"
    else if entityType in GENERIC_PREFIXES then GENERIC_PREFIXES[entityType]
    else Upper(entityType)
  }

  /** The first sequence number after `from` whose padded candidate is unused. */
  function FirstFree(used: set<string>, stem: string, width: nat, from: nat): (r: Option<nat>)
    ensures r.Some? ==> from < r.value < Power10(width) && stem + Pad(r.value, width) !in used
    ensures r.Some? ==> forall k | from < k < r.value :: stem + Pad(k, width) in used
    ensures r.None? ==> forall k | from < k < Power10(width) :: stem + Pad(k, width) in used
    decreases Power10(width) - from
  {
    if from + 1 >= Power10(width) then None
    else if stem + Pad(from + 1, width) !in used then Some(from + 1)
    else FirstFree(used, stem, width, from + 1)
  }

  function SlugCandidate(base: string, sequence: nat): string {
    if sequence <= 1 then base else base + "-" + Decimal(sequence)
  }

  lemma SlugCandidatesDistinct(base: string, a: nat, b: nat)
    requires 1 <= a < b
    ensures SlugCandidate(base, a) != SlugCandidate(base, b)
  {
    var sa, sb := SlugCandidate(base, a), SlugCandidate(base, b);
    if sa == sb {
      assert sb[|base| + 1..] == Decimal(b);
      if a > 1 {
        assert sa[|base| + 1..] == Decimal(a);
        DecimalInjective(a, b);
      }
    }
  }

  lemma NoHashNoSuffix(v: string, e: string)
    requires '#' !in v
    ensures v != e + OBSERVATION_SUFFIX
  {
    assert (e + OBSERVATION_SUFFIX)[|e|] == '#';
  }

  lemma DigitsHaveNoHash(s: string)
    requires AllDigits(s)
    ensures '#' !in s
  {
  }

  lemma PrefixHasNoHash(entityType: string)
    requires '#' !in entityType
    ensures '#' !in PrefixOf(entityType)
  {
    if entityType in GENERIC_PREFIXES {
      assert GENERIC_PREFIXES[entityType] in
             {"DRAFT", "FLOW", "INC", "INT", "INV", "MOD", "PRJ", "SVC", "TEAM"};
    }
  }

  lemma CandidateHasNoHash(base: string, k: nat)
    requires '#' !in base
    ensures '#' !in SlugCandidate(base, k)
  {
    DigitsHaveNoHash(Decimal(k));
  }

  /** A reserved first observation implies a reserved evidence record. */
  ghost predicate Guarded(used: set<string>) {
    forall e: string :: e + OBSERVATION_SUFFIX in used ==> e in used
  }

  /** A first-observation identifier whose evidence record is already reserved; or no such identifier at all. */
  ghost predicate EvidenceKnown(id: string, used: set<string>) {
    forall e: string :: id == e + OBSERVATION_SUFFIX ==> e in used
  }

  lemma ReserveKeepsGuard(used: set<string>, id: string)
    requires Guarded(used) && EvidenceKnown(id, used)
    ensures Guarded(used + {id})
  {
  }

  lemma AddKeepsGuard(used: set<string>, v: string)
    requires Guarded(used) && '#' !in v
    ensures Guarded(used + {v})
  {
    forall e: string | e + OBSERVATION_SUFFIX in used + {v} ensures e in used + {v} {
      NoHashNoSuffix(v, e);
    }
  }

  lemma AddObservationKeepsGuard(used: set<string>, e: string)
    requires Guarded(used) && '#' !in e
    ensures Guarded(used + {e, e + OBSERVATION_SUFFIX})
  {
    var next := used + {e, e + OBSERVATION_SUFFIX};
    forall x: string | x + OBSERVATION_SUFFIX in next ensures x in next {
      NoHashNoSuffix(e, x);
      if x + OBSERVATION_SUFFIX == e + OBSERVATION_SUFFIX {
        assert |x| == |e|;
        assert (x + OBSERVATION_SUFFIX)[..|x|] == x && (e + OBSERVATION_SUFFIX)[..|e|] == e;
      }
    }
  }

  datatype Document = Document(entityType: string, oldId: Option<string>, slug: string)

  lemma YearlyShape(year: string, number: string)
    requires AllDigits(year) && AllDigits(number) && |number| == 3
    ensures IsParentId("TASK-" + year + "-" + number) <==> |year| == 4
  {
    var id := "TASK-" + year + "-" + number;
    if |year| == 4 {
      assert id[..5] == "TASK-" && id[5..9] == year && id[10..] == number;
    }
  }

  /** A legacy parent-task identifier that can be kept. */
  predicate Keepable(oldId: Option<string>, used: set<string>) {
    oldId.Some? && oldId.value !in used && IsParentId(oldId.value)
  }

  // -------------------------------------------------------------- the table

  datatype Table = Table(used: set<string>, sequences: map<string, nat>)

  function LastIn(t: Table, key: string): nat {
    if key in t.sequences then t.sequences[key] else 0
  }

  function EvidenceKey(date: string, slug: string): string {
    "EVD-" + date + "-" + slug
  }

  function EvidenceId(date: string, slug: string, n: nat): string {
    EvidenceKey(date, slug) + "-" + Pad(n, 2)
  }

  /** The sequence number the next evidence identifier of this slug gets. */
  function NextNumber(date: string, t: Table, slug: string): Option<nat> {
    FirstFree(t.used, EvidenceKey(date, slug) + "-", 2, LastIn(t, EvidenceKey(date, slug)))
  }

  /** The table after an observation was allocated. */
  function Observed(date: string, t: Table, slug: string, n: nat): Table {
    var e := EvidenceId(date, slug, n);
    Table(t.used + {e, e + OBSERVATION_SUFFIX}, t.sequences[EvidenceKey(date, slug) := n])
  }

  /** What one call of `allocate` does to the table; every branch but one hands out an unused identifier. */
  ghost predicate Allocates(date: string, t: Table, entityType: string, slug: string, t': Table, r: Option<string>) {
    if entityType == "observation" then
      match NextNumber(date, t, slug)
      case None => r == None && t' == t
      case Some(n) => r == Some(EvidenceId(date, slug, n) + OBSERVATION_SUFFIX) && t' == Observed(date, t, slug, n)
    else if r.None? then t' == t
    else
      && r.value !in t.used && '#' !in r.value && t'.used == t.used + {r.value}
      && forall key :: LastIn(t', key) >= LastIn(t, key)
  }

  /** A legacy identifier that can be kept. */
  predicate Kept(used: set<string>, doc: Document, valid: (string, string) -> bool) {
    doc.oldId.Some? && doc.oldId.value !in used && valid(doc.entityType, doc.oldId.value)
  }

  /** The observation identifier this slug gets next is in use. */
  predicate NextObservationUsed(date: string, t: Table, slug: string) {
    && NextNumber(date, t, slug).Some?
    && EvidenceId(date, slug, NextNumber(date, t, slug).value) + OBSERVATION_SUFFIX in t.used
  }

  /** At its turn the document needs an observation identifier, and the next one is in use. */
  predicate ClashesAt(date: string, t: Table, doc: Document, valid: (string, string) -> bool) {
    !Kept(t.used, doc, valid) && doc.entityType == "observation" && NextObservationUsed(date, t, doc.slug)
  }

  /** What one document does to the table: its own identifier is reserved, or one is allocated. */
  ghost predicate Reserves(date: string, t: Table, doc: Document, t': Table, r: Option<string>,
                           valid: (string, string) -> bool)
  {
    if Kept(t.used, doc, valid) then r == doc.oldId && t' == t.(used := t.used + {doc.oldId.value})
    else Allocates(date, t, doc.entityType, doc.slug, t', r)
  }

  class IdAllocator {
    const date: string
    const year: nat
    var used: set<string>
    var sequences: map<string, nat>

    constructor (date: string, year: nat)
      ensures this.date == date && this.year == year && used == {} && sequences == map[]
    {
      this.date, this.year, used, sequences := date, year, {}, map[];
    }

    function Contents(): Table
      reads this
    {
      Table(used, sequences)
    }

    /** The loop shared by the dated, yearly and subtask sequences. */
    method NextFree(key: string, stem: string, width: nat) returns (r: Option<string>)
      modifies this
      ensures r.Some? <==> FirstFree(old(used), stem, width, LastIn(old(Contents()), key)).Some?
      ensures r.Some? ==>
                var n := FirstFree(old(used), stem, width, LastIn(old(Contents()), key)).value;
                r.value == stem + Pad(n, width) && used == old(used) + {r.value}
                    && sequences == old(sequences)[key := n]
      ensures r.None? ==> used == old(used) && sequences == old(sequences)
    {
      var sequence := LastIn(Contents(), key);
      var limit := Power10(width) - 1;
      while sequence < limit
        invariant used == old(used) && sequences == old(sequences)
        invariant FirstFree(used, stem, width, LastIn(old(Contents()), key)) == FirstFree(used, stem, width, sequence)
        decreases limit - sequence
      {
        sequence := sequence + 1;
        var candidate := stem + Pad(sequence, width);
        if candidate !in used {
          sequences := sequences[key := sequence];
          used := used + {candidate};
          return Some(candidate);
        }
      }
      r := None;
    }

    method Dated(slug: string) returns (r: Option<string>)
      modifies this
      ensures match old(NextNumber(date, Contents(), slug))
              case None => r == None && Contents() == old(Contents())
              case Some(n) =>
                && r == Some(EvidenceId(date, slug, n)) && r.value !in old(used) && used == old(used) + {r.value}
                && sequences == old(sequences)[EvidenceKey(date, slug) := n]
      ensures forall key :: LastIn(Contents(), key) >= LastIn(old(Contents()), key)
    {
      r := NextFree(EvidenceKey(date, slug), EvidenceKey(date, slug) + "-", 2);
    }

    method YearSequence(prefix: string, width: nat) returns (r: Option<string>)
      modifies this
      ensures r.Some? ==> r.value !in old(used) && used == old(used) + {r.value}
      ensures r.Some? ==> exists n: nat ::
                n < Power10(width) && r.value == prefix + "-" + Decimal(year) + "-" + Pad(n, width)
      ensures r.None? ==> Contents() == old(Contents())
      ensures forall key :: LastIn(Contents(), key) >= LastIn(old(Contents()), key)
      ensures r.Some? && '#' !in prefix ==> '#' !in r.value
    {
      r := NextFree(prefix + "-" + Decimal(year), prefix + "-" + Decimal(year) + "-", width);
    }

    /** Terminates because only finitely many candidates can be in use. */
    method SlugId(prefix: string, slug: string) returns (r: string)
      modifies this`used
      ensures r !in old(used) && used == old(used) + {r}
      ensures exists k: nat :: k >= 1 && r == SlugCandidate(prefix + "-" + slug, k)
                && forall j | 1 <= j < k :: SlugCandidate(prefix + "-" + slug, j) in old(used)
    {
      var base := prefix + "-" + slug;
      r := base;
      var sequence := 1;
      ghost var seen: set<string> := {};
      while r in used
        invariant 1 <= sequence && r == SlugCandidate(base, sequence)
        invariant used == old(used) && seen <= used && |seen| == sequence - 1
        invariant forall x | x in seen :: exists j :: 1 <= j < sequence && x == SlugCandidate(base, j)
        invariant forall j | 1 <= j < sequence :: SlugCandidate(base, j) in used
        decreases |used| - |seen|
      {
        forall x | x in seen ensures x != r {
          var j :| 1 <= j < sequence && x == SlugCandidate(base, j);
          SlugCandidatesDistinct(base, j, sequence);
        }
        seen := seen + {r};
        SubsetSize(seen, used);
        sequence := sequence + 1;
        r := base + "-" + Decimal(sequence);
      }
      used := used + {r};
    }

    /** The observation branch: the evidence part is fresh, the whole identifier is not looked up. */
    method AllocateObservation(slug: string) returns (r: Option<string>)
      requires '#' !in slug && '#' !in date
      modifies this
      ensures Allocates(date, old(Contents()), "observation", slug, Contents(), r)
      ensures Guarded(old(used)) ==> Guarded(used) && (r.Some? ==> r.value !in old(used))
    {
      ghost var next := NextNumber(date, Contents(), slug);
      r := Dated(slug);
      if r.Some? {
        ghost var e := r.value;
        r := Some(r.value + OBSERVATION_SUFFIX);
        used := used + {r.value};
        EvidenceIdHasNoHash(date, slug, next.value);
        assert used == old(used) + {e, e + OBSERVATION_SUFFIX};
        if Guarded(old(used)) {
          AddObservationKeepsGuard(old(used), e);
        }
      }
    }

    /** Every other branch looks its candidate up. */
    method AllocateChecked(entityType: string, slug: string) returns (r: Option<string>)
      requires '#' !in slug && '#' !in entityType && '#' !in date && entityType != "observation"
      modifies this
      ensures Allocates(date, old(Contents()), entityType, slug, Contents(), r)
    {
      if entityType == "evidence" {
        ghost var next := NextNumber(date, Contents(), slug);
        r := Dated(slug);
        if r.Some? {
          EvidenceIdHasNoHash(date, slug, next.value);
        }
      } else if entityType == "claim" {
        r := YearSequence("CLM", 5);
      } else if entityType == "decision" {
        r := YearSequence("DEC", 3);
      } else if entityType == "question" {
        r := YearSequence("Q", 3);
      } else if entityType == "risk" {
        r := YearSequence("RISK", 3);
      } else {
        var id := SlugId(PrefixOf(entityType), slug);
        r := Some(id);
        SlugHasNoHash(entityType, slug, id);
      }
    }

    /** One new identifier; only the observation branch adds one without looking whether it is in use. */
    method Allocate(entityType: string, slug: string) returns (r: Option<string>)
      requires '#' !in slug && '#' !in entityType && '#' !in date
      modifies this
      ensures Allocates(date, old(Contents()), entityType, slug, Contents(), r)
      ensures r.Some? && r.value in old(used) <==>
                entityType == "observation" && old(NextObservationUsed(date, Contents(), slug))
      ensures Guarded(old(used)) ==> Guarded(used) && (r.Some? ==> r.value !in old(used))
    {
      if entityType == "observation" {
        r := AllocateObservation(slug);
      } else {
        r := AllocateChecked(entityType, slug);
        if r.Some? && Guarded(old(used)) {
          AddKeepsGuard(old(used), r.value);
        }
      }
    }

    /** Keep the legacy identifier when it is valid and unused, otherwise allocate one. */
    method ReserveOrAllocate(entityType: string, oldId: Option<string>, slug: string, valid: (string, string) -> bool)
      returns (r: Option<string>)
      requires '#' !in slug && '#' !in entityType && '#' !in date
      requires forall t, v :: valid(t, v) && '#' in v ==> t == "observation"
      modifies this
      ensures Reserves(date, old(Contents()), Document(entityType, oldId, slug), Contents(), r, valid)
      ensures r.Some? ==>
                (r.value in old(used) <==> ClashesAt(date, old(Contents()), Document(entityType, oldId, slug), valid))
      ensures Guarded(old(used)) ==> (r.Some? ==> r.value !in old(used))
      ensures Guarded(old(used)) ==>
                (entityType == "observation" && oldId.Some? && !EvidenceKnown(oldId.value, old(used))) || Guarded(used)
    {
      if oldId.Some? && oldId.value !in used && valid(entityType, oldId.value) {
        used := used + {oldId.value};
        if Guarded(old(used)) {
          if entityType != "observation" {
            AddKeepsGuard(old(used), oldId.value);
          } else if EvidenceKnown(oldId.value, old(used)) {
            ReserveKeepsGuard(old(used), oldId.value);
          }
        }
        return oldId;
      }
      r := Allocate(entityType, slug);
    }

    ghost predicate YearlyTask(id: string) {
      exists n: nat :: n < Power10(3) && id == "TASK-" + Decimal(year) + "-" + Pad(n, 3)
    }

    /** The year is printed without padding, so only four-digit years give a canonical identifier. */
    lemma YearlyIsParentId(id: string)
      requires YearlyTask(id)
      ensures IsParentId(id) <==> 1000 <= year <= 9999
    {
      var n: nat :| n < Power10(3) && id == "TASK-" + Decimal(year) + "-" + Pad(n, 3);
      PadWidth(n, 3);
      DecimalWidth(year, 4);
      DecimalWidth(year, 3);
      assert Power10(3) == 10 * Power10(2) && Power10(2) == 10 * Power10(1) && Power10(4) == 10 * Power10(3);
      YearlyShape(Decimal(year), Pad(n, 3));
    }

    /** `TASK-YYYY-NNN`, kept from the legacy document or drawn from the yearly sequence. */
    method AllocateParentTask(oldId: Option<string>) returns (r: Option<string>)
      modifies this
      ensures r.None? ==> used == old(used)
      ensures r.Some? ==> r.value !in old(used) && used == old(used) + {r.value}
      ensures Keepable(oldId, old(used)) ==> r == oldId
      ensures r.Some? && !Keepable(oldId, old(used)) ==> YearlyTask(r.value)
    {
      if oldId.Some? && oldId.value !in used && IsParentId(oldId.value) {
        used := used + {oldId.value};
        return oldId;
      }
      r := YearSequence("TASK", 3);
    }

    /** `<parent>-STNN`, kept from the legacy document when it has this parent. */
    method AllocateSubtask(parent: string, oldId: Option<string>) returns (r: Option<string>)
      modifies this
      ensures r.None? ==> used == old(used)
      ensures r.Some? ==> r.value !in old(used) && used == old(used) + {r.value}
      ensures r.Some? ==> IsSubtaskOf(parent, r.value)
    {
      if oldId.Some? && oldId.value !in used && IsSubtaskOf(parent, oldId.value) {
        used := used + {oldId.value};
        return oldId;
      }
      r := NextFree(parent + "-ST", parent + "-ST", 2);
      if r.Some? {
        var n :| 0 <= n < Power10(2) && r.value == parent + "-ST" + Pad(n, 2);
        PadWidth(n, 2);
        SubtaskShape(parent, Pad(n, 2));
      }
    }

    lemma SlugHasNoHash(entityType: string, slug: string, id: string)
      requires '#' !in slug && '#' !in entityType
      requires exists k: nat :: id == SlugCandidate(PrefixOf(entityType) + "-" + slug, k)
      ensures '#' !in id
    {
      PrefixHasNoHash(entityType);
      var base := PrefixOf(entityType) + "-" + slug;
      assert '#' !in base;
      var k: nat :| id == SlugCandidate(base, k);
      CandidateHasNoHash(base, k);
    }
  }

  // ------------------------------------------------- when identifiers repeat

  /** Some evidence identifier still ahead of its sequence is free although its first observation is reserved. */
  ghost predicate Clashing(date: string, t: Table) {
    exists slug, n :: '#' !in slug && Clashes(date, t, slug, n)
  }

  predicate Clashes(date: string, t: Table, slug: string, n: nat) {
    && LastIn(t, EvidenceKey(date, slug)) < n < Power10(2)
    && EvidenceId(date, slug, n) !in t.used && EvidenceId(date, slug, n) + OBSERVATION_SUFFIX in t.used
  }

  datatype Call = Call(entityType: string, slug: string)

  ghost predicate Allocated(date: string, tables: seq<Table>, calls: seq<Call>, results: seq<Option<string>>, i: nat)
    requires |tables| == |calls| + 1 && |results| == |calls| && i < |calls|
  {
    Allocates(date, tables[i], calls[i].entityType, calls[i].slug, tables[i + 1], results[i])
  }

  /** A sequence of calls of `allocate` from this table. */
  ghost predicate Calls(date: string, t: Table, tables: seq<Table>, calls: seq<Call>, results: seq<Option<string>>) {
    && |tables| == |calls| + 1 && |results| == |calls| && tables[0] == t
    && (forall i | 0 <= i < |calls| :: '#' !in calls[i].entityType && '#' !in calls[i].slug)
    && forall i | 0 <= i < |calls| :: Allocated(date, tables, calls, results, i)
  }

  /** One of the calls returns an identifier that was in use, an earlier result perhaps. */
  ghost predicate Repeats(tables: seq<Table>, results: seq<Option<string>>) {
    exists i :: 0 <= i < |results| && i < |tables| && results[i].Some? && results[i].value in tables[i].used
  }

  ghost predicate RepeatsFrom(date: string, t: Table, tables: seq<Table>, calls: seq<Call>,
                              results: seq<Option<string>>) {
    Calls(date, t, tables, calls, results) && Repeats(tables, results)
  }

  lemma SuffixCancels(a: string, b: string)
    requires a + OBSERVATION_SUFFIX == b + OBSERVATION_SUFFIX
    ensures a == b
  {
    assert |a| == |b|;
    assert (a + OBSERVATION_SUFFIX)[..|a|] == a && (b + OBSERVATION_SUFFIX)[..|b|] == b;
  }

  /** From a table without a clash, a call returns a new identifier and leaves no clash behind. */
  lemma CallStaysClear(date: string, t: Table, call: Call, t': Table, r: Option<string>)
    requires '#' !in date && '#' !in call.slug && !Clashing(date, t)
    requires Allocates(date, t, call.entityType, call.slug, t', r)
    ensures r.Some? ==> r.value !in t.used
    ensures !Clashing(date, t')
  {
    if call.entityType == "observation" && r.Some? {
      var n := NextNumber(date, t, call.slug).value;
      assert !Clashes(date, t, call.slug, n);
    }
    forall slug, n | '#' !in slug ensures !Clashes(date, t', slug, n) {
      assert !Clashes(date, t, slug, n);
      var e := EvidenceId(date, slug, n);
      if call.entityType == "observation" && r.Some? && e + OBSERVATION_SUFFIX == r.value {
        SuffixCancels(e, EvidenceId(date, call.slug, NextNumber(date, t, call.slug).value));
      }
      EvidenceIdHasNoHash(date, slug, n);
      if call.entityType == "observation" && r.Some? {
        EvidenceIdHasNoHash(date, call.slug, NextNumber(date, t, call.slug).value);
        NoHashNoSuffix(EvidenceId(date, call.slug, NextNumber(date, t, call.slug).value), e);
      } else if r.Some? {
        NoHashNoSuffix(r.value, e);
      }
    }
  }

  lemma EvidenceIdHasNoHash(date: string, slug: string, n: nat)
    requires '#' !in date && '#' !in slug
    ensures '#' !in EvidenceId(date, slug, n)
  {
    DigitsHaveNoHash(Pad(n, 2));
  }

  lemma {:induction false} AlwaysClear(date: string, t: Table, tables: seq<Table>, calls: seq<Call>,
                                       results: seq<Option<string>>,
                                       i: nat)
    requires '#' !in date && !Clashing(date, t) && Calls(date, t, tables, calls, results) && i < |tables|
    ensures !Clashing(date, tables[i])
  {
    if i > 0 {
      AlwaysClear(date, t, tables, calls, results, i - 1);
      assert Allocated(date, tables, calls, results, i - 1);
      CallStaysClear(date, tables[i - 1], calls[i - 1], tables[i], results[i - 1]);
    }
  }

  /** Asking for observations of the slug over and over reaches the clash. */
  lemma {:induction false} ClashIsReached(date: string, t: Table, slug: string, n: nat)
    returns (tables: seq<Table>, calls: seq<Call>, results: seq<Option<string>>)
    requires '#' !in date && '#' !in slug && Clashes(date, t, slug, n)
    ensures RepeatsFrom(date, t, tables, calls, results)
    decreases n - LastIn(t, EvidenceKey(date, slug))
  {
    var m := NextNumber(date, t, slug).value;
    var t', r := Observed(date, t, slug, m), Some(EvidenceId(date, slug, m) + OBSERVATION_SUFFIX);
    var call := Call("observation", slug);
    assert Allocates(date, t, call.entityType, slug, t', r);
    if m == n {
      tables, calls, results := [t, t'], [call], [r];
      assert Allocated(date, tables, calls, results, 0);
      assert results[0].value in tables[0].used;
    } else {
      StillClashes(date, t, slug, m, n);
      var tables1, calls1, results1 := ClashIsReached(date, t', slug, n);
      tables, calls, results := [t] + tables1, [call] + calls1, [r] + results1;
      OneCallFirst(date, t, t', call, r, tables1, calls1, results1);
    }
  }

  lemma StillClashes(date: string, t: Table, slug: string, m: nat, n: nat)
    requires '#' !in date && '#' !in slug && Clashes(date, t, slug, n) && NextNumber(date, t, slug) == Some(m) && m != n
    ensures m < n && Clashes(date, Observed(date, t, slug, m), slug, n)
  {
    var e, f := EvidenceId(date, slug, m), EvidenceId(date, slug, n);
    EvidenceIdHasNoHash(date, slug, n);
    NoHashNoSuffix(f, e);
    if e == f {
      assert e[|EvidenceKey(date, slug)| + 1..] == Pad(m, 2) && f[|EvidenceKey(date, slug)| + 1..] == Pad(n, 2);
      PadInjective(m, n, 2);
    }
    assert EvidenceKey(date, slug) + "-" + Pad(n, 2) == f;
  }

  lemma OneCallFirst(date: string, t: Table, t': Table, call: Call, r: Option<string>, tables: seq<Table>,
                     calls: seq<Call>,
                     results: seq<Option<string>>)
    requires '#' !in call.entityType && '#' !in call.slug && Allocates(date, t, call.entityType, call.slug, t', r)
    requires RepeatsFrom(date, t', tables, calls, results)
    ensures RepeatsFrom(date, t, [t] + tables, [call] + calls, [r] + results)
  {
    var tables', calls', results' := [t] + tables, [call] + calls, [r] + results;
    forall i | 0 <= i < |calls'| ensures Allocated(date, tables', calls', results', i) {
      if i > 0 {
        assert Allocated(date, tables, calls, results, i - 1);
      }
    }
    var k :| 0 <= k < |results| && k < |tables| && results[k].Some? && results[k].value in tables[k].used;
    assert results'[k + 1] == results[k] && tables'[k + 1] == tables[k];
  }

  /**
   MAIN: some sequence of allocations can return an identifier that is in use exactly when some
   evidence identifier still ahead of its sequence is free while its first observation is reserved.
   */
  lemma RepeatsExactly(date: string, t: Table)
    requires '#' !in date
    ensures (exists tables: seq<Table>, calls: seq<Call>, results: seq<Option<string>> ::
               RepeatsFrom(date, t, tables, calls, results)) <==> Clashing(date, t)
  {
    if tables: seq<Table>, calls: seq<Call>, results: seq<Option<string>> :|
       RepeatsFrom(date, t, tables, calls, results)
    {
      var i :| 0 <= i < |results| && i < |tables| && results[i].Some? && results[i].value in tables[i].used;
      if !Clashing(date, t) {
        AlwaysClear(date, t, tables, calls, results, i);
        assert Allocated(date, tables, calls, results, i);
        CallStaysClear(date, tables[i], calls[i], tables[i + 1], results[i]);
      }
    }
    if Clashing(date, t) {
      var slug, n :| '#' !in slug && Clashes(date, t, slug, n);
      var tables, calls, results := ClashIsReached(date, t, slug, n);
    }
  }

  ghost predicate Distinct(ids: seq<string>) {
    forall i, j | 0 <= i < j < |ids| :: ids[i] != ids[j]
  }

  /** A document before the `i`-th brings this identifier and may keep it. */
  ghost predicate Offered(docs: seq<Document>, i: nat, id: string, valid: (string, string) -> bool) {
    exists j :: 0 <= j < i && j < |docs| && docs[j].oldId == Some(id) && valid(docs[j].entityType, id)
  }

  /** A legacy first-observation identifier is offered only after its own evidence record. */
  ghost predicate EvidenceComesFirst(docs: seq<Document>, used: set<string>, valid: (string, string) -> bool) {
    forall i, e: string | 0 <= i < |docs| && docs[i].entityType == "observation" &&
                          docs[i].oldId == Some(e + OBSERVATION_SUFFIX) ::
      e in used || Offered(docs, i, e, valid)
  }

  /** Every valid legacy identifier offered so far is reserved, by its own document or an earlier one. */
  ghost predicate OffersReserved(docs: seq<Document>, i: nat, used: set<string>, valid: (string, string) -> bool) {
    forall id: string :: Offered(docs, i, id, valid) ==> id in used
  }

  lemma OfferedStep(docs: seq<Document>, i: nat, before: set<string>, after: set<string>,
                    valid: (string, string) -> bool)
    requires i < |docs| && before <= after && OffersReserved(docs, i, before, valid)
    requires docs[i].oldId.Some? && valid(docs[i].entityType, docs[i].oldId.value) ==> docs[i].oldId.value in after
    ensures OffersReserved(docs, i + 1, after, valid)
  {
    forall id: string | Offered(docs, i + 1, id, valid) ensures id in after {
      var j :| 0 <= j < i + 1 && j < |docs| && docs[j].oldId == Some(id) && valid(docs[j].entityType, id);
      if j < i {
        assert Offered(docs, i, id, valid);
      }
    }
  }

  lemma OwnEvidenceKnown(docs: seq<Document>, i: nat, first: set<string>, used: set<string>,
                         valid: (string, string) -> bool)
    requires i < |docs| && docs[i].entityType == "observation" && docs[i].oldId.Some?
    requires EvidenceComesFirst(docs, first, valid) && first <= used && OffersReserved(docs, i, used, valid)
    ensures EvidenceKnown(docs[i].oldId.value, used)
  {
    forall e: string | docs[i].oldId.value == e + OBSERVATION_SUFFIX ensures e in used {
      assert docs[i].oldId == Some(e + OBSERVATION_SUFFIX);
      assert e in first || Offered(docs, i, e, valid);
    }
  }

  /** All different, and none in use before. */
  ghost predicate AllNew(ids: seq<string>, first: set<string>) {
    Distinct(ids) && forall i | 0 <= i < |ids| :: ids[i] !in first
  }

  /** Only evidence identifiers, which have no '#', come into use besides the returned ones. */
  ghost predicate Accounted(ids: seq<string>, first: set<string>, used: set<string>) {
    && first <= used && (forall i | 0 <= i < |ids| :: ids[i] in used)
    && forall x | x in used && '#' in x :: x in first || x in ids
  }

  /** The table at every turn of the pass, and at its end. */
  ghost predicate Turns(date: string, tables: seq<Table>, docs: seq<Document>, ids: seq<string>,
                        valid: (string, string) -> bool)
  {
    && |tables| == |ids| + 1 && |ids| <= |docs|
    && forall i | 0 <= i < |ids| :: Turn(date, tables, docs, ids, i, valid)
  }

  ghost predicate Turn(date: string, tables: seq<Table>, docs: seq<Document>, ids: seq<string>, i: nat,
                       valid: (string, string) -> bool)
    requires |tables| == |ids| + 1 && i < |ids| <= |docs|
  {
    Reserves(date, tables[i], docs[i], tables[i + 1], Some(ids[i]), valid)
  }

  ghost predicate NoneClash(date: string, tables: seq<Table>, docs: seq<Document>, valid: (string, string) -> bool,
                            n: nat)
    requires n <= |tables| && n <= |docs|
  {
    forall i | 0 <= i < n :: !ClashesAt(date, tables[i], docs[i], valid)
  }

  lemma OneMoreNew(ids: seq<string>, first: set<string>, before: set<string>, id: string)
    requires Accounted(ids, first, before) && (id in before ==> '#' in id)
    ensures AllNew(ids + [id], first) <==> AllNew(ids, first) && id !in before
  {
    var longer := ids + [id];
    assert longer[|ids|] == id && forall i | 0 <= i < |ids| :: longer[i] == ids[i];
  }

  lemma OneMoreTurn(date: string, tables: seq<Table>, t: Table, docs: seq<Document>, ids: seq<string>, id: string,
                    valid: (string, string) -> bool)
    requires Turns(date, tables, docs, ids, valid) && |ids| < |docs|
    requires Reserves(date, tables[|ids|], docs[|ids|], t, Some(id), valid)
    ensures Turns(date, tables + [t], docs, ids + [id], valid)
    ensures NoneClash(date, tables + [t], docs, valid, |ids| + 1) <==>
              NoneClash(date, tables, docs, valid, |ids|) && !ClashesAt(date, tables[|ids|], docs[|ids|], valid)
  {
    var longer, ids' := tables + [t], ids + [id];
    assert forall i | 0 <= i < |tables| :: longer[i] == tables[i];
    forall i | 0 <= i < |ids'| ensures Turn(date, longer, docs, ids', i, valid) {
      if i < |ids| {
        assert Turn(date, tables, docs, ids, i, valid);
      }
    }
  }

  /** What a turn brings into use with a '#' in it is the identifier it returns. */
  lemma TurnAccounted(date: string, t: Table, doc: Document, t': Table, id: string, valid: (string, string) -> bool)
    requires '#' !in date && '#' !in doc.slug && Reserves(date, t, doc, t', Some(id), valid)
    ensures id in t'.used && t.used <= t'.used
    ensures forall x | x in t'.used && '#' in x :: x in t.used || x == id
    ensures id in t.used ==> '#' in id
  {
    if !Kept(t.used, doc, valid) && doc.entityType == "observation" {
      var n := NextNumber(date, t, doc.slug).value;
      EvidenceIdHasNoHash(date, doc.slug, n);
      assert id[|EvidenceId(date, doc.slug, n)|] == '#';
    }
  }

  /**
   The non-task pass over the legacy documents: one identifier each, in order, taking the table from
   turn to turn as `Turns` says. They are all new and different exactly when no document clashes at
   its turn.
   */
  method AllocateDocuments(allocator: IdAllocator, docs: seq<Document>, valid: (string, string) -> bool)
    returns (r: Option<seq<string>>, ghost tables: seq<Table>)
    requires '#' !in allocator.date && forall t, v :: valid(t, v) && '#' in v ==> t == "observation"
    requires forall i | 0 <= i < |docs| :: '#' !in docs[i].slug && '#' !in docs[i].entityType
    modifies allocator
    ensures old(allocator.used) <= allocator.used
    ensures r.Some? ==> |r.value| == |docs| && forall i | 0 <= i < |docs| :: r.value[i] in allocator.used
    ensures r.Some? ==> Turns(allocator.date, tables, docs, r.value, valid)
    ensures r.Some? ==> tables[0] == old(allocator.Contents()) && tables[|docs|] == allocator.Contents()
    ensures r.Some? ==>
              (AllNew(r.value, old(allocator.used)) <==> NoneClash(allocator.date, tables, docs, valid, |docs|))
    ensures Guarded(old(allocator.used)) && EvidenceComesFirst(docs, old(allocator.used), valid) ==>
              Guarded(allocator.used)
    ensures Guarded(old(allocator.used)) && EvidenceComesFirst(docs, old(allocator.used), valid) && r.Some? ==>
              AllNew(r.value, old(allocator.used))
  {
    var ids: seq<string> := [];
    ghost var first := allocator.used;
    ghost var orderly := Guarded(first) && EvidenceComesFirst(docs, first, valid);
    tables := [allocator.Contents()];
    for i := 0 to |docs|
      invariant |ids| == i && Turns(allocator.date, tables, docs, ids, valid)
      invariant tables[0] == old(allocator.Contents()) && tables[i] == allocator.Contents()
      invariant OffersReserved(docs, i, allocator.used, valid) && Accounted(ids, first, allocator.used)
      invariant AllNew(ids, first) <==> NoneClash(allocator.date, tables, docs, valid, i)
      invariant orderly ==> Guarded(allocator.used) && AllNew(ids, first)
    {
      ghost var before := allocator.Contents();
      if orderly && docs[i].entityType == "observation" && docs[i].oldId.Some? {
        OwnEvidenceKnown(docs, i, first, before.used, valid);
      }
      var id := allocator.ReserveOrAllocate(docs[i].entityType, docs[i].oldId, docs[i].slug, valid);
      if id.None? {
        return None, tables;
      }
      ghost var after := allocator.Contents();
      TurnAccounted(allocator.date, before, docs[i], after, id.value, valid);
      OfferedStep(docs, i, before.used, after.used, valid);
      OneMoreNew(ids, first, before.used, id.value);
      OneMoreTurn(allocator.date, tables, after, docs, ids, id.value, valid);
      ids := ids + [id.value];
      tables := tables + [after];
    }
    r := Some(ids);
  }

  lemma FirstEvidenceNumber(used: set<string>, date: string)
    requires "EVD-" + date + "-note-01" !in used
    ensures FirstFree(used, "EVD-" + date + "-note-", 2, 0) == Some(1) && Pad(1, 2) == "01"
  {
    assert Power10(2) == 10 * Power10(1) == 100;
    assert Decimal(1) == "1" && Zeros(1) == "0" + Zeros(0);
    assert Pad(1, 2) == "01";
    var stem := "EVD-" + date + "-note-";
    assert stem + "01" == "EVD-" + date + "-note-01";
    assert stem + Pad(0 + 1, 2) !in used;
  }

  /**
   The clash is real: once a legacy observation has kept its identifier, an unidentified one from
   a file of that slug is given the same identifier.
   */
  method ObservationIdentifiersCanRepeat(date: string) returns (first: string, second: string)
    requires '#' !in date
    ensures first == second
  {
    var allocator := new IdAllocator(date, 2026);
    var kept := "EVD-" + date + "-note-01" + OBSERVATION_SUFFIX;
    var r1 := allocator.ReserveOrAllocate("observation", Some(kept), "other", (t, v) => t == "observation");
    NoHashNoSuffix("EVD-" + date + "-note-01", "EVD-" + date + "-note-01");
    assert "EVD-" + date + "-note-01" != kept by {
      assert |kept| == |"EVD-" + date + "-note-01"| + |OBSERVATION_SUFFIX|;
    }
    FirstEvidenceNumber(allocator.used, date);
    assert EvidenceKey(date, "note") + "-" == "EVD-" + date + "-note-";
    assert NextNumber(date, allocator.Contents(), "note") == Some(1);
    assert EvidenceId(date, "note", 1) == "EVD-" + date + "-note-01";
    var r2 := allocator.ReserveOrAllocate("observation", None, "note", (t, v) => t == "observation");
    first, second := r1.value, r2.value;
  }

  lemma {:induction false} SubsetSize(a: set<string>, b: set<string>)
    requires a <= b
    ensures |a| <= |b|
    decreases a
  {
    if x :| x in a {
      SubsetSize(a - {x}, b - {x});
    }
  }
}
