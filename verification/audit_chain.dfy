/**
 The tamper-evident audit chain: ordered canonical objects, sealing, the checks on one event and
 the replay of a request. SHA-256 over the rendered bytes is a function `hash` on ordered
 objects; the results about heads assume that the events at hand neither collide nor hash to
 the zero revision.
 */
module AuditChain {
  import opened Options
  import opened CommitProtocol

  datatype Field =
    | SchemaVersion | Id | ProposalId | ContextId | Timestamp | ActorField | ActionField | Result | BaseRevision
    | SourceRefs | AcknowledgedPaths | Operations | PrevHash | EventHash
    | Op | TargetPath | Source | Destination | PreimageHash | PostimageHash | ContentHash

  /** The actor union is kept whole: its own object has a fixed shape. */
  datatype Actor = Human(id: string) | Agent(id: string, agent: string, model: string) | System(id: string)

  datatype Json = Str(text: string) | Num(number: int) | Who(actor: Actor) | Arr(items: seq<Json>) | Obj(fields: Object)
  type Object = seq<(Field, Json)>

  /** The declaration order of the event model; the hash is the subclass's own last field. */
  const DECLARED: seq<Field> :=
    [SchemaVersion, Id, ProposalId, ContextId, Timestamp, ActorField, ActionField, Result, BaseRevision,
     SourceRefs, AcknowledgedPaths, Operations, PrevHash, EventHash]

  datatype Content = Content(
    schemaVersion: int, id: string, proposalId: string, contextId: string, timestamp: string, actor: Actor,
    action: string, result: string, baseRevision: Revision, sourceRefs: seq<string>,
    acknowledged: seq<string>, operations: seq<AuditOp>, prevHash: Revision)

  datatype AuditEvent = AuditEvent(content: Content, eventHash: Revision)

  type Hash = Object -> Revision

  // --------------------------------------------------------- ordered objects

  function Get(fields: Object, key: Field): Option<Json> {
    if fields == [] then None
    else if fields[0].0 == key then Some(fields[0].1)
    else Get(fields[1..], key)
  }

  /** `data[key] = value`: replaced where it stands, appended when it is new. */
  function Set(fields: Object, key: Field, value: Json): Object {
    if fields == [] then [(key, value)]
    else if fields[0].0 == key then [(key, value)] + fields[1..]
    else [fields[0]] + Set(fields[1..], key, value)
  }

  ghost predicate NoKey(fields: Object, key: Field) {
    forall i | 0 <= i < |fields| :: fields[i].0 != key
  }

  lemma {:induction false} SetAppends(fields: Object, key: Field, value: Json)
    requires NoKey(fields, key)
    ensures Set(fields, key, value) == fields + [(key, value)]
  {
    if fields != [] {
      SetAppends(fields[1..], key, value);
    }
  }

  lemma {:induction false} SetReplacesLast(fields: Object, key: Field, earlier: Json, value: Json)
    requires NoKey(fields, key)
    ensures Set(fields + [(key, earlier)], key, value) == fields + [(key, value)]
  {
    var all := fields + [(key, earlier)];
    if fields == [] {
      assert all[1..] == [];
    } else {
      assert all[1..] == fields[1..] + [(key, earlier)];
      SetReplacesLast(fields[1..], key, earlier, value);
    }
  }

  lemma {:induction false} GetAt(fields: Object, i: nat)
    requires i < |fields| && NoKey(fields[..i], fields[i].0)
    ensures Get(fields, fields[i].0) == Some(fields[i].1)
  {
    if i > 0 {
      assert fields[..i][0] == fields[0];
      assert fields[1..][..i - 1] == fields[..i][1..];
      GetAt(fields[1..], i - 1);
    }
  }

  lemma {:induction false} GetAbsent(fields: Object, key: Field)
    requires NoKey(fields, key)
    ensures Get(fields, key) == None
  {
    if fields != [] {
      GetAbsent(fields[1..], key);
    }
  }

  // ---------------------------------------------------------------- encoding

  function Strings(xs: seq<string>): seq<Json> {
    seq(|xs|, i requires 0 <= i < |xs| => Str(xs[i]))
  }

  function OpObject(op: AuditOp): Object {
    match op
    case Create(t, post) => [(Op, Str("create")), (TargetPath, Str(t)), (PostimageHash, Str(post))]
    case Update(t, pre, post) =>
      [(Op, Str("update")), (TargetPath, Str(t)), (PreimageHash, Str(pre)), (PostimageHash, Str(post))]
    case Rename(s, d, h) => [(Op, Str("move")), (Source, Str(s)), (Destination, Str(d)), (ContentHash, Str(h))]
    case DeleteGenerated(t, g) => [(Op, Str("delete_generated")), (TargetPath, Str(t)), (PreimageHash, Str(g))]
  }

  function OpArray(ops: seq<AuditOp>): seq<Json> {
    seq(|ops|, i requires 0 <= i < |ops| => Obj(OpObject(ops[i])))
  }

  function Before(c: Content): Object {
    [(SchemaVersion, Num(c.schemaVersion)), (Id, Str(c.id)), (ProposalId, Str(c.proposalId)),
     (ContextId, Str(c.contextId)), (Timestamp, Str(c.timestamp)), (ActorField, Who(c.actor)),
         (ActionField, Str(c.action)),
     (Result, Str(c.result)), (BaseRevision, Str(c.baseRevision)), (SourceRefs, Arr(Strings(c.sourceRefs)))]
  }

  function After(c: Content): Object {
    [(Operations, Arr(OpArray(c.operations))), (PrevHash, Str(c.prevHash))]
  }

  /** The canonical data of event content: declaration order, an empty acknowledgement list left out. */
  function ContentData(c: Content): Object {
    Before(c)
    + (if c.acknowledged == [] then [] else [(AcknowledgedPaths, Arr(Strings(c.acknowledged)))])
    + After(c)
  }

  function EventData(e: AuditEvent): Object {
    ContentData(e.content) + [(EventHash, Str(e.eventHash))]
  }

  /** The hash content is sealed with: `event_hash` set to the empty string in the dumped data. */
  function ContentHashOf(c: Content, hash: Hash): Revision {
    hash(Set(ContentData(c), EventHash, Str("")))
  }

  /** The hash the event model's own validator expects, where the key is already there. */
  function EventHashOf(e: AuditEvent, hash: Hash): Revision {
    hash(Set(EventData(e), EventHash, Str("")))
  }

  /** The position of a field in the event model; the fields inside operations have none. */
  function Rank(key: Field): nat {
    match key
    case SchemaVersion => 0 case Id => 1 case ProposalId => 2 case ContextId => 3 case Timestamp => 4
    case ActorField => 5 case ActionField => 6 case Result => 7 case BaseRevision => 8 case SourceRefs => 9
    case AcknowledgedPaths => 10 case Operations => 11 case PrevHash => 12 case EventHash => 13
    case _ => 14
  }

  /** Keys re-ordered by declaration from position `n` on, keeping those present. */
  function Reorder(fields: Object, n: nat): Object
    requires n <= |DECLARED|
    decreases |DECLARED| - n
  {
    if n == |DECLARED| then []
    else
      match Get(fields, DECLARED[n])
      case None => Reorder(fields, n + 1)
      case Some(v) => [(DECLARED[n], v)] + Reorder(fields, n + 1)
  }

  /** The hash the ledger recomputes: a copy with an empty hash, through the shared serializer. */
  function LedgerHashOf(e: AuditEvent, hash: Hash): Revision {
    hash(Reorder(EventData(e.(eventHash := "")), 0))
  }

  // ------------------------------------------------------- declaration order

  ghost predicate Ranked(fields: Object) {
    && (forall i | 0 <= i < |fields| :: Rank(fields[i].0) < |DECLARED|)
    && (forall i, j | 0 <= i < j < |fields| :: Rank(fields[i].0) < Rank(fields[j].0))
  }

  lemma RankOfDeclared(n: nat)
    requires n < |DECLARED|
    ensures Rank(DECLARED[n]) == n
  {
  }

  lemma {:induction false} DropFirst(fields: Object, n: nat)
    requires fields != [] && Rank(fields[0].0) < n <= |DECLARED|
    ensures Reorder(fields, n) == Reorder(fields[1..], n)
    decreases |DECLARED| - n
  {
    if n < |DECLARED| {
      RankOfDeclared(n);
      DropFirst(fields, n + 1);
    }
  }

  ghost predicate RanksFrom(fields: Object, n: nat) {
    forall i | 0 <= i < |fields| :: Rank(fields[i].0) >= n
  }

  lemma RankedTail(fields: Object)
    requires Ranked(fields) && fields != []
    ensures Ranked(fields[1..]) && RanksFrom(fields[1..], Rank(fields[0].0) + 1)
  {
  }

  lemma RankIsOne(key: Field, n: nat)
    requires n < |DECLARED|
    ensures Rank(key) == n ==> key == DECLARED[n]
  {
  }

  lemma RankedSkip(fields: Object, n: nat)
    requires n < |DECLARED| && Ranked(fields) && RanksFrom(fields, n) && (fields != [] ==> Rank(fields[0].0) != n)
    ensures RanksFrom(fields, n + 1)
  {
  }

  lemma HigherRankedLacks(fields: Object, n: nat)
    requires n < |DECLARED| && RanksFrom(fields, n + 1)
    ensures NoKey(fields, DECLARED[n])
  {
    RankOfDeclared(n);
  }

  /** Data already in declaration order is left alone. */
  lemma {:induction false} ReorderRanked(fields: Object, n: nat)
    requires n <= |DECLARED| && Ranked(fields) && RanksFrom(fields, n)
    ensures Reorder(fields, n) == fields
    decreases |DECLARED| - n
  {
    if n < |DECLARED| {
      RankOfDeclared(n);
      if fields != [] && fields[0].0 == DECLARED[n] {
        DropFirst(fields, n + 1);
        RankedTail(fields);
        ReorderRanked(fields[1..], n + 1);
      } else {
        if fields != [] {
          RankIsOne(fields[0].0, n);
        }
        RankedSkip(fields, n);
        HigherRankedLacks(fields, n);
        GetAbsent(fields, DECLARED[n]);
        ReorderRanked(fields, n + 1);
      }
    }
  }

  lemma RankedParts(c: Content)
    ensures forall i | 0 <= i < 10 :: Rank(Before(c)[i].0) == i
    ensures forall i | 0 <= i < 2 :: Rank(After(c)[i].0) == 11 + i
  {
  }

  lemma DataIsRanked(e: AuditEvent)
    ensures Ranked(EventData(e)) && NoKey(ContentData(e.content), EventHash)
  {
    RankedParts(e.content);
  }

  lemma RankedGet(fields: Object, i: nat)
    requires Ranked(fields) && i < |fields|
    ensures Get(fields, fields[i].0) == Some(fields[i].1)
  {
    GetAt(fields, i);
  }

  /** MAIN: sealing, the event model and the ledger all hash the same ordered object. */
  lemma SameHashOnEveryPath(c: Content, h: Revision, hash: Hash)
    ensures ContentHashOf(c, hash) == EventHashOf(AuditEvent(c, h), hash) == LedgerHashOf(AuditEvent(c, h), hash)
    ensures ContentHashOf(c, hash) == hash(ContentData(c) + [(EventHash, Str(""))])
  {
    var blank := AuditEvent(c, "");
    DataIsRanked(blank);
    SetAppends(ContentData(c), EventHash, Str(""));
    SetReplacesLast(ContentData(c), EventHash, Str(h), Str(""));
    ReorderRanked(EventData(blank), 0);
  }

  // ----------------------------------------------------------------- parsing

  function TextOf(fields: Object, key: Field): Option<string> {
    match Get(fields, key)
    case Some(Str(s)) => Some(s)
    case _ => None
  }

  function NumberOf(fields: Object, key: Field): Option<int> {
    match Get(fields, key)
    case Some(Num(n)) => Some(n)
    case _ => None
  }

  function ActorOf(fields: Object, key: Field): Option<Actor> {
    match Get(fields, key)
    case Some(Who(a)) => Some(a)
    case _ => None
  }

  function ArrayOf(fields: Object, key: Field): Option<seq<Json>> {
    match Get(fields, key)
    case Some(Arr(xs)) => Some(xs)
    case _ => None
  }

  function ParseStrings(items: seq<Json>): Option<seq<string>> {
    if items == [] then Some([])
    else if !items[0].Str? then None
    else
      var rest :- ParseStrings(items[1..]);
      Some([items[0].text] + rest)
  }

  function ParseCreate(fields: Object): Option<AuditOp> {
    var t :- TextOf(fields, TargetPath);
    var post :- TextOf(fields, PostimageHash);
    Some(Create(t, post))
  }

  function ParseUpdate(fields: Object): Option<AuditOp> {
    var t :- TextOf(fields, TargetPath);
    var pre :- TextOf(fields, PreimageHash);
    var post :- TextOf(fields, PostimageHash);
    Some(Update(t, pre, post))
  }

  function ParseMove(fields: Object): Option<AuditOp> {
    var s :- TextOf(fields, Source);
    var d :- TextOf(fields, Destination);
    var h :- TextOf(fields, ContentHash);
    Some(Rename(s, d, h))
  }

  function ParseDelete(fields: Object): Option<AuditOp> {
    var t :- TextOf(fields, TargetPath);
    var g :- TextOf(fields, PreimageHash);
    Some(DeleteGenerated(t, g))
  }

  /** The discriminated union: `op` selects the model the other fields are read with. */
  function ParseOp(fields: Object): Option<AuditOp> {
    var op :- TextOf(fields, Op);
    if op == "create" then ParseCreate(fields)
    else if op == "update" then ParseUpdate(fields)
    else if op == "move" then ParseMove(fields)
    else if op == "delete_generated" then ParseDelete(fields)
    else None
  }

  function ParseOps(items: seq<Json>): Option<seq<AuditOp>> {
    if items == [] then Some([])
    else if !items[0].Obj? then None
    else
      var op :- ParseOp(items[0].fields);
      var rest :- ParseOps(items[1..]);
      Some([op] + rest)
  }

  /** The scalar fields; the lists are filled in by the two functions below. */
  function ParseScalars(fields: Object): Option<Content> {
    var version :- NumberOf(fields, SchemaVersion);
    var id :- TextOf(fields, Id);
    var proposalId :- TextOf(fields, ProposalId);
    var contextId :- TextOf(fields, ContextId);
    var timestamp :- TextOf(fields, Timestamp);
    var actor :- ActorOf(fields, ActorField);
    var action :- TextOf(fields, ActionField);
    var result :- TextOf(fields, Result);
    var base :- TextOf(fields, BaseRevision);
    var prev :- TextOf(fields, PrevHash);
    Some(Content(version, id, proposalId, contextId, timestamp, actor, action, result, base, [], [], [], prev))
  }

  /** `acknowledged_paths` defaults to the empty list when the key is missing. */
  function ParseAcknowledged(fields: Object): Option<seq<string>> {
    if Get(fields, AcknowledgedPaths) == None then Some([])
    else
      var items :- ArrayOf(fields, AcknowledgedPaths);
      ParseStrings(items)
  }

  function ParseContent(fields: Object): Option<Content> {
    var scalars :- ParseScalars(fields);
    var refs :- ArrayOf(fields, SourceRefs);
    var sourceRefs :- ParseStrings(refs);
    var acknowledged :- ParseAcknowledged(fields);
    var ops :- ArrayOf(fields, Operations);
    var operations :- ParseOps(ops);
    Some(scalars.(sourceRefs := sourceRefs, acknowledged := acknowledged, operations := operations))
  }

  lemma {:induction false} StringsRoundTrip(xs: seq<string>)
    ensures ParseStrings(Strings(xs)) == Some(xs)
  {
    if xs != [] {
      StringsRoundTrip(xs[1..]);
      assert Strings(xs)[0] == Str(xs[0]) && Strings(xs)[1..] == Strings(xs[1..]);
      assert xs == [xs[0]] + xs[1..];
    }
  }

  lemma TextAt(fields: Object, i: nat, text: string)
    requires i < |fields| && NoKey(fields[..i], fields[i].0) && fields[i].1 == Str(text)
    ensures TextOf(fields, fields[i].0) == Some(text)
  {
    GetAt(fields, i);
  }

  lemma CreateRoundTrip(t: string, post: string)
    ensures ParseCreate(OpObject(Create(t, post))) == Some(Create(t, post))
  {
    TextAt(OpObject(Create(t, post)), 1, t);
    TextAt(OpObject(Create(t, post)), 2, post);
  }

  lemma UpdateRoundTrip(t: string, pre: string, post: string)
    ensures ParseUpdate(OpObject(Update(t, pre, post))) == Some(Update(t, pre, post))
  {
    TextAt(OpObject(Update(t, pre, post)), 1, t);
    TextAt(OpObject(Update(t, pre, post)), 2, pre);
    TextAt(OpObject(Update(t, pre, post)), 3, post);
  }

  lemma MoveRoundTrip(s: string, d: string, h: string)
    ensures ParseMove(OpObject(Rename(s, d, h))) == Some(Rename(s, d, h))
  {
    TextAt(OpObject(Rename(s, d, h)), 1, s);
    TextAt(OpObject(Rename(s, d, h)), 2, d);
    TextAt(OpObject(Rename(s, d, h)), 3, h);
  }

  lemma DeleteRoundTrip(t: string, g: string)
    ensures ParseDelete(OpObject(DeleteGenerated(t, g))) == Some(DeleteGenerated(t, g))
  {
    TextAt(OpObject(DeleteGenerated(t, g)), 1, t);
    TextAt(OpObject(DeleteGenerated(t, g)), 2, g);
  }

  lemma OpKindsDiffer()
    ensures "create" != "update" && "create" != "move" && "update" != "move"
    ensures "delete_generated" !in ["create", "update", "move"]
  {
    assert "create"[0] == 'c' && "update"[0] == 'u';
    assert |"delete_generated"| == 16 && |"move"| == 4;
  }

  lemma OpRoundTrip(op: AuditOp)
    ensures ParseOp(OpObject(op)) == Some(op)
  {
    OpKindsDiffer();
    match op
    case Create(t, post) => CreateRoundTrip(t, post);
    case Update(t, pre, post) => UpdateRoundTrip(t, pre, post);
    case Rename(s, d, h) => MoveRoundTrip(s, d, h);
    case DeleteGenerated(t, g) => DeleteRoundTrip(t, g);
  }

  lemma {:induction false} OpsRoundTrip(ops: seq<AuditOp>)
    ensures ParseOps(OpArray(ops)) == Some(ops)
  {
    if ops != [] {
      OpsRoundTrip(ops[1..]);
      OpRoundTrip(ops[0]);
      ParseOpsCons(ops[0], OpArray(ops[1..]), ops[1..]);
      assert OpArray(ops) == [Obj(OpObject(ops[0]))] + OpArray(ops[1..]);
      assert ops == [ops[0]] + ops[1..];
    }
  }

  lemma ParseOpsCons(op: AuditOp, items: seq<Json>, rest: seq<AuditOp>)
    requires ParseOp(OpObject(op)) == Some(op) && ParseOps(items) == Some(rest)
    ensures ParseOps([Obj(OpObject(op))] + items) == Some([op] + rest)
  {
    var all := [Obj(OpObject(op))] + items;
    assert all[0] == Obj(OpObject(op)) && all[1..] == items;
  }

  function FieldOf(c: Content, key: Field): Option<Json> {
    match key
    case SchemaVersion => Some(Num(c.schemaVersion))
    case Id => Some(Str(c.id))
    case ProposalId => Some(Str(c.proposalId))
    case ContextId => Some(Str(c.contextId))
    case Timestamp => Some(Str(c.timestamp))
    case ActorField => Some(Who(c.actor))
    case ActionField => Some(Str(c.action))
    case Result => Some(Str(c.result))
    case BaseRevision => Some(Str(c.baseRevision))
    case SourceRefs => Some(Arr(Strings(c.sourceRefs)))
    case AcknowledgedPaths => if c.acknowledged == [] then None else Some(Arr(Strings(c.acknowledged)))
    case Operations => Some(Arr(OpArray(c.operations)))
    case PrevHash => Some(Str(c.prevHash))
    case _ => None
  }

  lemma ContentFieldAt(e: AuditEvent, key: Field)
    requires Rank(key) < 13
    ensures Get(EventData(e), key) == FieldOf(e.content, key)
  {
    var c, d := e.content, EventData(e);
    DataIsRanked(e);
    if Rank(key) < 10 {
      assert d[Rank(key)] == Before(c)[Rank(key)];
      RankedGet(d, Rank(key));
    } else if c.acknowledged == [] {
      if key == AcknowledgedPaths {
        RankedParts(c);
        GetAbsent(d, key);
      } else {
        assert d[Rank(key) - 1] == After(c)[Rank(key) - 11];
        RankedGet(d, Rank(key) - 1);
      }
    } else {
      assert Rank(key) > 10 ==> d[Rank(key)] == After(c)[Rank(key) - 11];
      RankedGet(d, Rank(key));
    }
  }

  lemma EventHashAt(e: AuditEvent)
    ensures Get(EventData(e), EventHash) == Some(Str(e.eventHash))
  {
    DataIsRanked(e);
    RankedGet(EventData(e), |ContentData(e.content)|);
  }

  ghost predicate Carries(fields: Object, c: Content) {
    forall key: Field | Rank(key) < 13 :: Get(fields, key) == FieldOf(c, key)
  }

  lemma ScalarsRead(fields: Object, c: Content)
    requires Get(fields, SchemaVersion) == Some(Num(c.schemaVersion)) && Get(fields, Id) == Some(Str(c.id))
    requires Get(fields, ProposalId) == Some(Str(c.proposalId)) && Get(fields, ContextId) == Some(Str(c.contextId))
    requires Get(fields, Timestamp) == Some(Str(c.timestamp)) && Get(fields, ActorField) == Some(Who(c.actor))
    requires Get(fields, ActionField) == Some(Str(c.action)) && Get(fields, Result) == Some(Str(c.result))
    requires Get(fields, BaseRevision) == Some(Str(c.baseRevision)) && Get(fields, PrevHash) == Some(Str(c.prevHash))
    ensures ParseScalars(fields) == Some(c.(sourceRefs := [], acknowledged := [], operations := []))
  {
  }

  lemma ListsRead(fields: Object, c: Content)
    requires ParseScalars(fields) == Some(c.(sourceRefs := [], acknowledged := [], operations := []))
    requires ArrayOf(fields, SourceRefs) == Some(Strings(c.sourceRefs))
    requires ArrayOf(fields, Operations) == Some(OpArray(c.operations))
    requires ParseAcknowledged(fields) == Some(c.acknowledged)
    ensures ParseContent(fields) == Some(c)
  {
    StringsRoundTrip(c.sourceRefs);
    OpsRoundTrip(c.operations);
  }

  lemma ScalarsCarried(fields: Object, c: Content)
    requires Carries(fields, c)
    ensures ParseScalars(fields) == Some(c.(sourceRefs := [], acknowledged := [], operations := []))
  {
    ScalarsRead(fields, c);
  }

  lemma AcknowledgedCarried(fields: Object, c: Content)
    requires Get(fields, AcknowledgedPaths) == FieldOf(c, AcknowledgedPaths)
    ensures ParseAcknowledged(fields) == Some(c.acknowledged)
  {
    StringsRoundTrip(c.acknowledged);
  }

  lemma ArraysCarried(fields: Object, c: Content)
    requires Carries(fields, c)
    ensures ArrayOf(fields, SourceRefs) == Some(Strings(c.sourceRefs))
    ensures ArrayOf(fields, Operations) == Some(OpArray(c.operations))
    ensures Get(fields, AcknowledgedPaths) == FieldOf(c, AcknowledgedPaths)
  {
  }

  lemma ContentRead(fields: Object, c: Content)
    requires Carries(fields, c)
    ensures ParseContent(fields) == Some(c)
  {
    ScalarsCarried(fields, c);
    ArraysCarried(fields, c);
    AcknowledgedCarried(fields, c);
    ListsRead(fields, c);
  }

  /** Reading canonical data gives the content back, the omitted list as an empty one. */
  lemma ContentRoundTrip(e: AuditEvent)
    ensures ParseContent(EventData(e)) == Some(e.content)
  {
    forall key: Field | Rank(key) < 13 ensures Get(EventData(e), key) == FieldOf(e.content, key) {
      ContentFieldAt(e, key);
    }
    ContentRead(EventData(e), e.content);
  }

  // -------------------------------------------------------------- validation

  const RECOVERY_ACTOR := System("workctx-transaction-recovery")

  function WithoutPrefix(s: string, prefix: string): string {
    if prefix <= s then s[|prefix|..] else s
  }

  predicate NoDuplicates<T(==)>(xs: seq<T>) {
    forall i, j | 0 <= i < j < |xs| :: xs[i] != xs[j]
  }

  predicate DistinctUnder(xs: seq<string>, key: string -> string) {
    forall i, j | 0 <= i < j < |xs| :: key(xs[i]) != key(xs[j])
  }

  function Written(op: AuditOp): Option<string> {
    match op
    case Create(t, _) => Some(t)
    case Update(t, _, _) => Some(t)
    case Rename(_, d, _) => Some(d)
    case DeleteGenerated(_, _) => None
  }

  predicate Writes(ops: seq<AuditOp>, path: string) {
    exists i :: 0 <= i < |ops| && Written(ops[i]) == Some(path)
  }

  /** The producer rules of event content; `key` is the collision key of a path. */
  predicate ValidContent(c: Content, key: string -> string) {
    && c.schemaVersion == 1 && c.operations != []
    && c.action in ["apply", "recovery"] && c.result in ["committed", "rolled_back"]
    && NoDuplicates(c.sourceRefs) && DistinctUnder(c.acknowledged, key)
    && c.id == "AUD-" + WithoutPrefix(c.proposalId, "TXP-")
    && c.baseRevision == c.prevHash
    && (c.action == "recovery" ==>
          c.result == "rolled_back" && c.actor == RECOVERY_ACTOR && c.sourceRefs == [] && c.acknowledged == [])
    && forall i | 0 <= i < |c.acknowledged| :: Writes(c.operations, c.acknowledged[i])
  }

  predicate OnlyDeclared(fields: Object) {
    forall i | 0 <= i < |fields| :: Rank(fields[i].0) < |DECLARED|
  }

  /** Validating an object as an event: unknown fields, the content rules and the hash are all checked. */
  function Validate(fields: Object, hash: Hash, key: string -> string): Option<AuditEvent> {
    if !OnlyDeclared(fields) then None
    else
      var content :- ParseContent(fields);
      var eventHash :- TextOf(fields, EventHash);
      var e := AuditEvent(content, eventHash);
      if ValidContent(content, key) && eventHash == EventHashOf(e, hash) then Some(e) else None
  }

  lemma EventRoundTrip(e: AuditEvent, hash: Hash, key: string -> string)
    ensures Validate(EventData(e), hash, key) ==
            if ValidContent(e.content, key) && e.eventHash == EventHashOf(e, hash) then Some(e) else None
  {
    DataIsRanked(e);
    ContentRoundTrip(e);
    EventHashAt(e);
  }

  /** Sealing: dump the content, set its hash in place and validate the result. */
  function Seal(c: Content, hash: Hash, key: string -> string): Option<AuditEvent> {
    Validate(Set(ContentData(c), EventHash, Str(ContentHashOf(c, hash))), hash, key)
  }

  /** MAIN: sealing succeeds on exactly the valid content, and returns it unchanged with the ledger's hash. */
  lemma SealValidates(c: Content, hash: Hash, key: string -> string)
    ensures Seal(c, hash, key).Some? <==> ValidContent(c, key)
    ensures Seal(c, hash, key).Some? ==>
              && Seal(c, hash, key).value.content == c
              && Seal(c, hash, key).value.eventHash == LedgerHashOf(Seal(c, hash, key).value, hash)
  {
    var e := AuditEvent(c, ContentHashOf(c, hash));
    DataIsRanked(e);
    SetAppends(ContentData(c), EventHash, Str(e.eventHash));
    SameHashOnEveryPath(c, e.eventHash, hash);
    EventRoundTrip(e, hash, key);
  }

  /** Two events with the same canonical data are the same event. */
  lemma EventDataInjective(a: AuditEvent, b: AuditEvent)
    requires EventData(a) == EventData(b)
    ensures a == b
  {
    ContentRoundTrip(a);
    ContentRoundTrip(b);
    EventHashAt(a);
    EventHashAt(b);
  }

  // ------------------------------------------------------------------- chain

  function HeadOf(events: seq<AuditEvent>): Revision {
    if events == [] then ZERO_REVISION else events[|events| - 1].eventHash
  }

  predicate UsesId(events: seq<AuditEvent>, id: string) {
    exists i :: 0 <= i < |events| && events[i].content.id == id
  }

  predicate UsesProposal(events: seq<AuditEvent>, proposal: string) {
    exists i :: 0 <= i < |events| && events[i].content.proposalId == proposal
  }

  /** What the verifier demands of the event that follows `before`. */
  ghost predicate Extends(contextId: string, before: seq<AuditEvent>, e: AuditEvent, hash: Hash,
                          key: string -> string) {
    && ValidContent(e.content, key) && e.eventHash == LedgerHashOf(e, hash)
    && e.content.contextId == contextId && e.content.prevHash == HeadOf(before)
    && !UsesId(before, e.content.id) && !UsesProposal(before, e.content.proposalId)
  }

  ghost predicate ValidChain(contextId: string, events: seq<AuditEvent>, hash: Hash, key: string -> string) {
    forall k | 0 <= k < |events| :: Extends(contextId, events[..k], events[k], hash, key)
  }

  lemma ChainPrefix(contextId: string, events: seq<AuditEvent>, n: nat, hash: Hash, key: string -> string)
    requires ValidChain(contextId, events, hash, key) && n <= |events|
    ensures ValidChain(contextId, events[..n], hash, key)
  {
    forall k | 0 <= k < n ensures Extends(contextId, events[..n][..k], events[..n][k], hash, key) {
      assert events[..n][..k] == events[..k];
    }
  }

  lemma ChainOneMore(contextId: string, events: seq<AuditEvent>, e: AuditEvent, hash: Hash, key: string -> string)
    requires ValidChain(contextId, events, hash, key)
    ensures ValidChain(contextId, events + [e], hash, key) <==> Extends(contextId, events, e, hash, key)
  {
    var longer := events + [e];
    assert longer[..|events|] == events;
    forall k | 0 <= k < |events| ensures Extends(contextId, longer[..k], longer[k], hash, key) {
      assert longer[..k] == events[..k];
    }
  }

  /** What is hashed for this content: its canonical data with an empty hash in last place. */
  function Hashed(c: Content): Object {
    ContentData(c) + [(EventHash, Str(""))]
  }

  /** No collision and no zero revision among the hashed objects of the known contents. */
  ghost predicate CollisionFree(hash: Hash, known: set<Content>) {
    && (forall a, b | a in known && b in known :: hash(Hashed(a)) == hash(Hashed(b)) ==> Hashed(a) == Hashed(b))
    && (forall a | a in known :: hash(Hashed(a)) != ZERO_REVISION)
  }

  ghost predicate Known(events: seq<AuditEvent>, known: set<Content>) {
    forall i | 0 <= i < |events| :: events[i].content in known
  }

  /** Equal hashes mean equal content, the link to the predecessor included. */
  lemma HashDeterminesContent(a: AuditEvent, b: AuditEvent, hash: Hash, known: set<Content>)
    requires CollisionFree(hash, known) && a.content in known && b.content in known
    requires a.eventHash == LedgerHashOf(a, hash) && b.eventHash == LedgerHashOf(b, hash)
    requires a.eventHash == b.eventHash
    ensures a == b
  {
    SameHashOnEveryPath(a.content, a.eventHash, hash);
    SameHashOnEveryPath(b.content, b.eventHash, hash);
    assert Hashed(a.content) == EventData(AuditEvent(a.content, ""))
        && Hashed(b.content) == EventData(AuditEvent(b.content, ""));
    EventDataInjective(AuditEvent(a.content, ""), AuditEvent(b.content, ""));
  }

  lemma OnlyEmptyHasZeroHead(contextId: string, events: seq<AuditEvent>, hash: Hash, key: string -> string,
                             known: set<Content>)
    requires CollisionFree(hash, known) && Known(events, known) && ValidChain(contextId, events, hash, key)
    ensures HeadOf(events) == ZERO_REVISION <==> events == []
  {
    if events != [] {
      var n := |events| - 1;
      assert Extends(contextId, events[..n], events[n], hash, key);
      SameHashOnEveryPath(events[n].content, events[n].eventHash, hash);
    }
  }

  lemma RestoreLast(a: seq<AuditEvent>)
    requires a != []
    ensures a == a[..|a| - 1] + [a[|a| - 1]]
  {
  }

  lemma SameLast(ctxA: string, a: seq<AuditEvent>, ctxB: string, b: seq<AuditEvent>, hash: Hash, key: string -> string,
                 known: set<Content>)
    requires CollisionFree(hash, known) && Known(a, known) && Known(b, known)
    requires ValidChain(ctxA, a, hash, key) && ValidChain(ctxB, b, hash, key)
    requires HeadOf(a) == HeadOf(b)
    ensures a == [] <==> b == []
    ensures a != [] ==> a[|a| - 1] == b[|b| - 1] && HeadOf(a[..|a| - 1]) == HeadOf(b[..|b| - 1])
    ensures a != [] ==> ValidChain(ctxA, a[..|a| - 1], hash, key) && ValidChain(ctxB, b[..|b| - 1], hash, key)
  {
    OnlyEmptyHasZeroHead(ctxA, a, hash, key, known);
    OnlyEmptyHasZeroHead(ctxB, b, hash, key, known);
    if a == [] {
      return;
    }
    var m, n := |a| - 1, |b| - 1;
    assert Extends(ctxA, a[..m], a[m], hash, key) && Extends(ctxB, b[..n], b[n], hash, key);
    HashDeterminesContent(a[m], b[n], hash, known);
    ChainPrefix(ctxA, a, m, hash, key);
    ChainPrefix(ctxB, b, n, hash, key);
  }

  /** MAIN: the head hash pins the whole history. */
  lemma {:induction false} HeadDeterminesHistory(ctxA: string, a: seq<AuditEvent>, ctxB: string, b: seq<AuditEvent>,
                                                 hash: Hash, key: string -> string, known: set<Content>)
    requires CollisionFree(hash, known) && Known(a, known) && Known(b, known)
    requires ValidChain(ctxA, a, hash, key) && ValidChain(ctxB, b, hash, key)
    ensures HeadOf(a) == HeadOf(b) <==> a == b
    decreases |a|
  {
    if HeadOf(a) == HeadOf(b) {
      SameLast(ctxA, a, ctxB, b, hash, key, known);
      if a != [] {
        HeadDeterminesHistory(ctxA, a[..|a| - 1], ctxB, b[..|b| - 1], hash, key, known);
        RestoreLast(a);
        RestoreLast(b);
      }
    }
  }

  // ------------------------------------------------------- verify and replay

  /** The checks on one line: it must be the canonical form of an event that extends the chain so far. */
  method ReadLine(contextId: string, before: seq<AuditEvent>, line: Object, hash: Hash, key: string -> string)
    returns (r: Option<AuditEvent>)
    ensures r.Some? ==> EventData(r.value) == line && Extends(contextId, before, r.value, hash, key)
    ensures r.None? ==> forall e: AuditEvent :: EventData(e) == line ==> !Extends(contextId, before, e, hash, key)
  {
    forall e: AuditEvent | EventData(e) == line && Extends(contextId, before, e, hash, key)
      ensures Validate(line, hash, key) == Some(e)
    {
      EventRoundTrip(e, hash, key);
      SameHashOnEveryPath(e.content, e.eventHash, hash);
    }
    var parsed := Validate(line, hash, key);
    if parsed.None? {
      return None;
    }
    var e := parsed.value;
    if e.content.contextId != contextId || EventData(e) != line || UsesId(before, e.content.id)
       || UsesProposal(before, e.content.proposalId) || e.content.prevHash != HeadOf(before)
       || e.eventHash != LedgerHashOf(e, hash) {
      return None;
    }
    r := Some(e);
  }

  function WithId(events: seq<AuditEvent>, id: string): (r: seq<AuditEvent>)
    ensures r == [] <==> !UsesId(events, id)
  {
    if events == [] then []
    else if events[0].content.id == id then
      assert UsesId(events, id);
      [events[0]] + WithId(events[1..], id)
    else
      assert UsesId(events, id) <==> UsesId(events[1..], id) by {
        if i :| 0 <= i < |events| && events[i].content.id == id {
          assert events[1..][i - 1].content.id == id;
        }
      }
      WithId(events[1..], id)
  }

  function WithProposal(events: seq<AuditEvent>, proposal: string): (r: seq<AuditEvent>)
    ensures r == [] <==> !UsesProposal(events, proposal)
  {
    if events == [] then []
    else if events[0].content.proposalId == proposal then
      assert UsesProposal(events, proposal);
      [events[0]] + WithProposal(events[1..], proposal)
    else
      assert UsesProposal(events, proposal) <==> UsesProposal(events[1..], proposal) by {
        if i :| 0 <= i < |events| && events[i].content.proposalId == proposal {
          assert events[1..][i - 1].content.proposalId == proposal;
        }
      }
      WithProposal(events[1..], proposal)
  }

  datatype Replay = NotRecorded | Recorded | Conflicting

  /** Whether the candidate is already in the ledger, new to it, or re-uses an identity. */
  function MatchingReplay(events: seq<AuditEvent>, candidate: AuditEvent): Replay {
    var byId := WithId(events, candidate.content.id);
    var byProposal := WithProposal(events, candidate.content.proposalId);
    if byId == [] && byProposal == [] then NotRecorded
    else if byId == [candidate] && byProposal == [candidate] then Replay.Recorded
    else Conflicting
  }

  lemma {:induction false} FiltersOfMember(events: seq<AuditEvent>, k: nat)
    requires k < |events|
    requires forall i, j | 0 <= i < j < |events| ::
               events[i].content.id != events[j].content.id
                   && events[i].content.proposalId != events[j].content.proposalId
    ensures WithId(events, events[k].content.id) == [events[k]]
    ensures WithProposal(events, events[k].content.proposalId) == [events[k]]
  {
    if k > 0 {
      FiltersOfMember(events[1..], k - 1);
    } else {
      assert forall i | 0 <= i < |events[1..]| :: events[1..][i] == events[i + 1];
    }
  }

  lemma ChainIdentities(contextId: string, events: seq<AuditEvent>, hash: Hash, key: string -> string)
    requires ValidChain(contextId, events, hash, key)
    ensures forall i, j | 0 <= i < j < |events| ::
              events[i].content.id != events[j].content.id
                  && events[i].content.proposalId != events[j].content.proposalId
  {
    forall i, j | 0 <= i < j < |events|
      ensures events[i].content.id != events[j].content.id
                && events[i].content.proposalId != events[j].content.proposalId
    {
      assert Extends(contextId, events[..j], events[j], hash, key);
      assert events[..j][i] == events[i];
    }
  }

  lemma {:induction false} FilteredIsMember(events: seq<AuditEvent>, id: string, e: AuditEvent)
    requires WithId(events, id) == [e]
    ensures e in events
  {
    if events[0].content.id != id {
      FilteredIsMember(events[1..], id, e);
    } else {
      assert ([events[0]] + WithId(events[1..], id))[0] == e;
    }
  }

  /** In a valid chain the three answers mean what they say. */
  lemma ReplayMeaning(contextId: string, events: seq<AuditEvent>, e: AuditEvent, hash: Hash, key: string -> string)
    requires ValidChain(contextId, events, hash, key)
    ensures MatchingReplay(events, e) == Replay.Recorded <==> e in events
    ensures MatchingReplay(events, e) == NotRecorded <==>
              !UsesId(events, e.content.id) && !UsesProposal(events, e.content.proposalId)
  {
    if e in events {
      var k :| 0 <= k < |events| && events[k] == e;
      ChainIdentities(contextId, events, hash, key);
      FiltersOfMember(events, k);
    }
    if MatchingReplay(events, e) == Replay.Recorded {
      FilteredIsMember(events, e.content.id, e);
    }
  }
}
