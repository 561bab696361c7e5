/**
 Approval-pinned delivery of one draft, as a concurrent step system. Every read and every
 commit of a sender or of a saving writer is its own step, so any number of them interleave
 freely; the remote side acknowledges, refuses or leaves the outcome unknown. `history` lists
 the versions the draft file has had; the last one is its present content.
 */
module OutboxDelivery {
  import opened Options

  datatype Delivery = Delivery(target: string, comment: nat)

  /** One version of the draft: `delivery` is present exactly when the draft is in the sent state. */
  datatype Doc = Doc(body: string, meta: string, delivery: Option<Delivery>)

  datatype Post = Post(body: string, target: string, sender: nat, approved: string)

  /** Content hash and outer hash of the fingerprint. */
  datatype Hashing = Hashing(content: Doc -> string, digest: string -> string)

  /** What every check compares: content hashes, never contents. */
  predicate SameHash(h: Hashing, a: Doc, b: Doc) {
    h.content(a) == h.content(b)
  }

  /** No two different versions of this draft have the same content hash. */
  ghost predicate HashesApart(h: Hashing, history: seq<Doc>) {
    forall i, j | 0 <= i < |history| && 0 <= j < |history| && SameHash(h, history[i], history[j]) ::
        history[i] == history[j]
  }

  function Fingerprinted(h: Hashing, doc: Doc, target: string): string {
    h.content(doc) + "github" + target
  }

  function Fingerprint(h: Hashing, doc: Doc, target: string): string {
    h.digest(Fingerprinted(h, doc, target))
  }

  /** No collision among the known versions and targets; content hashes have their fixed length. */
  ghost predicate Ideal(h: Hashing, known: set<(Doc, string)>) {
    && (forall a | a in known :: |h.content(a.0)| == 71)
    && (forall a, b | a in known && b in known :: h.content(a.0) == h.content(b.0) ==> a.0 == b.0)
    && (forall a, b | a in known && b in known && Fingerprint(h, a.0, a.1) == Fingerprint(h, b.0, b.1) ::
          Fingerprinted(h, a.0, a.1) == Fingerprinted(h, b.0, b.1))
  }

  /** The parts are joined without a separator, yet a fingerprint names one version and one target. */
  lemma FingerprintPins(h: Hashing, known: set<(Doc, string)>, a: Doc, s: string, b: Doc, t: string)
    requires Ideal(h, known) && (a, s) in known && (b, t) in known
    ensures Fingerprint(h, a, s) == Fingerprint(h, b, t) <==> a == b && s == t
  {
    var p, q := (a, s), (b, t);
    assert |h.content(p.0)| == |h.content(q.0)| == 71;
    var x, y := Fingerprinted(h, p.0, p.1), Fingerprinted(h, q.0, q.1);
    assert x[..71] == h.content(a) && y[..71] == h.content(b);
    assert x[77..] == s && y[77..] == t;
  }

  // ------------------------------------------------------------- local state

  /** What `_stable_draft` has read so far, as version numbers of the draft. */
  datatype Phase =
    | Selected
    | HashedBefore(before: nat)
    | DraftRead(before: nat, draft: nat)
    | EntityRead(before: nat, draft: nat, entity: nat)

  datatype Sender =
    | Reading(target: string, approved: string, retried: bool, phase: Phase)
    | Prepared(target: string, approved: string, before: nat, draft: nat, entity: nat, after: nat)
    | Approved(target: string, approved: string, before: nat, draft: nat, entity: nat, after: nat)
    | Posted(target: string, draft: nat, entity: nat, after: nat, comment: nat)
    | Recorded(delivery: Delivery)
    | Sent(delivery: Delivery)
    | AuditError(comment: nat)
    | Failed

  datatype Writer =
    | Creating(doc: Doc)
    | Revising(state: nat, doc: Doc)
    | Hashed(state: nat, hash: nat, doc: Doc)

  datatype State = State(history: seq<Doc>, senders: map<nat, Sender>, writers: map<nat, Writer>, posts: seq<Post>)

  function CommentOf(s: Sender): Option<nat> {
    match s
    case Posted(_, _, _, _, c) => Some(c)
    case Recorded(d) => Some(d.comment)
    case Sent(d) => Some(d.comment)
    case AuditError(c) => Some(c)
    case _ => None
  }

  datatype Step =
    | Start(i: nat, target: string, approved: string)
    | HashBefore(i: nat)
    | ReadDraft(i: nat)
    | ReadEntity(i: nat)
    | HashAfter(i: nat)
    | Check(i: nat)
    | GiveUp(i: nat)
    | Acknowledge(i: nat)
    | Commit(i: nat)
    | CommitFails(i: nat)
    | Confirm(i: nat)
    | ConfirmFails(i: nat)
    | SaveRead(j: nat, doc: Doc)
    | SaveHash(j: nat)
    | SaveCommit(j: nat)
    | SaveFails(j: nat)

  predicate Exists(s: State) {
    |s.history| > 0
  }

  function Now(s: State): nat
    requires Exists(s)
  {
    |s.history| - 1
  }

  function Current(s: State): Doc
    requires Exists(s)
  {
    s.history[|s.history| - 1]
  }

  /** The document a successful delivery writes: read body and frontmatter, now marked as sent. */
  function SentDoc(s: State, p: Sender): Doc
    requires p.Posted? && p.draft < |s.history| && p.entity < |s.history|
  {
    Doc(s.history[p.draft].body, s.history[p.entity].meta, Some(Delivery(p.target, p.comment)))
  }

  predicate InRange(s: State, p: Sender) {
    match p
    case Reading(_, _, _, HashedBefore(b)) => b < |s.history|
    case Reading(_, _, _, DraftRead(b, r)) => b <= r < |s.history|
    case Reading(_, _, _, EntityRead(b, r, e)) => b <= r <= e < |s.history|
    case Prepared(_, _, b, r, e, a) => b <= r <= e <= a < |s.history|
    case Approved(_, _, b, r, e, a) => b <= r <= e <= a < |s.history|
    case Posted(_, r, e, a, _) => r <= e <= a < |s.history|
    case _ => true
  }

  predicate IsLocal(step: Step) {
    || step.HashBefore? || step.ReadDraft? || step.ReadEntity? || step.HashAfter? || step.Check?
    || step.GiveUp? || step.CommitFails? || step.Confirm? || step.ConfirmFails?
  }

  /** The steps that change nothing but the sender itself. */
  function Local(h: Hashing, s: State, step: Step, p: Sender): Option<Sender>
    requires IsLocal(step) && Exists(s) && InRange(s, p)
  {
    match (step, p)
    case (HashBefore(_), Reading(_, _, _, Selected)) => Some(p.(phase := HashedBefore(Now(s))))
    case (ReadDraft(_), Reading(_, _, _, HashedBefore(b))) => Some(p.(phase := DraftRead(b, Now(s))))
    case (ReadEntity(_), Reading(_, _, _, DraftRead(b, r))) => Some(p.(phase := EntityRead(b, r, Now(s))))
    case (HashAfter(_), Reading(target, approved, retried, EntityRead(b, r, e))) =>
      if SameHash(h, s.history[b], Current(s)) && s.history[e].body == s.history[r].body
      then Some(Prepared(target, approved, b, r, e, Now(s)))
      else Some(if retried then Failed else p.(retried := true, phase := Selected))
    case (Check(_), Prepared(target, approved, b, r, e, a)) =>
      if s.history[r].delivery.None? && approved == Fingerprint(h, s.history[a], target)
      then Some(Approved(target, approved, b, r, e, a)) else Some(Failed)
    case (GiveUp(_), _) => if p.Reading? || p.Prepared? || p.Approved? then Some(Failed) else None
    case (CommitFails(_), Posted(_, _, _, _, c)) => Some(AuditError(c))
    case (Confirm(_), Recorded(d)) => Some(if Current(s).delivery == Some(d) then Sent(d) else AuditError(d.comment))
    case (ConfirmFails(_), Recorded(d)) => Some(AuditError(d.comment))
    case (_, _) => None
  }

  predicate IsSender(step: Step) {
    IsLocal(step) || step.Acknowledge? || step.Commit?
  }

  ghost predicate SenderStep(h: Hashing, s: State, step: Step, t: State)
    requires IsSender(step) && step.i in s.senders && Exists(s) && InRange(s, s.senders[step.i])
  {
    var i, p := step.i, s.senders[step.i];
    match step
    case Acknowledge(_) =>
      && p.Approved?
      && t == s.(posts := s.posts + [Post(s.history[p.draft].body, p.target, i, p.approved)],
                 senders := s.senders[i := Posted(p.target, p.draft, p.entity, p.after, |s.posts|)])
    case Commit(_) =>
      && p.Posted? && SameHash(h, Current(s), s.history[p.after])
      && t == s.(history := s.history + [SentDoc(s, p)],
          senders := s.senders[i := Recorded(Delivery(p.target, p.comment))])
    case _ =>
      && Local(h, s, step, p).Some?
      && t == s.(senders := s.senders[i := Local(h, s, step, p).value])
  }

  predicate WriterInRange(s: State, w: Writer) {
    match w
    case Creating(_) => true
    case Revising(k, _) => k < |s.history|
    case Hashed(k, e, _) => k <= e < |s.history|
  }

  ghost predicate WriterStep(h: Hashing, s: State, step: Step, t: State)
    requires step.SaveRead? || step.SaveHash? || step.SaveCommit? || step.SaveFails?
    requires step.j in s.writers ==> WriterInRange(s, s.writers[step.j])
  {
    match step
    case SaveRead(j, doc) =>
      && j !in s.writers && doc.delivery.None? && (Exists(s) ==> Current(s).delivery.None?)
      && t == s.(writers := s.writers[j := if Exists(s) then Revising(Now(s), doc) else Creating(doc)])
    case SaveHash(j) =>
      && j in s.writers && s.writers[j].Revising?
      && t == s.(writers := s.writers[j := Hashed(s.writers[j].state, Now(s), s.writers[j].doc)])
    case SaveCommit(j) =>
      && j in s.writers
      && (match s.writers[j]
          case Creating(_) => !Exists(s)
          case Hashed(_, e, _) => SameHash(h, Current(s), s.history[e])
          case Revising(_, _) => false)
      && t == s.(history := s.history + [s.writers[j].doc], writers := s.writers - {j})
    case SaveFails(j) => j in s.writers && t == s.(writers := s.writers - {j})
  }

  ghost predicate Next(h: Hashing, s: State, step: Step, t: State) {
    match step
    case Start(i, target, approved) =>
      i !in s.senders && Exists(s) && t == s.(senders := s.senders[i := Reading(target, approved, false, Selected)])
    case SaveRead(j, _) => (j in s.writers ==> WriterInRange(s, s.writers[j])) && WriterStep(h, s, step, t)
    case SaveHash(j) => (j in s.writers ==> WriterInRange(s, s.writers[j])) && WriterStep(h, s, step, t)
    case SaveCommit(j) => (j in s.writers ==> WriterInRange(s, s.writers[j])) && WriterStep(h, s, step, t)
    case SaveFails(j) => (j in s.writers ==> WriterInRange(s, s.writers[j])) && WriterStep(h, s, step, t)
    case _ =>
      && IsSender(step) && step.i in s.senders && Exists(s) && InRange(s, s.senders[step.i])
      && SenderStep(h, s, step, t)
  }

  // --------------------------------------------------- always true, any writers

  ghost predicate HistoryGrows(s: State, t: State) {
    |s.history| <= |t.history| && t.history[..|s.history|] == s.history
  }

  /** Acknowledged comments and the senders that carry them correspond one to one. */
  ghost predicate Accounted(s: State) {
    && (forall c | 0 <= c < |s.posts| ::
        s.posts[c].sender in s.senders && CommentOf(s.senders[s.posts[c].sender]) == Some(c))
    && (forall i | i in s.senders && CommentOf(s.senders[i]).Some? ::
          CommentOf(s.senders[i]).value < |s.posts| && s.posts[CommentOf(s.senders[i]).value].sender == i)
  }

  ghost predicate AllInRange(s: State) {
    && (forall i | i in s.senders :: InRange(s, s.senders[i]))
    && (forall j | j in s.writers :: WriterInRange(s, s.writers[j]))
  }

  function Carriers(s: State): set<nat> {
    set i | i in s.senders && CommentOf(s.senders[i]).Some?
  }

  lemma LocalStaysInRange(h: Hashing, s: State, step: Step, p: Sender)
    requires IsLocal(step) && Exists(s) && InRange(s, p) && Local(h, s, step, p).Some?
    ensures InRange(s, Local(h, s, step, p).value) && CommentOf(Local(h, s, step, p).value) == CommentOf(p)
  {
  }

  lemma LongerHistory(s: State, t: State)
    requires HistoryGrows(s, t)
    ensures forall p | InRange(s, p) :: InRange(t, p)
    ensures forall w | WriterInRange(s, w) :: WriterInRange(t, w)
    ensures forall k | 0 <= k < |s.history| :: t.history[k] == s.history[k]
  {
    assert forall k | 0 <= k < |s.history| :: t.history[k] == t.history[..|s.history|][k];
  }

  lemma LocalStepInRange(h: Hashing, s: State, step: Step, t: State)
    requires AllInRange(s) && Next(h, s, step, t) && IsLocal(step)
    ensures AllInRange(t) && HistoryGrows(s, t)
  {
    var q := Local(h, s, step, s.senders[step.i]).value;
    LocalStaysInRange(h, s, step, s.senders[step.i]);
    assert t.history == s.history && t.senders == s.senders[step.i := q];
  }

  lemma SenderStepInRange(h: Hashing, s: State, step: Step, t: State)
    requires AllInRange(s) && Next(h, s, step, t) && (step.Acknowledge? || step.Commit?)
    ensures AllInRange(t) && HistoryGrows(s, t)
  {
    LongerHistory(s, t);
  }

  lemma OtherStepInRange(h: Hashing, s: State, step: Step, t: State)
    requires AllInRange(s) && Next(h, s, step, t) && !IsSender(step)
    ensures AllInRange(t) && HistoryGrows(s, t)
  {
    LongerHistory(s, t);
  }

  lemma StepKeepsRange(h: Hashing, s: State, step: Step, t: State)
    requires AllInRange(s) && Next(h, s, step, t)
    ensures AllInRange(t) && HistoryGrows(s, t)
  {
    if IsLocal(step) {
      LocalStepInRange(h, s, step, t);
    } else if IsSender(step) {
      SenderStepInRange(h, s, step, t);
    } else {
      OtherStepInRange(h, s, step, t);
    }
  }

  /** Every step except an acknowledgement moves one sender or writer and leaves the carriers alone. */
  lemma LocalStepKeepsAccounts(s: State, t: State, i: nat, q: Sender)
    requires Accounted(s) && i in s.senders && t.posts == s.posts && t.senders == s.senders[i := q]
    requires CommentOf(q) == CommentOf(s.senders[i])
    ensures Accounted(t) && Carriers(t) == Carriers(s)
  {
  }

  lemma AcknowledgeKeepsAccounts(s: State, t: State, i: nat, q: Sender, post: Post)
    requires Accounted(s) && i in s.senders && CommentOf(s.senders[i]).None? && |Carriers(s)| == |s.posts|
    requires t.posts == s.posts + [post] && post.sender == i
    requires t.senders == s.senders[i := q] && CommentOf(q) == Some(|s.posts|)
    ensures Accounted(t) && |Carriers(t)| == |t.posts|
  {
    OneMoreCarrier(s, t, i, q);
    forall c | 0 <= c < |t.posts|
      ensures t.posts[c].sender in t.senders && CommentOf(t.senders[t.posts[c].sender]) == Some(c)
    {
      if c < |s.posts| {
        assert t.posts[c] == s.posts[c];
        assert CommentOf(s.senders[s.posts[c].sender]) == Some(c);
      }
    }
  }

  lemma OneMoreCarrier(s: State, t: State, i: nat, q: Sender)
    requires i in s.senders && CommentOf(s.senders[i]).None? && t.senders == s.senders[i := q] && CommentOf(q).Some?
    ensures |Carriers(t)| == |Carriers(s)| + 1
  {
    assert Carriers(t) == Carriers(s) + {i};
    assert i !in Carriers(s);
  }

  lemma StepKeepsAccounts(h: Hashing, s: State, step: Step, t: State)
    requires Accounted(s) && |Carriers(s)| == |s.posts| && Next(h, s, step, t)
    ensures Accounted(t) && |Carriers(t)| == |t.posts|
  {
    if IsLocal(step) {
      LocalStaysInRange(h, s, step, s.senders[step.i]);
    }
    if step.Acknowledge? {
      AcknowledgeKeepsAccounts(s, t, step.i, t.senders[step.i], t.posts[|s.posts|]);
    } else if IsSender(step) {
      LocalStepKeepsAccounts(s, t, step.i, t.senders[step.i]);
    } else {
      assert Carriers(t) == Carriers(s);
    }
  }

  // ------------------------------------------- what the approval was given for

  ghost predicate TracedBy(h: Hashing, s: State, p: Post, b: nat, r: nat, a: nat) {
    && b <= r <= a < |s.history| && SameHash(h, s.history[b], s.history[a])
    && p.body == s.history[r].body && p.approved == Fingerprint(h, s.history[a], p.target)
  }

  /** The posted body was read between two readings of the same content, whose fingerprint was approved. */
  ghost predicate Traced(h: Hashing, s: State, p: Post) {
    exists b: nat, r: nat, a: nat :: TracedBy(h, s, p, b, r, a)
  }

  ghost predicate SenderPinned(h: Hashing, s: State, p: Sender)
    requires InRange(s, p)
  {
    match p
    case Prepared(_, _, b, _, _, a) => SameHash(h, s.history[b], s.history[a])
    case Approved(target, approved, b, r, _, a) =>
      SameHash(h, s.history[b], s.history[a]) && approved == Fingerprint(h, s.history[a], target)
    case _ => true
  }

  ghost predicate Pinned(h: Hashing, s: State) {
    && AllInRange(s)
    && (forall i | i in s.senders :: SenderPinned(h, s, s.senders[i]))
    && (forall c | 0 <= c < |s.posts| :: Traced(h, s, s.posts[c]))
  }

  lemma StillTraced(h: Hashing, s: State, t: State, p: Post)
    requires HistoryGrows(s, t) && Traced(h, s, p)
    ensures Traced(h, t, p)
  {
    var b: nat, r: nat, a: nat :| TracedBy(h, s, p, b, r, a);
    assert forall k | 0 <= k < |s.history| :: t.history[k] == t.history[..|s.history|][k] == s.history[k];
    assert TracedBy(h, t, p, b, r, a);
  }

  lemma StillPinned(h: Hashing, s: State, t: State, p: Sender)
    requires HistoryGrows(s, t) && InRange(s, p) && SenderPinned(h, s, p)
    ensures InRange(t, p) && SenderPinned(h, t, p)
  {
    assert forall k | 0 <= k < |s.history| :: t.history[k] == t.history[..|s.history|][k] == s.history[k];
  }

  lemma LocalStaysPinned(h: Hashing, s: State, step: Step, p: Sender)
    requires IsLocal(step) && Exists(s) && InRange(s, p) && Local(h, s, step, p).Some? && SenderPinned(h, s, p)
    ensures InRange(s, Local(h, s, step, p).value) && SenderPinned(h, s, Local(h, s, step, p).value)
  {
    LocalStaysInRange(h, s, step, p);
  }

  lemma SendersStayPinned(h: Hashing, s: State, step: Step, t: State)
    requires Pinned(h, s) && Next(h, s, step, t) && AllInRange(t) && HistoryGrows(s, t)
    ensures forall i | i in t.senders :: SenderPinned(h, t, t.senders[i])
  {
    forall i | i in t.senders ensures SenderPinned(h, t, t.senders[i]) {
      if IsLocal(step) && i == step.i {
        LocalStaysPinned(h, s, step, s.senders[i]);
      } else if i in s.senders && t.senders[i] == s.senders[i] {
        StillPinned(h, s, t, s.senders[i]);
      }
    }
  }

  lemma StepKeepsPins(h: Hashing, s: State, step: Step, t: State)
    requires Pinned(h, s) && Next(h, s, step, t)
    ensures Pinned(h, t)
  {
    StepKeepsRange(h, s, step, t);
    SendersStayPinned(h, s, step, t);
    forall c | 0 <= c < |t.posts| ensures Traced(h, t, t.posts[c]) {
      if c < |s.posts| {
        StillTraced(h, s, t, s.posts[c]);
      } else {
        var p := s.senders[step.i];
        assert SenderPinned(h, s, p);
        assert TracedBy(h, t, t.posts[c], p.before, p.draft, p.after);
      }
    }
  }

  /** The approved version was current before and after a version with another body. */
  ghost predicate CameBack(history: seq<Doc>, doc: Doc) {
    exists i, k, j :: 0 <= i < k < j < |history| && history[i] == doc && history[j] == doc
        && history[k].body != doc.body
  }

  /** MAIN: the posted body is the approved version's body, unless that version came back around another body. */
  lemma PostedBodyIsApproved(h: Hashing, s: State, c: nat, doc: Doc, target: string, known: set<(Doc, string)>)
    requires Pinned(h, s) && c < |s.posts|
    requires Ideal(h, known) && (doc, target) in known && forall v | v in s.history :: (v, s.posts[c].target) in known
    requires s.posts[c].approved == Fingerprint(h, doc, target)
    ensures s.posts[c].target == target && doc in s.history
    ensures s.posts[c].body == doc.body || CameBack(s.history, doc)
  {
    var p := s.posts[c];
    assert Traced(h, s, p);
    var b: nat, r: nat, a: nat :| TracedBy(h, s, p, b, r, a);
    FingerprintPins(h, known, s.history[a], p.target, doc, target);
    var first, last := (s.history[b], p.target), (s.history[a], p.target);
    assert first in known && last in known && h.content(first.0) == h.content(last.0);
  }

  // --------------------------------------------------- once sent, always sent

  /** A save is written whose hash was read from a sent version, although its state was read unsent. */
  predicate Unsends(s: State, step: Step) {
    && step.SaveCommit? && step.j in s.writers && s.writers[step.j].Hashed?
    && s.writers[step.j].hash < |s.history| && s.history[s.writers[step.j].hash].delivery.Some?
  }

  ghost predicate SentForever(history: seq<Doc>) {
    forall i, j | 0 <= i < j < |history| && history[i].delivery.Some? :: history[j].delivery == history[i].delivery
  }

  ghost predicate WriterSafe(s: State, w: Writer)
    requires WriterInRange(s, w)
  {
    && w.doc.delivery.None?
    && match w
       case Creating(_) => true
       case Revising(k, _) => s.history[k].delivery.None?
       case Hashed(k, _, _) => s.history[k].delivery.None?
  }

  ghost predicate SenderSafe(s: State, p: Sender)
    requires InRange(s, p)
  {
    match p
    case Prepared(_, _, b, _, _, a) => s.history[b] == s.history[a]
    case Approved(_, _, _, _, _, a) => s.history[a].delivery.None?
    case Posted(_, _, _, a, _) => s.history[a].delivery.None?
    case Recorded(d) => Exists(s) && Current(s).delivery == Some(d)
    case Sent(d) => Exists(s) && Current(s).delivery == Some(d)
    case _ => true
  }

  ghost predicate Safe(s: State) {
    && AllInRange(s) && SentForever(s.history)
    && (forall i | i in s.senders :: SenderSafe(s, s.senders[i]))
    && (forall j | j in s.writers :: WriterSafe(s, s.writers[j]))
  }

  lemma SentPropagates(history: seq<Doc>, i: nat, j: nat)
    requires SentForever(history) && i <= j < |history|
    ensures history[i].delivery.Some? ==> history[j].delivery == history[i].delivery
  {
  }

  lemma LocalStaysSafe(h: Hashing, s: State, step: Step, p: Sender)
    requires IsLocal(step) && Exists(s) && InRange(s, p) && Local(h, s, step, p).Some?
    requires SenderSafe(s, p) && SentForever(s.history) && HashesApart(h, s.history)
    ensures InRange(s, Local(h, s, step, p).value) && SenderSafe(s, Local(h, s, step, p).value)
  {
    LocalStaysInRange(h, s, step, p);
    if step.Check? && p.Prepared? {
      SentPropagates(s.history, p.before, p.draft);
    }
  }

  /** A new version is only ever written over an unsent one. */
  lemma AppendStaysSafe(s: State, t: State, doc: Doc)
    requires Safe(s) && (Exists(s) ==> Current(s).delivery.None?) && t.history == s.history + [doc]
    ensures SentForever(t.history)
    ensures forall p | InRange(s, p) && SenderSafe(s, p) :: InRange(t, p) && SenderSafe(t, p)
    ensures forall w | WriterInRange(s, w) && WriterSafe(s, w) :: WriterInRange(t, w) && WriterSafe(t, w)
  {
    forall i | 0 <= i < |s.history| ensures s.history[i].delivery.None? {
      SentPropagates(s.history, i, Now(s));
    }
    assert forall k | 0 <= k < |s.history| :: t.history[k] == s.history[k];
  }

  lemma OneSenderStaysSafe(s: State, t: State, i: nat, q: Sender)
    requires Safe(s) && t.history == s.history && t.writers == s.writers && t.senders == s.senders[i := q]
    requires InRange(t, q) && SenderSafe(t, q)
    ensures Safe(t)
  {
    forall k | k in t.senders ensures InRange(t, t.senders[k]) && SenderSafe(t, t.senders[k]) {
      assert k == i || (k in s.senders && t.senders[k] == s.senders[k]);
    }
  }

  lemma CommitStaysSafe(h: Hashing, s: State, step: Step, t: State)
    requires HashesApart(h, s.history) && Safe(s) && Next(h, s, step, t) && step.Commit?
    ensures Safe(t)
  {
    var p := s.senders[step.i];
    assert SenderSafe(s, p);
    AppendStaysSafe(s, t, SentDoc(s, p));
  }

  lemma SenderStepStaysSafe(h: Hashing, s: State, step: Step, t: State)
    requires HashesApart(h, s.history) && Safe(s) && Next(h, s, step, t) && IsSender(step)
    ensures Safe(t)
  {
    if step.Commit? {
      CommitStaysSafe(h, s, step, t);
    } else {
      var p := s.senders[step.i];
      if IsLocal(step) {
        LocalStaysSafe(h, s, step, p);
      }
      OneSenderStaysSafe(s, t, step.i, t.senders[step.i]);
    }
  }

  lemma WriterStepStaysSafe(h: Hashing, s: State, step: Step, t: State)
    requires HashesApart(h, s.history) && Safe(s) && Next(h, s, step, t) && !IsSender(step) && !Unsends(s, step)
    ensures Safe(t)
  {
    StepKeepsRange(h, s, step, t);
    if step.SaveCommit? {
      assert WriterSafe(s, s.writers[step.j]);
      AppendStaysSafe(s, t, s.writers[step.j].doc);
    }
    if step.SaveHash? {
      assert WriterSafe(s, s.writers[step.j]);
    }
  }

  lemma SameCommentSameSender(s: State, i: nat, j: nat)
    requires Accounted(s) && i in s.senders && j in s.senders
    requires CommentOf(s.senders[i]).Some? && CommentOf(s.senders[i]) == CommentOf(s.senders[j])
    ensures i == j
  {
  }

  /** At most one sender is told that it sent the draft. */
  lemma OneSender(s: State, i: nat, j: nat)
    requires Safe(s) && Accounted(s) && i in s.senders && j in s.senders && s.senders[i].Sent? && s.senders[j].Sent?
    ensures i == j
  {
    assert SenderSafe(s, s.senders[i]) && SenderSafe(s, s.senders[j]);
    SameCommentSameSender(s, i, j);
  }

  // ------------------------------------------------------------- whole runs

  ghost predicate Advances(h: Hashing, states: seq<State>, steps: seq<Step>, k: nat)
    requires |states| == |steps| + 1 && k < |steps|
  {
    Next(h, states[k], steps[k], states[k + 1])
  }

  ghost predicate IsHistory(h: Hashing, states: seq<State>, steps: seq<Step>) {
    && |states| == |steps| + 1 && states[0] == State([], map[], map[], [])
    && forall k | 0 <= k < |steps| :: Advances(h, states, steps, k)
  }

  ghost predicate NothingUnsent(states: seq<State>, steps: seq<Step>, n: nat)
    requires |states| == |steps| + 1 && n < |states|
  {
    forall k | 0 <= k < n :: !Unsends(states[k], steps[k])
  }

  lemma {:induction false} AlwaysPinned(h: Hashing, states: seq<State>, steps: seq<Step>, n: nat)
    requires IsHistory(h, states, steps) && n < |states|
    ensures Pinned(h, states[n]) && Accounted(states[n]) && |Carriers(states[n])| == |states[n].posts|
  {
    if n > 0 {
      AlwaysPinned(h, states, steps, n - 1);
      assert Advances(h, states, steps, n - 1);
      StepKeepsPins(h, states[n - 1], steps[n - 1], states[n]);
      StepKeepsAccounts(h, states[n - 1], steps[n - 1], states[n]);
    } else {
      assert Carriers(states[0]) == {};
    }
  }

  lemma EarlierHashesApart(h: Hashing, s: State, step: Step, t: State)
    requires Next(h, s, step, t) && HashesApart(h, t.history)
    ensures HashesApart(h, s.history)
  {
    assert forall k | 0 <= k < |s.history| :: t.history[k] == s.history[k];
  }

  lemma {:induction false} AlwaysSafe(h: Hashing, states: seq<State>, steps: seq<Step>, n: nat)
    requires IsHistory(h, states, steps) && n < |states|
    requires NothingUnsent(states, steps, n) && HashesApart(h, states[n].history)
    ensures Safe(states[n])
  {
    if n > 0 {
      assert Advances(h, states, steps, n - 1);
      EarlierHashesApart(h, states[n - 1], steps[n - 1], states[n]);
      AlwaysSafe(h, states, steps, n - 1);
      if IsSender(steps[n - 1]) {
        SenderStepStaysSafe(h, states[n - 1], steps[n - 1], states[n]);
      } else {
        WriterStepStaysSafe(h, states[n - 1], steps[n - 1], states[n]);
      }
    }
  }

  function Tellers(s: State): set<nat> {
    set i | i in s.senders && s.senders[i].Sent?
  }

  function Auditors(s: State): set<nat> {
    set i | i in s.senders && s.senders[i].AuditError?
  }

  function InFlight(s: State): set<nat> {
    set i | i in s.senders && (s.senders[i].Posted? || s.senders[i].Recorded?)
  }

  lemma CarriersSplit(s: State)
    ensures |Carriers(s)| == |Tellers(s)| + |Auditors(s)| + |InFlight(s)|
  {
    assert Carriers(s) == Tellers(s) + Auditors(s) + InFlight(s);
    assert |Tellers(s) + Auditors(s)| == |Tellers(s)| + |Auditors(s)|;
  }

  lemma AtMostOneTeller(s: State)
    requires Safe(s) && Accounted(s)
    ensures |Tellers(s)| <= 1
  {
    if i :| i in Tellers(s) {
      forall j | j in Tellers(s) ensures j == i {
        OneSender(s, i, j);
      }
      assert Tellers(s) == {i};
    }
  }

  /** Whatever the interleaving, a save carries no delivery and has read an unsent state. */
  ghost predicate WritersSafe(s: State) {
    AllInRange(s) && forall j | j in s.writers :: WriterSafe(s, s.writers[j])
  }

  lemma StepKeepsWriters(h: Hashing, s: State, step: Step, t: State)
    requires WritersSafe(s) && Next(h, s, step, t)
    ensures WritersSafe(t)
  {
    StepKeepsRange(h, s, step, t);
    LongerHistory(s, t);
    forall j | j in t.writers ensures WriterSafe(t, t.writers[j]) {
      if j in s.writers {
        assert WriterSafe(s, s.writers[j]);
      }
    }
  }

  lemma {:induction false} AlwaysWriters(h: Hashing, states: seq<State>, steps: seq<Step>, n: nat)
    requires IsHistory(h, states, steps) && n < |states|
    ensures WritersSafe(states[n])
  {
    if n > 0 {
      AlwaysWriters(h, states, steps, n - 1);
      assert Advances(h, states, steps, n - 1);
      StepKeepsWriters(h, states[n - 1], steps[n - 1], states[n]);
    }
  }

  lemma {:induction false} HistoriesGrow(h: Hashing, states: seq<State>, steps: seq<Step>, k: nat, n: nat)
    requires IsHistory(h, states, steps) && k <= n < |states|
    ensures HistoryGrows(states[k], states[n])
    decreases n - k
  {
    if k < n {
      HistoriesGrow(h, states, steps, k, n - 1);
      assert Advances(h, states, steps, n - 1);
      AlwaysPinned(h, states, steps, n - 1);
      StepKeepsRange(h, states[n - 1], steps[n - 1], states[n]);
      GrowsTrans(states[k], states[n - 1], states[n]);
    }
  }

  lemma GrowsTrans(a: State, b: State, c: State)
    requires HistoryGrows(a, b) && HistoryGrows(b, c)
    ensures HistoryGrows(a, c)
  {
    assert c.history[..|a.history|] == c.history[..|b.history|][..|a.history|];
  }

  /** The save overwrites a sent version, because the hash it checks is a sent version's. */
  lemma UnsendingStep(h: Hashing, s: State, step: Step, t: State)
    requires WritersSafe(s) && Next(h, s, step, t) && HashesApart(h, s.history) && Unsends(s, step)
    ensures Exists(s) && Current(s).delivery.Some? && |t.history| == |s.history| + 1 && HistoryGrows(s, t)
    ensures Current(t).delivery.None?
  {
    StepKeepsRange(h, s, step, t);
    assert WriterSafe(s, s.writers[step.j]);
    assert SameHash(h, Current(s), s.history[s.writers[step.j].hash]);
  }

  /** A sent version followed by an unsent one stays in the history for good. */
  lemma UnsentLater(h: Hashing, states: seq<State>, steps: seq<Step>, k: nat, n: nat)
    requires IsHistory(h, states, steps) && k < n < |states| && HashesApart(h, states[n].history)
    requires Unsends(states[k], steps[k])
    ensures !SentForever(states[n].history)
  {
    var s, t, u := states[k], states[k + 1], states[n];
    HistoriesGrow(h, states, steps, k, n);
    HistoriesGrow(h, states, steps, k + 1, n);
    LongerHistory(s, u);
    LongerHistory(t, u);
    assert Advances(h, states, steps, k);
    AlwaysWriters(h, states, steps, k);
    UnsendingStep(h, s, steps[k], t);
    assert t.history[Now(s)] == t.history[..|s.history|][Now(s)];
    assert u.history[Now(s)].delivery.Some? && u.history[Now(t)].delivery.None?;
  }

  /**
   MAIN: over every run, a sent draft stays sent with the same delivery exactly when no save is
   written whose hash was read from a sent version.
   */
  lemma SentForeverExactly(h: Hashing, states: seq<State>, steps: seq<Step>, n: nat)
    requires IsHistory(h, states, steps) && n < |states| && HashesApart(h, states[n].history)
    ensures SentForever(states[n].history) <==> NothingUnsent(states, steps, n)
  {
    if NothingUnsent(states, steps, n) {
      AlwaysSafe(h, states, steps, n);
    } else {
      var k :| 0 <= k < n && Unsends(states[k], steps[k]);
      UnsentLater(h, states, steps, k, n);
    }
  }

  /**
   MAIN: in every interleaving, each acknowledged comment is a send result, an audit error or still
   in flight, one sender each. As long as no save un-sends the draft, at most one send result exists.
   */
  lemma DeliveryAccounting(h: Hashing, states: seq<State>, steps: seq<Step>, n: nat)
    requires IsHistory(h, states, steps) && n < |states|
    ensures |states[n].posts| == |Tellers(states[n])| + |Auditors(states[n])| + |InFlight(states[n])|
    ensures HashesApart(h, states[n].history) && SentForever(states[n].history) ==> |Tellers(states[n])| <= 1
  {
    AlwaysPinned(h, states, steps, n);
    CarriersSplit(states[n]);
    if HashesApart(h, states[n].history) && SentForever(states[n].history) {
      SentForeverExactly(h, states, steps, n);
      AlwaysSafe(h, states, steps, n);
      AtMostOneTeller(states[n]);
    }
  }

  // -------------------------------------------------- saves that read atomically

  /** The two reads of one save see the same version of the draft. */
  ghost predicate AtomicRead(s: State, step: Step) {
    step.SaveHash? && step.j in s.writers && s.writers[step.j].Revising? && Exists(s) ==>
        s.writers[step.j].state == Now(s)
  }

  ghost predicate SavesAtomic(s: State) {
    forall j | j in s.writers && s.writers[j].Hashed? :: s.writers[j].hash == s.writers[j].state
  }

  lemma {:induction false} AlwaysAtomic(h: Hashing, states: seq<State>, steps: seq<Step>, n: nat)
    requires IsHistory(h, states, steps) && n < |states|
    requires forall k | 0 <= k < n :: AtomicRead(states[k], steps[k])
    ensures SavesAtomic(states[n])
  {
    if n > 0 {
      AlwaysAtomic(h, states, steps, n - 1);
      assert Advances(h, states, steps, n - 1) && AtomicRead(states[n - 1], steps[n - 1]);
      AlwaysWriters(h, states, steps, n - 1);
    }
  }

  /** Reading state and hash together would be enough: no save could then un-send a draft. */
  lemma AtomicSavesNeverUnsend(h: Hashing, states: seq<State>, steps: seq<Step>, n: nat)
    requires IsHistory(h, states, steps) && n < |states|
    requires forall k | 0 <= k < n :: AtomicRead(states[k], steps[k])
    ensures NothingUnsent(states, steps, n)
  {
    forall k | 0 <= k < n ensures !Unsends(states[k], steps[k]) {
      AlwaysAtomic(h, states, steps, k);
      AlwaysWriters(h, states, steps, k);
    }
  }

  // ------------------------------------------------------- the two races

  ghost predicate Runs(h: Hashing, states: seq<State>, steps: seq<Step>, s: State) {
    IsHistory(h, states, steps) && states[|states| - 1] == s
  }

  ghost predicate Reachable(h: Hashing, s: State) {
    exists states: seq<State>, steps: seq<Step> :: Runs(h, states, steps, s)
  }

  lemma ReachableOneMore(h: Hashing, s: State, step: Step, t: State)
    requires Reachable(h, s) && Next(h, s, step, t)
    ensures Reachable(h, t)
  {
    var states: seq<State>, steps: seq<Step> :| Runs(h, states, steps, s);
    var states', steps' := states + [t], steps + [step];
    forall k | 0 <= k < |steps'| ensures Advances(h, states', steps', k) {
      if k < |steps| {
        assert Advances(h, states, steps, k);
      }
    }
    assert Runs(h, states', steps', t);
  }

  lemma Created(h: Hashing, doc: Doc) returns (s: State)
    requires doc.delivery.None?
    ensures Reachable(h, s) && s == State([doc], map[], map[], [])
  {
    var start := State([], map[], map[], []);
    assert Runs(h, [start], [], start);
    var reading := start.(writers := map[0 := Creating(doc)]);
    ReachableOneMore(h, start, SaveRead(0, doc), reading);
    s := State([doc], map[], map[], []);
    assert reading.writers - {0} == map[] && [] + [doc] == [doc];
    ReachableOneMore(h, reading, SaveCommit(0), s);
  }

  /** One save whose reads nothing comes between. */
  lemma Saved(h: Hashing, s: State, doc: Doc) returns (t: State)
    requires Reachable(h, s) && Exists(s) && Current(s).delivery.None? && doc.delivery.None? && s.writers == map[]
    ensures Reachable(h, t) && t == s.(history := s.history + [doc])
  {
    var k := Now(s);
    var read := s.(writers := map[0 := Revising(k, doc)]);
    ReachableOneMore(h, s, SaveRead(0, doc), read);
    var hashed := s.(writers := map[0 := Hashed(k, k, doc)]);
    assert read.writers[0 := Hashed(k, k, doc)] == hashed.writers;
    ReachableOneMore(h, read, SaveHash(0), hashed);
    t := s.(history := s.history + [doc]);
    assert hashed.writers - {0} == map[];
    ReachableOneMore(h, hashed, SaveCommit(0), t);
  }

  lemma SenderMoves(h: Hashing, s: State, step: Step, p: Sender, q: Sender) returns (t: State)
    requires Reachable(h, s) && IsLocal(step) && step.i in s.senders && s.senders[step.i] == p
    requires Exists(s) && InRange(s, p) && Local(h, s, step, p) == Some(q)
    ensures Reachable(h, t) && t == s.(senders := s.senders[step.i := q])
  {
    t := s.(senders := s.senders[step.i := q]);
    ReachableOneMore(h, s, step, t);
  }

  ghost predicate Unsent(history: seq<Doc>) {
    forall i | 0 <= i < |history| :: history[i].delivery.None?
  }

  /** Saves nothing comes between carry the draft from its present version to the `n`-th one. */
  lemma {:induction false} SavedUpTo(h: Hashing, s: State, history: seq<Doc>, n: nat) returns (t: State)
    requires Reachable(h, s) && s.writers == map[] && Unsent(history)
    requires 0 < |s.history| <= n <= |history| && s.history == history[..|s.history|]
    ensures Reachable(h, t) && t == s.(history := history[..n])
    decreases n
  {
    if n == |s.history| {
      t := s;
    } else {
      t := SavedUpTo(h, s, history, n - 1);
      assert Current(t) == history[n - 2];
      t := Saved(h, t, history[n - 1]);
      assert history[..n - 1] + [history[n - 1]] == history[..n];
    }
  }

  ghost predicate OneSenderAt(h: Hashing, s: State, history: seq<Doc>, n: nat, p: Sender) {
    Reachable(h, s) && n <= |history| && s == State(history[..n], map[0 := p], map[], [])
  }

  /** The only sender takes a step of its own. */
  lemma OneSenderMoves(h: Hashing, s: State, history: seq<Doc>, n: nat, step: Step, p: Sender, q: Sender)
    returns (t: State)
    requires OneSenderAt(h, s, history, n, p) && IsLocal(step) && step.i == 0
    requires Exists(s) && InRange(s, p) && Local(h, s, step, p) == Some(q)
    ensures OneSenderAt(h, t, history, n, q)
  {
    t := SenderMoves(h, s, step, p, q);
    assert s.senders[0 := q] == map[0 := q];
  }

  lemma OneSenderWaits(h: Hashing, s: State, history: seq<Doc>, m: nat, n: nat, p: Sender) returns (t: State)
    requires OneSenderAt(h, s, history, m, p) && 0 < m <= n <= |history| && Unsent(history)
    ensures OneSenderAt(h, t, history, n, p)
  {
    t := SavedUpTo(h, s, history, n);
  }

  lemma SenderStarted(h: Hashing, history: seq<Doc>, n: nat, target: string, fp: string) returns (t: State)
    requires 0 < n <= |history| && Unsent(history)
    ensures OneSenderAt(h, t, history, n, Reading(target, fp, false, Selected))
  {
    var s := Created(h, history[0]);
    assert history[..1] == [history[0]];
    s := SavedUpTo(h, s, history, n);
    t := s.(senders := map[0 := Reading(target, fp, false, Selected)]);
    assert s.senders[0 := Reading(target, fp, false, Selected)] == t.senders;
    ReachableOneMore(h, s, Start(0, target, fp), t);
  }

  /** The preview hashes version `i`, reads version `k` and hashes version `j`. */
  lemma ReadAcross(h: Hashing, history: seq<Doc>, i: nat, k: nat, j: nat, target: string, fp: string) returns (s: State)
    requires i <= k <= j < |history| && Unsent(history) && history[i] == history[j]
    ensures OneSenderAt(h, s, history, j + 1, Prepared(target, fp, i, k, k, j))
  {
    s := SenderStarted(h, history, i + 1, target, fp);
    var p := Reading(target, fp, false, Selected);
    s := OneSenderMoves(h, s, history, i + 1, HashBefore(0), p, p.(phase := HashedBefore(i)));
    s := OneSenderWaits(h, s, history, i + 1, k + 1, p.(phase := HashedBefore(i)));
    s := OneSenderMoves(h, s, history, k + 1, ReadDraft(0), p.(phase := HashedBefore(i)), p.(phase := DraftRead(i, k)));
    s := OneSenderMoves(h, s, history, k + 1, ReadEntity(0), p.(phase := DraftRead(i, k)),
        p.(phase := EntityRead(i, k, k)));
    s := OneSenderWaits(h, s, history, k + 1, j + 1, p.(phase := EntityRead(i, k, k)));
    s := OneSenderMoves(h, s, history, j + 1, HashAfter(0), p.(phase := EntityRead(i, k, k)),
        Prepared(target, fp, i, k, k, j));
  }

  lemma PostedAcross(h: Hashing, history: seq<Doc>, i: nat, k: nat, j: nat, target: string) returns (s: State)
    requires i <= k <= j < |history| && Unsent(history) && history[i] == history[j]
    ensures Reachable(h, s) && s.history == history && s.writers == map[]
    ensures s.posts == [Post(history[k].body, target, 0, Fingerprint(h, history[j], target))]
  {
    var fp := Fingerprint(h, history[j], target);
    var p := ReadAcross(h, history, i, k, j, target, fp);
    var q := OneSenderMoves(h, p, history, j + 1, Check(0), Prepared(target, fp, i, k, k, j),
        Approved(target, fp, i, k, k, j));
    var post := Post(history[k].body, target, 0, fp);
    s := q.(posts := [post], senders := map[0 := Posted(target, k, k, j, 0)]);
    assert q.posts + [post] == [post] && q.senders[0 := Posted(target, k, k, j, 0)] == s.senders;
    ReachableOneMore(h, q, Acknowledge(0), s);
    s := SavedUpTo(h, s, history, |history|);
    assert history[..|history|] == history;
  }

  /** A run that leaves this history and a comment, approved for `doc` and `target`, with another body. */
  ghost predicate WrongBody(h: Hashing, s: State, c: nat, history: seq<Doc>, doc: Doc, target: string) {
    && Reachable(h, s) && s.history == history && c < |s.posts|
    && s.posts[c].approved == Fingerprint(h, doc, target) && s.posts[c].target == target && s.posts[c].body != doc.body
  }

  lemma ReachablePinned(h: Hashing, s: State)
    requires Reachable(h, s)
    ensures Pinned(h, s)
  {
    var states: seq<State>, steps: seq<Step> :| Runs(h, states, steps, s);
    AlwaysPinned(h, states, steps, |states| - 1);
  }

  /**
   MAIN: another body can be posted under the approval of `doc` exactly when the draft came back to
   `doc` from a version with another body, whatever the sequence of unsent versions.
   */
  lemma WrongBodyExactly(h: Hashing, history: seq<Doc>, doc: Doc, target: string, known: set<(Doc, string)>)
    requires Unsent(history)
    requires Ideal(h, known) && (doc, target) in known && forall v | v in history :: (v, target) in known
    ensures (exists s: State, c: nat :: WrongBody(h, s, c, history, doc, target)) <==> CameBack(history, doc)
  {
    if s: State, c: nat :| WrongBody(h, s, c, history, doc, target) {
      ReachablePinned(h, s);
      PostedBodyIsApproved(h, s, c, doc, target, known);
    }
    if CameBack(history, doc) {
      var i: nat, k: nat, j: nat :|
        i < k < j < |history| && history[i] == doc && history[j] == doc && history[k].body != doc.body;
      var s := PostedAcross(h, history, i, k, j, target);
      assert WrongBody(h, s, 0, history, doc, target);
    }
  }

  // ------------------------------------------------------ sends left alone

  predicate StepOf(step: Step, i: nat) {
    (step.Start? || IsSender(step)) && step.i == i
  }

  ghost predicate AloneStep(h: Hashing, states: seq<State>, steps: seq<Step>, i: nat, k: nat)
    requires |states| == |steps| + 1 && k < |steps|
  {
    StepOf(steps[k], i) && Next(h, states[k], steps[k], states[k + 1])
  }

  ghost predicate AloneRun(h: Hashing, s: State, i: nat, t: State, states: seq<State>, steps: seq<Step>) {
    && |states| == |steps| + 1 && states[0] == s && states[|steps|] == t
    && forall k | 0 <= k < |steps| :: AloneStep(h, states, steps, i, k)
  }

  /** Only sender `i` takes steps on the way from `s` to `t`. */
  ghost predicate Alone(h: Hashing, s: State, i: nat, t: State) {
    exists states: seq<State>, steps: seq<Step> :: AloneRun(h, s, i, t, states, steps)
  }

  lemma AloneOneMore(h: Hashing, s: State, i: nat, t: State, step: Step, u: State)
    requires Alone(h, s, i, t) && StepOf(step, i) && Next(h, t, step, u)
    ensures Alone(h, s, i, u)
  {
    var states: seq<State>, steps: seq<Step> :| AloneRun(h, s, i, t, states, steps);
    var states', steps' := states + [u], steps + [step];
    forall k | 0 <= k < |steps'| ensures AloneStep(h, states', steps', i, k) {
      if k < |steps| {
        assert AloneStep(h, states, steps, i, k);
      }
    }
    assert AloneRun(h, s, i, u, states', steps');
  }

  lemma {:induction false} AloneReaches(h: Hashing, s: State, i: nat, t: State, states: seq<State>, steps: seq<Step>,
                                        n: nat)
    requires Reachable(h, s) && AloneRun(h, s, i, t, states, steps) && n < |states|
    ensures Reachable(h, states[n])
  {
    if n > 0 {
      AloneReaches(h, s, i, t, states, steps, n - 1);
      assert AloneStep(h, states, steps, i, n - 1);
      ReachableOneMore(h, states[n - 1], steps[n - 1], states[n]);
    }
  }

  function With(s: State, i: nat, p: Sender): State {
    s.(senders := s.senders[i := p])
  }

  lemma AloneMoves(h: Hashing, s: State, base: State, i: nat, step: Step, p: Sender, q: Sender)
    requires Alone(h, s, i, With(base, i, p)) && IsLocal(step) && step.i == i
    requires Exists(base) && InRange(base, p) && Local(h, With(base, i, p), step, p) == Some(q)
    ensures Alone(h, s, i, With(base, i, q))
  {
    assert base.senders[i := p][i := q] == base.senders[i := q];
    AloneOneMore(h, s, i, With(base, i, p), step, With(base, i, q));
  }

  lemma AloneStarts(h: Hashing, s: State, i: nat, target: string, fp: string)
    requires Exists(s) && i !in s.senders
    ensures Alone(h, s, i, With(s, i, Reading(target, fp, false, Selected)))
  {
    assert AloneRun(h, s, i, s, [s], []);
    AloneOneMore(h, s, i, s, Start(i, target, fp), With(s, i, Reading(target, fp, false, Selected)));
  }

  lemma AlonePreviewed(h: Hashing, s: State, i: nat, target: string)
    requires Exists(s) && i !in s.senders && Current(s).delivery.None?
    ensures var k, fp := Now(s), Fingerprint(h, Current(s), target);
            Alone(h, s, i, With(s, i, Approved(target, fp, k, k, k, k)))
  {
    var k, fp := Now(s), Fingerprint(h, Current(s), target);
    var p := Reading(target, fp, false, Selected);
    AloneStarts(h, s, i, target, fp);
    AloneMoves(h, s, s, i, HashBefore(i), p, p.(phase := HashedBefore(k)));
    AloneMoves(h, s, s, i, ReadDraft(i), p.(phase := HashedBefore(k)), p.(phase := DraftRead(k, k)));
    AloneMoves(h, s, s, i, ReadEntity(i), p.(phase := DraftRead(k, k)), p.(phase := EntityRead(k, k, k)));
    AloneMoves(h, s, s, i, HashAfter(i), p.(phase := EntityRead(k, k, k)), Prepared(target, fp, k, k, k, k));
    AloneMoves(h, s, s, i, Check(i), Prepared(target, fp, k, k, k, k), Approved(target, fp, k, k, k, k));
  }

  /** What a send that nothing comes between leaves. */
  function SentBy(h: Hashing, s: State, i: nat, target: string): State
    requires Exists(s)
  {
    var d := Delivery(target, |s.posts|);
    With(s.(history := s.history + [Current(s).(delivery := Some(d))],
            posts := s.posts + [Post(Current(s).body, target, i, Fingerprint(h, Current(s), target))]),
         i, Sent(d))
  }

  lemma AloneAcknowledged(h: Hashing, s: State, i: nat, target: string, posted: State)
    requires Exists(s) && i !in s.senders && Current(s).delivery.None?
    requires var post := Post(Current(s).body, target, i, Fingerprint(h, Current(s), target));
             posted == With(s.(posts := s.posts + [post]), i, Posted(target, Now(s), Now(s), Now(s), |s.posts|))
    ensures Alone(h, s, i, posted)
  {
    var k, fp := Now(s), Fingerprint(h, Current(s), target);
    var p, q := Approved(target, fp, k, k, k, k), Posted(target, k, k, k, |s.posts|);
    AlonePreviewed(h, s, i, target);
    assert s.senders[i := p][i := q] == s.senders[i := q];
    AloneOneMore(h, s, i, With(s, i, p), Acknowledge(i), posted);
  }

  /** A send by a new sender that nothing comes between succeeds on an unsent draft. */
  lemma AloneSends(h: Hashing, s: State, i: nat, target: string)
    requires Exists(s) && i !in s.senders && Current(s).delivery.None?
    ensures Alone(h, s, i, SentBy(h, s, i, target))
  {
    var k, doc, d := Now(s), Current(s), Delivery(target, |s.posts|);
    var post := Post(doc.body, target, i, Fingerprint(h, doc, target));
    var p, q := Posted(target, k, k, k, |s.posts|), Recorded(d);
    var posted := With(s.(posts := s.posts + [post]), i, p);
    AloneAcknowledged(h, s, i, target, posted);
    var written := s.(history := s.history + [doc.(delivery := Some(d))], posts := s.posts + [post]);
    assert SentDoc(posted, p) == doc.(delivery := Some(d));
    assert s.senders[i := p][i := q] == s.senders[i := q];
    AloneOneMore(h, s, i, posted, Commit(i), With(written, i, q));
    AloneMoves(h, s, written, i, Confirm(i), q, Sent(d));
  }

  /** On a sent draft a new sender left alone never gets beyond its check. */
  ghost predicate HeldBack(s: State, t: State, i: nat)
    requires Exists(s)
  {
    && t.history == s.history && t.posts == s.posts
    && (i in t.senders ==>
          match t.senders[i]
          case Reading(_, _, _, DraftRead(_, r)) => r == Now(s)
          case Reading(_, _, _, EntityRead(_, r, _)) => r == Now(s)
          case Reading(_, _, _, _) => true
          case Prepared(_, _, _, r, _, _) => r == Now(s)
          case Failed => true
          case _ => false)
  }

  lemma {:induction false} AlwaysHeldBack(h: Hashing, s: State, i: nat, t: State, states: seq<State>, steps: seq<Step>,
                                          n: nat)
    requires AloneRun(h, s, i, t, states, steps) && n < |states|
    requires Exists(s) && i !in s.senders && Current(s).delivery.Some?
    ensures HeldBack(s, states[n], i)
  {
    if n > 0 {
      AlwaysHeldBack(h, s, i, t, states, steps, n - 1);
      assert AloneStep(h, states, steps, i, n - 1);
    }
  }

  /**
   MAIN: a new sender that nothing comes between gets a send result exactly when the draft is unsent
   at that moment, whatever results were given before.
   */
  lemma SendResultExactly(h: Hashing, s: State, i: nat)
    requires Exists(s) && i !in s.senders
    ensures (exists t :: Alone(h, s, i, t) && i in t.senders && t.senders[i].Sent?) <==> Current(s).delivery.None?
  {
    if t :| Alone(h, s, i, t) && i in t.senders && t.senders[i].Sent? {
      var states: seq<State>, steps: seq<Step> :| AloneRun(h, s, i, t, states, steps);
      if Current(s).delivery.Some? {
        AlwaysHeldBack(h, s, i, t, states, steps, |steps|);
      }
    }
    if Current(s).delivery.None? {
      AloneSends(h, s, i, "");
      assert SentBy(h, s, i, "").senders[i].Sent?;
    }
  }

  lemma SentByReaches(h: Hashing, s: State, i: nat, target: string)
    requires Reachable(h, s) && Exists(s) && i !in s.senders && Current(s).delivery.None?
    ensures Reachable(h, SentBy(h, s, i, target))
  {
    AloneSends(h, s, i, target);
    var t := SentBy(h, s, i, target);
    var states: seq<State>, steps: seq<Step> :| AloneRun(h, s, i, t, states, steps);
    AloneReaches(h, s, i, t, states, steps, |steps|);
  }

  /** A save that reads the state before a send and the hash after it takes the sent draft back to unsent. */
  lemma SentDraftCanBeUnsent(h: Hashing, target: string) returns (s: State)
    ensures Reachable(h, s) && Exists(s) && Current(s).delivery.None?
    ensures s.senders.Keys == {0} && s.senders[0].Sent? && |s.posts| == 1
  {
    var doc, revised := Doc("hello", "", None), Doc("hello again", "", None);
    s := Created(h, doc);
    var read := s.(writers := map[0 := Revising(0, revised)]);
    assert s.writers[0 := Revising(0, revised)] == read.writers;
    ReachableOneMore(h, s, SaveRead(0, revised), read);
    SentByReaches(h, read, 0, target);
    s := SentBy(h, read, 0, target);
    var hashed := s.(writers := map[0 := Hashed(0, 1, revised)]);
    assert s.writers[0 := Hashed(0, 1, revised)] == hashed.writers;
    ReachableOneMore(h, s, SaveHash(0), hashed);
    var saved := hashed.(history := hashed.history + [revised], writers := hashed.writers - {0});
    ReachableOneMore(h, hashed, SaveCommit(0), saved);
    s := saved;
  }

  /** The draft taken back to unsent is sent again: two senders report the one draft as theirs. */
  lemma TwoSendResults(h: Hashing, target: string) returns (s: State)
    ensures Reachable(h, s) && |Tellers(s)| == 2 && |s.posts| == 2
  {
    var first := SentDraftCanBeUnsent(h, target);
    SentByReaches(h, first, 1, target);
    s := SentBy(h, first, 1, target);
    assert Tellers(s) == {0, 1};
  }
}
