/**
 The topic registry: its integrity check, unambiguous lookup and slug construction. `plain` is
 the case-folded, decomposed form of a string without combining marks.
 */
module Topics {
  import opened Options
  import opened Text

  datatype Status = Active | Merged | Archived

  datatype Topic = Topic(slug: string, aliases: seq<string>, status: Status, mergedInto: Option<string>,
      distinctFrom: seq<string>)

  type Plain = string -> string

  /** The letters and digits of a string, in order. */
  function Letters(s: string): string {
    if s == "" then "" else if AlNum(s[0]) then [s[0]] + Letters(s[1..]) else Letters(s[1..])
  }

  function LookupKey(plain: Plain, value: string): string {
    Letters(plain(value))
  }

  // ------------------------------------------------------------ integrity

  ghost predicate UniqueSlugs(topics: seq<Topic>) {
    forall i, j | 0 <= i < j < |topics| :: topics[i].slug != topics[j].slug
  }

  ghost predicate UniqueKeys(plain: Plain, topics: seq<Topic>) {
    forall i, j | 0 <= i < j < |topics| :: LookupKey(plain, topics[i].slug) != LookupKey(plain, topics[j].slug)
  }

  predicate UsesKey(plain: Plain, t: Topic, key: string) {
    exists a :: 0 <= a < |t.aliases| && LookupKey(plain, t.aliases[a]) == key
  }

  /** The alias is no slug, except that of a topic merged into its owner. */
  ghost predicate AliasOk(plain: Plain, topics: seq<Topic>, owner: Topic, key: string) {
    && key != LookupKey(plain, owner.slug)
    && forall t | t in topics && LookupKey(plain, t.slug) == key ::
        t.status == Merged && t.mergedInto == Some(owner.slug)
  }

  ghost predicate AliasesOk(plain: Plain, topics: seq<Topic>, owner: Topic) {
    forall a | 0 <= a < |owner.aliases| :: AliasOk(plain, topics, owner, LookupKey(plain, owner.aliases[a]))
  }

  ghost predicate MergeOk(topics: seq<Topic>, t: Topic) {
    t.status == Merged ==> exists u :: u in topics && t.mergedInto == Some(u.slug) && u.status == Active
  }

  ghost predicate DistinctOk(topics: seq<Topic>, t: Topic) {
    forall n | n in t.distinctFrom :: exists u :: u in topics && u.slug == n
  }

  ghost predicate NoSharedAlias(plain: Plain, t: Topic, u: Topic) {
    forall key | UsesKey(plain, t, key) :: !UsesKey(plain, u, key)
  }

  ghost predicate Integrity(plain: Plain, topics: seq<Topic>) {
    && UniqueSlugs(topics) && UniqueKeys(plain, topics)
    && (forall i | 0 <= i < |topics| ::
          AliasesOk(plain, topics, topics[i]) && MergeOk(topics, topics[i]) && DistinctOk(topics, topics[i]))
    && forall i, j | 0 <= i < j < |topics| :: NoSharedAlias(plain, topics[i], topics[j])
  }

  // ---------------------------------------------------------------- lookup

  function Get(topics: seq<Topic>, slug: string): Option<Topic> {
    if topics == [] then None
    else if topics[0].slug == slug then Some(topics[0])
    else Get(topics[1..], slug)
  }

  function FirstAlias(plain: Plain, topics: seq<Topic>, key: string): Option<Topic> {
    if topics == [] then None
    else if topics[0].status == Active && UsesKey(plain, topics[0], key) then Some(topics[0])
    else FirstAlias(plain, topics[1..], key)
  }

  datatype Match = BySlug | ByAlias

  datatype Resolution = Resolution(topic: Topic, matchedBy: Match, mergedFrom: Option<string>)

  function Resolve(plain: Plain, topics: seq<Topic>, value: string): Option<Resolution> {
    match Get(topics, value)
    case Some(exact) =>
      if exact.status == Merged then
        var target :- if exact.mergedInto.Some? then Get(topics, exact.mergedInto.value) else None;
        Some(Resolution(target, BySlug, Some(exact.slug)))
      else if exact.status == Active then Some(Resolution(exact, BySlug, None))
      else None
    case None =>
      var topic :- FirstAlias(plain, topics, LookupKey(plain, value));
      Some(Resolution(topic, ByAlias, None))
  }

  // -------------------------------------------------------- integrity loop

  /** The slug-key dictionary; its size tells whether the keys are unique. */
  method IndexSlugs(plain: Plain, topics: seq<Topic>) returns (ok: bool, byKey: map<string, Topic>)
    requires UniqueSlugs(topics)
    ensures ok <==> UniqueKeys(plain, topics)
    ensures ok ==> KeyIndex(plain, topics, byKey)
  {
    byKey := map[];
    for i := 0 to |topics|
      invariant forall j, k | 0 <= j < k < i :: LookupKey(plain, topics[j].slug) != LookupKey(plain, topics[k].slug)
      invariant forall j | 0 <= j < i ::
                LookupKey(plain, topics[j].slug) in byKey && byKey[LookupKey(plain, topics[j].slug)] == topics[j]
      invariant forall k | k in byKey :: exists j ::
                0 <= j < i && byKey[k] == topics[j] && LookupKey(plain, topics[j].slug) == k
    {
      var key := LookupKey(plain, topics[i].slug);
      if key in byKey {
        return false, byKey;
      }
      byKey := byKey[key := topics[i]];
    }
    ok := true;
  }

  /** Who owns which alias key among the topics before `i`. */
  ghost predicate Owners(plain: Plain, topics: seq<Topic>, i: nat, owners: map<string, string>)
    requires i <= |topics|
  {
    && (forall j, key | 0 <= j < i && UsesKey(plain, topics[j], key) :: key in owners && owners[key] == topics[j].slug)
    && (forall key | key in owners :: exists j ::
        0 <= j < i && UsesKey(plain, topics[j], key) && owners[key] == topics[j].slug)
  }

  ghost predicate KeyIndex(plain: Plain, topics: seq<Topic>, byKey: map<string, Topic>) {
    && (forall t | t in topics :: LookupKey(plain, t.slug) in byKey && byKey[LookupKey(plain, t.slug)] == t)
    && (forall k | k in byKey :: byKey[k] in topics && LookupKey(plain, byKey[k].slug) == k)
  }

  /** What the loop body refuses for one alias key of `topic`. */
  predicate Clashes(plain: Plain, topic: Topic, byKey: map<string, Topic>, owners: map<string, string>, key: string) {
    || key == LookupKey(plain, topic.slug)
    || (key in byKey && !(byKey[key].status == Merged && byKey[key].mergedInto == Some(topic.slug)))
    || (key in owners && owners[key] != topic.slug)
  }

  function AliasKey(plain: Plain, t: Topic, a: nat): string
    requires a < |t.aliases|
  {
    LookupKey(plain, t.aliases[a])
  }

  ghost predicate NotOwnedBy(owners: map<string, string>, slug: string) {
    forall key | key in owners :: owners[key] != slug
  }

  /** The owners after the first `a` aliases of `topic`. */
  ghost predicate Progress(plain: Plain, topic: Topic, a: nat, owners: map<string, string>, next: map<string, string>)
    requires a <= |topic.aliases|
  {
    && (forall key | key in owners :: key in next && next[key] == owners[key])
    && (forall b | 0 <= b < a :: AliasKey(plain, topic, b) in next && next[AliasKey(plain, topic, b)] == topic.slug)
    && (forall key | key in next && key !in owners :: next[key] == topic.slug && exists b ::
        0 <= b < a && AliasKey(plain, topic, b) == key)
  }

  /** The inner loop: an alias key is taken over unless it clashes. */
  method ClaimAliases(plain: Plain, topic: Topic, byKey: map<string, Topic>, owners: map<string, string>)
    returns (ok: bool, next: map<string, string>)
    requires NotOwnedBy(owners, topic.slug)
    ensures ok <==> forall b | 0 <= b < |topic.aliases| ::
              !Clashes(plain, topic, byKey, owners, AliasKey(plain, topic, b))
    ensures ok ==> Progress(plain, topic, |topic.aliases|, owners, next)
  {
    next := owners;
    for a := 0 to |topic.aliases|
      invariant Progress(plain, topic, a, owners, next)
      invariant forall b | 0 <= b < a :: !Clashes(plain, topic, byKey, owners, AliasKey(plain, topic, b))
    {
      var key := AliasKey(plain, topic, a);
      if Clashes(plain, topic, byKey, next, key) {
        return false, next;
      }
      next := next[key := topic.slug];
    }
    ok := true;
  }

  lemma AliasOkByIndex(plain: Plain, topics: seq<Topic>, byKey: map<string, Topic>, topic: Topic, key: string)
    requires KeyIndex(plain, topics, byKey)
    ensures AliasOk(plain, topics, topic, key) <==>
              && key != LookupKey(plain, topic.slug)
              && (key in byKey ==> byKey[key].status == Merged && byKey[key].mergedInto == Some(topic.slug))
  {
  }

  lemma ForeignOwners(plain: Plain, topics: seq<Topic>, i: nat, owners: map<string, string>)
    requires i < |topics| && UniqueSlugs(topics) && Owners(plain, topics, i, owners)
    ensures NotOwnedBy(owners, topics[i].slug)
  {
    forall key | key in owners ensures owners[key] != topics[i].slug {
      var j :| 0 <= j < i && UsesKey(plain, topics[j], key) && owners[key] == topics[j].slug;
    }
  }

  ghost predicate AliasFree(plain: Plain, topics: seq<Topic>, i: nat, owners: map<string, string>, b: nat)
    requires i < |topics| && b < |topics[i].aliases|
  {
    AliasOk(plain, topics, topics[i], AliasKey(plain, topics[i], b)) && AliasKey(plain, topics[i], b) !in owners
  }

  /** The aliases of topic `i` are no foreign slugs and no aliases of an earlier topic. */
  ghost predicate AliasesFine(plain: Plain, topics: seq<Topic>, i: nat)
    requires i < |topics|
  {
    AliasesOk(plain, topics, topics[i]) && forall j | 0 <= j < i :: NoSharedAlias(plain, topics[j], topics[i])
  }

  lemma ClashMeaning(plain: Plain, topics: seq<Topic>, i: nat, byKey: map<string, Topic>, owners: map<string, string>,
                     a: nat)
    requires i < |topics| && KeyIndex(plain, topics, byKey) && NotOwnedBy(owners, topics[i].slug)
              && a < |topics[i].aliases|
    ensures Clashes(plain, topics[i], byKey, owners, AliasKey(plain, topics[i], a)) <==>
              !AliasFree(plain, topics, i, owners, a)
  {
    AliasOkByIndex(plain, topics, byKey, topics[i], AliasKey(plain, topics[i], a));
  }

  lemma OwnersExtended(plain: Plain, topics: seq<Topic>, i: nat, owners: map<string, string>, next: map<string, string>)
    requires i < |topics| && Owners(plain, topics, i, owners)
              && Progress(plain, topics[i], |topics[i].aliases|, owners, next)
    requires forall b | 0 <= b < |topics[i].aliases| :: AliasFree(plain, topics, i, owners, b)
    ensures Owners(plain, topics, i + 1, next)
  {
    forall key | key in next ensures exists j ::
        0 <= j < i + 1 && UsesKey(plain, topics[j], key) && next[key] == topics[j].slug {
      if key in owners {
        var j :| 0 <= j < i && UsesKey(plain, topics[j], key) && owners[key] == topics[j].slug;
      } else {
        assert UsesKey(plain, topics[i], key);
      }
    }
    forall j, key | 0 <= j < i + 1 && UsesKey(plain, topics[j], key)
        ensures key in next && next[key] == topics[j].slug {
      if j == i {
        var b :| 0 <= b < |topics[i].aliases| && LookupKey(plain, topics[i].aliases[b]) == key;
        assert AliasFree(plain, topics, i, owners, b);
      }
    }
  }

  lemma AllFree(plain: Plain, topics: seq<Topic>, i: nat, owners: map<string, string>)
    requires i < |topics| && UniqueSlugs(topics) && Owners(plain, topics, i, owners)
    ensures AliasesFine(plain, topics, i) <==> forall b | 0 <= b < |topics[i].aliases| ::
              AliasFree(plain, topics, i, owners, b)
  {
    forall b | 0 <= b < |topics[i].aliases| && AliasKey(plain, topics[i], b) in owners
      ensures !AliasesFine(plain, topics, i)
    {
      var key := AliasKey(plain, topics[i], b);
      var j :| 0 <= j < i && UsesKey(plain, topics[j], key);
      assert UsesKey(plain, topics[i], key);
      assert !NoSharedAlias(plain, topics[j], topics[i]);
    }
    if forall b | 0 <= b < |topics[i].aliases| :: AliasFree(plain, topics, i, owners, b) {
      forall b | 0 <= b < |topics[i].aliases|
          ensures AliasOk(plain, topics, topics[i], LookupKey(plain, topics[i].aliases[b])) {
        assert AliasFree(plain, topics, i, owners, b);
      }
      forall j, key | 0 <= j < i && UsesKey(plain, topics[j], key) ensures !UsesKey(plain, topics[i], key) {
        forall b | 0 <= b < |topics[i].aliases| ensures LookupKey(plain, topics[i].aliases[b]) != key {
          assert AliasFree(plain, topics, i, owners, b);
        }
      }
    }
  }

  /** The aliases of one topic against all the slugs and the aliases of the topics before it. */
  method CheckAliases(plain: Plain, topics: seq<Topic>, i: nat, byKey: map<string, Topic>, owners: map<string, string>)
    returns (ok: bool, next: map<string, string>)
    requires i < |topics| && UniqueSlugs(topics) && Owners(plain, topics, i, owners) && KeyIndex(plain, topics, byKey)
    ensures ok <==> AliasesFine(plain, topics, i)
    ensures ok ==> Owners(plain, topics, i + 1, next)
  {
    ForeignOwners(plain, topics, i, owners);
    ok, next := ClaimAliases(plain, topics[i], byKey, owners);
    AllFree(plain, topics, i, owners);
    forall b | 0 <= b < |topics[i].aliases|
      ensures Clashes(plain, topics[i], byKey, owners, AliasKey(plain, topics[i], b)) <==>
                !AliasFree(plain, topics, i, owners, b)
    {
      ClashMeaning(plain, topics, i, byKey, owners, b);
    }
    if ok {
      OwnersExtended(plain, topics, i, owners, next);
    }
  }

  method CheckTopic(plain: Plain, topics: seq<Topic>, i: nat, byKey: map<string, Topic>, owners: map<string, string>)
    returns (ok: bool, next: map<string, string>)
    requires i < |topics| && UniqueSlugs(topics) && Owners(plain, topics, i, owners) && KeyIndex(plain, topics, byKey)
    ensures ok <==> EntryOk(plain, topics, i)
    ensures ok ==> Owners(plain, topics, i + 1, next)
  {
    ok, next := CheckAliases(plain, topics, i, byKey, owners);
    if !ok {
      return;
    }
    var t := topics[i];
    if t.status == Merged && !(t.mergedInto.Some? && exists u | u in topics ::
        u.slug == t.mergedInto.value && u.status == Active) {
      return false, next;
    }
    if exists n | n in t.distinctFrom :: !(exists u | u in topics :: u.slug == n) {
      return false, next;
    }
  }

  /** What one round of the outer loop demands. */
  ghost predicate EntryOk(plain: Plain, topics: seq<Topic>, i: nat)
    requires i < |topics|
  {
    AliasesFine(plain, topics, i) && MergeOk(topics, topics[i]) && DistinctOk(topics, topics[i])
  }

  lemma IntegrityByEntries(plain: Plain, topics: seq<Topic>)
    requires UniqueSlugs(topics) && UniqueKeys(plain, topics)
    ensures Integrity(plain, topics) <==> forall i | 0 <= i < |topics| :: EntryOk(plain, topics, i)
  {
    if forall i | 0 <= i < |topics| :: EntryOk(plain, topics, i) {
      forall i, j | 0 <= i < j < |topics| ensures NoSharedAlias(plain, topics[i], topics[j]) {
        assert EntryOk(plain, topics, j);
      }
      forall i | 0 <= i < |topics|
        ensures AliasesOk(plain, topics, topics[i]) && MergeOk(topics, topics[i]) && DistinctOk(topics, topics[i])
      {
        assert EntryOk(plain, topics, i);
      }
    }
    if Integrity(plain, topics) {
      forall i | 0 <= i < |topics| ensures EntryOk(plain, topics, i) {
        assert forall j | 0 <= j < i :: NoSharedAlias(plain, topics[j], topics[i]);
      }
    }
  }

  /** The outer loop. */
  method CheckEntries(plain: Plain, topics: seq<Topic>, byKey: map<string, Topic>) returns (ok: bool)
    requires UniqueSlugs(topics) && KeyIndex(plain, topics, byKey)
    ensures ok <==> forall i | 0 <= i < |topics| :: EntryOk(plain, topics, i)
  {
    var owners: map<string, string> := map[];
    for i := 0 to |topics|
      invariant Owners(plain, topics, i, owners)
      invariant forall j | 0 <= j < i :: EntryOk(plain, topics, j)
    {
      var fine, next := CheckTopic(plain, topics, i, byKey, owners);
      if !fine {
        return false;
      }
      owners := next;
    }
    ok := true;
  }

  /** MAIN: the producer check accepts exactly the registries with integrity. */
  method RequireRegistryIntegrity(plain: Plain, topics: seq<Topic>) returns (ok: bool)
    ensures ok <==> Integrity(plain, topics)
  {
    if exists i, j | 0 <= i < j < |topics| :: topics[i].slug == topics[j].slug {
      return false;
    }
    var unique, byKey := IndexSlugs(plain, topics);
    if !unique {
      return false;
    }
    IntegrityByEntries(plain, topics);
    ok := CheckEntries(plain, topics, byKey);
  }

  // ------------------------------------------------------------ resolution

  ghost predicate SlugsIdentify(topics: seq<Topic>) {
    forall t, u | t in topics && u in topics && t.slug == u.slug :: t == u
  }

  ghost predicate AliasesIdentify(plain: Plain, topics: seq<Topic>) {
    forall t, u, key | t in topics && u in topics && UsesKey(plain, t, key) && UsesKey(plain, u, key) :: t == u
  }

  lemma IntegrityIdentifies(plain: Plain, topics: seq<Topic>)
    requires Integrity(plain, topics)
    ensures SlugsIdentify(topics) && AliasesIdentify(plain, topics)
  {
    forall t, u, key | t in topics && u in topics && UsesKey(plain, t, key) && UsesKey(plain, u, key) ensures t == u {
      var i, j :| 0 <= i < |topics| && 0 <= j < |topics| && topics[i] == t && topics[j] == u;
      assert i < j ==> NoSharedAlias(plain, topics[i], topics[j]);
      assert j < i ==> NoSharedAlias(plain, topics[j], topics[i]);
    }
  }

  lemma {:induction false} GetFinds(topics: seq<Topic>, slug: string)
    ensures Get(topics, slug).Some? ==> Get(topics, slug).value in topics && Get(topics, slug).value.slug == slug
    ensures Get(topics, slug).None? ==> forall t | t in topics :: t.slug != slug
  {
    if topics != [] {
      GetFinds(topics[1..], slug);
    }
  }

  lemma {:induction false} AliasFinds(plain: Plain, topics: seq<Topic>, key: string)
    ensures FirstAlias(plain, topics, key).Some? ==>
              var t := FirstAlias(plain, topics, key).value; t in topics && t.status == Active && UsesKey(plain, t, key)
    ensures FirstAlias(plain, topics, key).None? ==> forall t | t in topics && t.status == Active ::
              !UsesKey(plain, t, key)
  {
    if topics != [] {
      AliasFinds(plain, topics[1..], key);
    }
  }

  /** MAIN: only active topics are ever resolved to. */
  lemma ResolvesToActive(plain: Plain, topics: seq<Topic>, value: string)
    requires Integrity(plain, topics) && Resolve(plain, topics, value).Some?
    ensures Resolve(plain, topics, value).value.topic in topics
              && Resolve(plain, topics, value).value.topic.status == Active
  {
    IntegrityIdentifies(plain, topics);
    GetFinds(topics, value);
    AliasFinds(plain, topics, LookupKey(plain, value));
    var exact := Get(topics, value);
    if exact.Some? && exact.value.status == Merged {
      var i :| 0 <= i < |topics| && topics[i] == exact.value;
      assert MergeOk(topics, topics[i]);
      GetFinds(topics, exact.value.mergedInto.value);
    }
  }

  ghost predicate SameTopics(a: seq<Topic>, b: seq<Topic>) {
    forall t :: t in a <==> t in b
  }

  lemma SameGet(a: seq<Topic>, b: seq<Topic>, slug: string)
    requires SameTopics(a, b) && SlugsIdentify(a)
    ensures Get(a, slug) == Get(b, slug)
  {
    GetFinds(a, slug);
    GetFinds(b, slug);
  }

  lemma SameAlias(plain: Plain, a: seq<Topic>, b: seq<Topic>, key: string)
    requires SameTopics(a, b) && AliasesIdentify(plain, a)
    ensures FirstAlias(plain, a, key) == FirstAlias(plain, b, key)
  {
    AliasFinds(plain, a, key);
    AliasFinds(plain, b, key);
  }

  /** MAIN: the answer depends on which topics there are, not on how they are listed. */
  lemma OrderDoesNotMatter(plain: Plain, a: seq<Topic>, b: seq<Topic>, value: string)
    requires Integrity(plain, a) && SameTopics(a, b)
    ensures Resolve(plain, a, value) == Resolve(plain, b, value)
  {
    IntegrityIdentifies(plain, a);
    SameGet(a, b, value);
    SameAlias(plain, a, b, LookupKey(plain, value));
    var exact := Get(a, value);
    if exact.Some? && exact.value.mergedInto.Some? {
      SameGet(a, b, exact.value.mergedInto.value);
    }
  }

  lemma MemberIsFound(topics: seq<Topic>, t: Topic)
    requires SlugsIdentify(topics) && t in topics
    ensures Get(topics, t.slug) == Some(t)
  {
    GetFinds(topics, t.slug);
  }

  /** MAIN: resolving the slug of the answer gives the same topic, now directly. */
  lemma ResolvedSlugIsStable(plain: Plain, topics: seq<Topic>, value: string)
    requires Integrity(plain, topics) && Resolve(plain, topics, value).Some?
    ensures var t := Resolve(plain, topics, value).value.topic;
            Resolve(plain, topics, t.slug) == Some(Resolution(t, BySlug, None))
  {
    ResolvesToActive(plain, topics, value);
    IntegrityIdentifies(plain, topics);
    MemberIsFound(topics, Resolve(plain, topics, value).value.topic);
  }

  /** A merged slug its owner claims as an alias is merged into that owner, which is active. */
  lemma ClaimedIsMerged(plain: Plain, topics: seq<Topic>, merged: Topic, owner: Topic)
    requires Integrity(plain, topics) && merged in topics && owner in topics
    requires UsesKey(plain, owner, LookupKey(plain, merged.slug))
    ensures merged.status == Merged && merged.mergedInto == Some(owner.slug) && owner.status == Active
  {
    IntegrityIdentifies(plain, topics);
    var i :| 0 <= i < |topics| && topics[i] == owner;
    var a :| 0 <= a < |owner.aliases| && LookupKey(plain, owner.aliases[a]) == LookupKey(plain, merged.slug);
    assert AliasesOk(plain, topics, topics[i]);
    assert AliasOk(plain, topics, owner, LookupKey(plain, owner.aliases[a]));
    var k :| 0 <= k < |topics| && topics[k] == merged;
    assert MergeOk(topics, topics[k]);
  }

  /** A listed slug with this lookup key is the merged slug itself. */
  lemma OneSlugPerKey(plain: Plain, topics: seq<Topic>, merged: Topic, value: string)
    requires Integrity(plain, topics) && merged in topics && LookupKey(plain, value) == LookupKey(plain, merged.slug)
    ensures Get(topics, value).Some? ==> value == merged.slug
  {
    GetFinds(topics, value);
    if Get(topics, value).Some? {
      var t := Get(topics, value).value;
      var i, j :| 0 <= i < |topics| && 0 <= j < |topics| && topics[i] == t && topics[j] == merged;
      assert i < j || j < i || i == j;
    }
  }

  /** MAIN: a merged slug that is also an alias leads to the same topic by either route, however it is spelled. */
  lemma MergedByEitherRoute(plain: Plain, topics: seq<Topic>, merged: Topic, owner: Topic, value: string)
    requires Integrity(plain, topics) && merged in topics && owner in topics
    requires UsesKey(plain, owner, LookupKey(plain, merged.slug))
    requires LookupKey(plain, value) == LookupKey(plain, merged.slug)
    ensures Resolve(plain, topics, value).Some? && Resolve(plain, topics, value).value.topic == owner
  {
    IntegrityIdentifies(plain, topics);
    ClaimedIsMerged(plain, topics, merged, owner);
    OneSlugPerKey(plain, topics, merged, value);
    MemberIsFound(topics, merged);
    MemberIsFound(topics, owner);
    AliasFinds(plain, topics, LookupKey(plain, value));
  }

  // --------------------------------------------------------------- slugs

  /** Runs of other characters become one dash each; `inRun` is set inside such a run. */
  function Dashes(s: string, inRun: bool): string {
    if s == "" then ""
    else if AlNum(s[0]) then [s[0]] + Dashes(s[1..], false)
    else if inRun then Dashes(s[1..], true)
    else "-" + Dashes(s[1..], true)
  }

  function TrimStart(s: string): string {
    if s != "" && s[0] == '-' then TrimStart(s[1..]) else s
  }

  function TrimEnd(s: string): string {
    if s != "" && s[|s| - 1] == '-' then TrimEnd(s[..|s| - 1]) else s
  }

  function Untruncated(plain: Plain, name: string): string {
    TrimEnd(TrimStart(Dashes(plain(name), false)))
  }

  function Slugify(plain: Plain, name: string): string {
    var slug := Untruncated(plain, name);
    TrimEnd(if |slug| > 100 then slug[..100] else slug)
  }

  /** Letters, digits and single dashes. */
  ghost predicate Spaced(s: string) {
    && (forall i | 0 <= i < |s| :: AlNum(s[i]) || s[i] == '-')
    && forall i | 0 < i < |s| :: !(s[i - 1] == '-' && s[i] == '-')
  }

  lemma {:induction false} DashesSpaced(s: string, inRun: bool)
    ensures Spaced(Dashes(s, inRun)) && (inRun && Dashes(s, inRun) != "" ==> Dashes(s, inRun)[0] != '-')
    ensures Letters(Dashes(s, inRun)) == Letters(s)
  {
    if s != "" {
      DashesSpaced(s[1..], !AlNum(s[0]));
      var rest := Dashes(s[1..], !AlNum(s[0]));
      if AlNum(s[0]) {
        assert ([s[0]] + rest)[1..] == rest;
      } else if !inRun {
        assert ("-" + rest)[1..] == rest;
      }
    }
  }

  lemma {:induction false} TrimStartKeeps(s: string)
    requires Spaced(s)
    ensures Spaced(TrimStart(s)) && (TrimStart(s) != "" ==> TrimStart(s)[0] != '-')
              && Letters(TrimStart(s)) == Letters(s)
  {
    if s != "" && s[0] == '-' {
      TrimStartKeeps(s[1..]);
    }
  }

  lemma {:induction false} LettersConcat(a: string, b: string)
    ensures Letters(a + b) == Letters(a) + Letters(b)
  {
    if a == "" {
      assert a + b == b;
    } else {
      LettersConcat(a[1..], b);
      assert (a + b)[1..] == a[1..] + b;
    }
  }

  lemma {:induction false} TrimEndKeeps(s: string)
    requires Spaced(s) && (s != "" ==> s[0] != '-')
    ensures var r := TrimEnd(s);
            && Spaced(r) && r <= s && (r != "" ==> r[0] != '-' && r[|r| - 1] != '-')
            && Letters(r) == Letters(s)
  {
    if s != "" && s[|s| - 1] == '-' {
      var front := s[..|s| - 1];
      TrimEndKeeps(front);
      LettersConcat(front, "-");
      assert s == front + "-";
      assert Letters("-") == "";
    }
  }

  /** MAIN: a slug is empty or canonical, at most a hundred characters, and keeps a prefix of the name's key. */
  lemma SlugIsCanonical(plain: Plain, name: string)
    ensures var slug := Slugify(plain, name);
            && (slug == "" || Segments(slug, {'-'})) && |slug| <= 100
            && Letters(slug) <= LookupKey(plain, name)
            && (|Untruncated(plain, name)| <= 100 ==> Letters(slug) == LookupKey(plain, name))
  {
    var dashed := Dashes(plain(name), false);
    DashesSpaced(plain(name), false);
    TrimStartKeeps(dashed);
    TrimEndKeeps(TrimStart(dashed));
    var whole := Untruncated(plain, name);
    var cut := if |whole| > 100 then whole[..100] else whole;
    TrimEndKeeps(cut);
    LettersConcat(cut, whole[|cut|..]);
    assert whole == cut + whole[|cut|..];
  }

  /** `plain` leaves canonical text alone: it has no capitals and no marks. */
  ghost predicate PlainOnCanonical(plain: Plain) {
    forall s: string :: Segments(s, {'-'}) || s == "" ==> plain(s) == s
  }

  lemma {:induction false} DashesIdentity(s: string)
    requires Spaced(s)
    ensures Dashes(s, false) == s && (s != "" && s[0] != '-' ==> Dashes(s, true) == s)
  {
    if s != "" {
      DashesIdentity(s[1..]);
      assert s == [s[0]] + s[1..];
    }
  }

  /** MAIN: slugs are fixed points, so their own lookup key is the key they were cut from. */
  lemma SlugifyIdempotent(plain: Plain, name: string)
    requires PlainOnCanonical(plain)
    ensures Slugify(plain, Slugify(plain, name)) == Slugify(plain, name)
    ensures LookupKey(plain, Slugify(plain, name)) <= LookupKey(plain, name)
  {
    var slug := Slugify(plain, name);
    SlugIsCanonical(plain, name);
    assert plain(slug) == slug;
    assert Spaced(slug) by {
      forall i | 0 < i < |slug| ensures !(slug[i - 1] == '-' && slug[i] == '-') {
        assert !(slug[i - 1] in {'-'} && slug[i] in {'-'});
      }
    }
    DashesIdentity(slug);
  }
}
