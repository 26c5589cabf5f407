/** Every memory is accounted for, conflicts are reported once, and freshness means what it says. */
module ProjectionTheorems {
  import opened Text
  import opened Filters
  import opened ProjectionRouting
  import opened Projection

  // ---- partition ------------------------------------------------------------------------------------------

  function FateKey(matchers: Matchers, ctx: Context): Memory -> Fate {
    (m: Memory) => FateOf(matchers, ctx, m)
  }

  function Having(key: Memory -> Fate, fate: Fate): Memory -> bool {
    (m: Memory) => key(m) == fate
  }

  function Select(s: seq<Memory>, key: Memory -> Fate, fate: Fate): seq<Memory> {
    Filter(s, Having(key, fate))
  }

  lemma {:induction false} BucketIsSelection(matchers: Matchers, ctx: Context, memories: seq<Memory>, b: BucketName)
    ensures var items, chosen := Bucket(matchers, ctx, memories, b), Select(memories, FateKey(matchers, ctx), Into(b));
            |items| == |chosen| && forall k :: 0 <= k < |items| ==> items[k] == ItemOf(chosen[k])
    decreases |memories|
  {
    if memories != [] {
      BucketIsSelection(matchers, ctx, memories[1..], b);
      assert Having(FateKey(matchers, ctx), Into(b))(memories[0]) <==> FateOf(matchers, ctx, memories[0]) == Into(b);
    }
  }

  lemma {:induction false} SkippedIsSelection(memories: seq<Memory>, key: Memory -> Fate)
    requires forall m :: key(m) == Skipped <==> Outdated(m)
    ensures var skipped, chosen := SkippedOf(memories), Select(memories, key, Skipped);
            |skipped| == |chosen| && forall k :: 0 <= k < |skipped| ==> skipped[k] == SkippedSource(chosen[k])
    decreases |memories|
  {
    if memories != [] {
      SkippedIsSelection(memories[1..], key);
      assert Having(key, Skipped)(memories[0]) <==> Outdated(memories[0]);
    }
  }

  /** The positions of the memories with a fate, in order. */
  function FatePositions(matchers: Matchers, ctx: Context, memories: seq<Memory>, fate: Fate): seq<nat> {
    Positions(memories, Having(FateKey(matchers, ctx), fate), 0)
  }

  /** A bucket holds exactly the memories routed to it, in their order. */
  lemma BucketListsItsMemories(matchers: Matchers, ctx: Context, memories: seq<Memory>, b: BucketName)
    ensures var items, ps := Bucket(matchers, ctx, memories, b), FatePositions(matchers, ctx, memories, Into(b));
            |items| == |ps| && forall k :: 0 <= k < |ps| ==> items[k] == ItemOf(memories[ps[k]])
  {
    BucketIsSelection(matchers, ctx, memories, b);
    assert memories[0..] == memories;
    FilterByPosition(memories, Having(FateKey(matchers, ctx), Into(b)), 0);
  }

  lemma SkippedFateIsOutdated(matchers: Matchers, ctx: Context)
    ensures forall m :: FateKey(matchers, ctx)(m) == Skipped <==> Outdated(m)
  {
  }

  /** The skipped list holds exactly the outdated memories, in their order. */
  lemma SkippedListsOutdated(matchers: Matchers, ctx: Context, memories: seq<Memory>)
    ensures var skipped, ps := SkippedOf(memories), FatePositions(matchers, ctx, memories, Skipped);
            |skipped| == |ps| && forall k :: 0 <= k < |ps| ==> skipped[k] == SkippedSource(memories[ps[k]])
  {
    SkippedFateIsOutdated(matchers, ctx);
    SkippedIsSelection(memories, FateKey(matchers, ctx));
    assert memories[0..] == memories;
    FilterByPosition(memories, Having(FateKey(matchers, ctx), Skipped), 0);
  }

  lemma SelectStep(s: seq<Memory>, key: Memory -> Fate, fate: Fate)
    requires s != []
    ensures |Select(s, key, fate)| == (if key(s[0]) == fate then 1 else 0) + |Select(s[1..], key, fate)|
  {
    assert Having(key, fate)(s[0]) <==> key(s[0]) == fate;
  }

  lemma {:induction false} SelectionsPartition(s: seq<Memory>, key: Memory -> Fate)
    ensures |s| == |Select(s, key, Skipped)| + |Select(s, key, Irrelevant)|
                   + |Select(s, key, Into(VerifiedFacts))| + |Select(s, key, Into(ActiveConstraints))|
                   + |Select(s, key, Into(Risks))| + |Select(s, key, Into(DoNotTouch))|
                   + |Select(s, key, Into(ProtocolRules))| + |Select(s, key, Into(ConstraintRules))|
    decreases |s|
  {
    if s != [] {
      SelectionsPartition(s[1..], key);
      SelectStep(s, key, Skipped);
      SelectStep(s, key, Irrelevant);
      SelectStep(s, key, Into(VerifiedFacts));
      SelectStep(s, key, Into(ActiveConstraints));
      SelectStep(s, key, Into(Risks));
      SelectStep(s, key, Into(DoNotTouch));
      SelectStep(s, key, Into(ProtocolRules));
      SelectStep(s, key, Into(ConstraintRules));
      match key(s[0]) {
        case Skipped =>
        case Irrelevant =>
        case Into(VerifiedFacts) =>
        case Into(ActiveConstraints) =>
        case Into(Risks) =>
        case Into(DoNotTouch) =>
        case Into(ProtocolRules) =>
        case Into(ConstraintRules) =>
      }
    }
  }

  /** No memory is lost and none is projected twice. */
  lemma EveryMemoryCountedOnce(matchers: Matchers, projectionId: string, memories: seq<Memory>, ctx: Context)
    ensures var p := Project(matchers, projectionId, memories, ctx);
            |memories| == |p.skippedStale| + |Select(memories, FateKey(matchers, ctx), Irrelevant)|
                          + |p.verifiedFacts| + |p.activeConstraints| + |p.risks| + |p.doNotTouch|
                          + |p.protocolRules| + |p.constraintRules|
  {
    SelectionsPartition(memories, FateKey(matchers, ctx));
    SkippedFateIsOutdated(matchers, ctx);
    SkippedIsSelection(memories, FateKey(matchers, ctx));
    BucketIsSelection(matchers, ctx, memories, VerifiedFacts);
    BucketIsSelection(matchers, ctx, memories, ActiveConstraints);
    BucketIsSelection(matchers, ctx, memories, Risks);
    BucketIsSelection(matchers, ctx, memories, DoNotTouch);
    BucketIsSelection(matchers, ctx, memories, ProtocolRules);
    BucketIsSelection(matchers, ctx, memories, ConstraintRules);
  }

  /** Neither invalid nor stale. */
  predicate Live(m: Memory) {
    m.validityStatus !in {"invalid", "stale"}
  }

  /** The item stands for the memory: its text, its scope, its rule, and how far it is trusted. */
  predicate StandsFor(item: Item, m: Memory) {
    && item.source.sourceMemoryId == m.id && item.title == m.title && item.content == m.content && item.kind == m.kind
    && item.scope == m.appliesTo && item.validatorType == m.validatorType && item.validatorConfig == m.validatorConfig
    && item.source.confidence == (if m.severity == "blocking" then "high" else if m.severity == "warning" then "medium" else "low")
  }

  /** Where kind and target send a memory. The runtime targets win over the kind; a snapshot target sends rules to the
      facts. */
  predicate Goes(m: Memory, b: BucketName) {
    var free := m.projectionTarget !in {"protocol_gate", "constraint_runtime"};
    var snapshot := m.projectionTarget == "context_snapshot";
    match b
    case ProtocolRules => m.projectionTarget == "protocol_gate" || (m.kind == "protocol_rule" && free && !snapshot)
    case ConstraintRules => m.projectionTarget == "constraint_runtime" || (m.kind == "hard_constraint" && free && !snapshot)
    case DoNotTouch => m.kind == "do_not_touch" && free
    case Risks => m.kind == "risk" && free
    case ActiveConstraints => m.kind == "soft_convention" && free
    case VerifiedFacts =>
      free && m.kind !in {"do_not_touch", "risk", "soft_convention"}
      && (m.kind in {"protocol_rule", "hard_constraint"} ==> snapshot)
  }

  lemma GoesExact(m: Memory, b: BucketName)
    ensures RouteBucket(m.kind, m.projectionTarget) == b <==> Goes(m, b)
  {
    BucketReachedExact(m.kind, m.projectionTarget);
  }

  lemma {:induction false} InBucket(matchers: Matchers, ctx: Context, memories: seq<Memory>, b: BucketName, item: Item)
    ensures item in Bucket(matchers, ctx, memories, b)
            <==> exists m :: m in memories && FateOf(matchers, ctx, m) == Into(b) && item == ItemOf(m)
    decreases |memories|
  {
    if memories != [] {
      InBucket(matchers, ctx, memories[1..], b, item);
      assert memories == [memories[0]] + memories[1..];
    }
  }

  /** Every item of a bucket stands for a live, relevant memory that goes there, and each of those has its item. */
  lemma BucketStandsFor(matchers: Matchers, ctx: Context, memories: seq<Memory>, b: BucketName)
    ensures forall item :: item in Bucket(matchers, ctx, memories, b) ==>
              exists m :: m in memories && Live(m) && IsRelevant(matchers, m.appliesTo, ctx) && Goes(m, b) && StandsFor(item, m)
    ensures forall m :: m in memories && Live(m) && IsRelevant(matchers, m.appliesTo, ctx) && Goes(m, b) ==>
              exists item :: item in Bucket(matchers, ctx, memories, b) && StandsFor(item, m)
  {
    forall item | item in Bucket(matchers, ctx, memories, b)
      ensures exists m :: m in memories && Live(m) && IsRelevant(matchers, m.appliesTo, ctx) && Goes(m, b) && StandsFor(item, m) {
      InBucket(matchers, ctx, memories, b, item);
      var m :| m in memories && FateOf(matchers, ctx, m) == Into(b) && item == ItemOf(m);
      GoesExact(m, b);
      assert StandsFor(item, m);
    }
    forall m | m in memories && Live(m) && IsRelevant(matchers, m.appliesTo, ctx) && Goes(m, b)
      ensures exists item :: item in Bucket(matchers, ctx, memories, b) && StandsFor(item, m) {
      GoesExact(m, b);
      InBucket(matchers, ctx, memories, b, ItemOf(m));
      assert StandsFor(ItemOf(m), m);
    }
  }

  /** The items a projection holds in a bucket. */
  function ItemsIn(p: RealityProjection, b: BucketName): seq<Item> {
    match b
    case VerifiedFacts => p.verifiedFacts
    case ActiveConstraints => p.activeConstraints
    case Risks => p.risks
    case DoNotTouch => p.doNotTouch
    case ProtocolRules => p.protocolRules
    case ConstraintRules => p.constraintRules
  }

  /** So it is for every part of a built projection. */
  lemma ProjectionStandsFor(matchers: Matchers, projectionId: string, memories: seq<Memory>, ctx: Context, b: BucketName)
    ensures var items := ItemsIn(Project(matchers, projectionId, memories, ctx), b);
            && (forall item :: item in items ==>
                  exists m :: m in memories && Live(m) && IsRelevant(matchers, m.appliesTo, ctx) && Goes(m, b) && StandsFor(item, m))
            && (forall m :: m in memories && Live(m) && IsRelevant(matchers, m.appliesTo, ctx) && Goes(m, b) ==>
                  exists item :: item in items && StandsFor(item, m))
  {
    BucketStandsFor(matchers, ctx, memories, b);
    assert ItemsIn(Project(matchers, projectionId, memories, ctx), b) == Bucket(matchers, ctx, memories, b);
  }

  lemma {:induction false} InSkipped(memories: seq<Memory>, source: Source)
    ensures source in SkippedOf(memories) <==> exists m :: m in memories && Outdated(m) && source == SkippedSource(m)
    decreases |memories|
  {
    if memories != [] {
      InSkipped(memories[1..], source);
      assert memories == [memories[0]] + memories[1..];
    }
  }

  /** The skipped list names exactly the memories that are not live, with their status. */
  lemma SkippedNames(memories: seq<Memory>, id: string, reason: string)
    ensures (exists source :: source in SkippedOf(memories) && source.sourceMemoryId == id && source.projectionReason == reason)
       <==> exists m :: m in memories && !Live(m) && m.id == id && reason == "skipped: validity=" + m.validityStatus
  {
    if source :| source in SkippedOf(memories) && source.sourceMemoryId == id && source.projectionReason == reason {
      InSkipped(memories, source);
    }
    if m :| m in memories && !Live(m) && m.id == id && reason == "skipped: validity=" + m.validityStatus {
      InSkipped(memories, SkippedSource(m));
    }
  }

  // ---- conflicts ------------------------------------------------------------------------------------------

  /** Whether any scope field has overlapping patterns on both sides. */
  ghost predicate ScopesCollide(matchers: Matchers, a: Option<Scope>, b: Option<Scope>) {
    a.Some? && b.Some? && exists field :: FieldCollides(matchers, a.value, b.value, field)
  }

  lemma {:induction false} FirstCollisionExact(matchers: Matchers, fields: Scope, a: Scope, b: Scope)
    ensures FirstCollision(matchers, fields, a, b).Some? <==> exists f :: f in fields && FieldCollides(matchers, a, b, f.field)
    decreases |fields|
  {
    if fields != [] {
      FirstCollisionExact(matchers, fields[1..], a, b);
      assert fields == [fields[0]] + fields[1..];
    }
  }

  lemma LookupIsListed(scope: Scope, field: string)
    requires Lookup(scope, field) != []
    ensures exists f :: f in scope && f.field == field
  {
    if scope[0].field == field {
      assert scope[0] in scope;
    } else {
      LookupIsListed(scope[1..], field);
      var f :| f in scope[1..] && f.field == field;
      assert f in scope;
    }
  }

  /** A pair conflicts exactly when the scopes kept for its ids collide. */
  lemma PairConflictExact(matchers: Matchers, parsed: ParsedScopes, a: Item, b: Item)
    ensures PairConflict(matchers, parsed, a, b) != [] <==> ScopesCollide(matchers, ScopeOf(parsed, a), ScopeOf(parsed, b))
    ensures forall c :: c in PairConflict(matchers, parsed, a, b) ==> c.itemA == a.source && c.itemB == b.source
    ensures |PairConflict(matchers, parsed, a, b)| <= 1
  {
    var sa, sb := ScopeOf(parsed, a), ScopeOf(parsed, b);
    if sa.Some? && sb.Some? {
      FirstCollisionExact(matchers, sa.value, sa.value, sb.value);
      if ScopesCollide(matchers, sa, sb) {
        var field :| FieldCollides(matchers, sa.value, sb.value, field);
        LookupIsListed(sa.value, field);
      }
    }
  }

  /** Overlap can be found from either side. */
  ghost predicate SymmetricMatchers(matchers: Matchers) {
    forall field, p, t :: field in matchers ==>
      (matchers[field].findOverlaps(p, t) == [] <==> matchers[field].findOverlaps(t, p) == [])
  }

  lemma FindOverlapsSymmetric(matchers: Matchers, field: string, p: seq<string>, t: seq<string>)
    requires SymmetricMatchers(matchers)
    ensures FindOverlaps(matchers, field, p, t) == [] <==> FindOverlaps(matchers, field, t, p) == []
  {
    if field !in matchers {
      var x, y := FindOverlaps(matchers, field, p, t), FindOverlaps(matchers, field, t, p);
      assert forall s :: s in x <==> s in y;
      assert x != [] ==> x[0] in y;
      assert y != [] ==> y[0] in x;
    }
  }

  lemma CollisionIsSymmetric(matchers: Matchers, a: Option<Scope>, b: Option<Scope>)
    requires SymmetricMatchers(matchers)
    ensures ScopesCollide(matchers, a, b) <==> ScopesCollide(matchers, b, a)
  {
    if a.Some? && b.Some? {
      forall field ensures FieldCollides(matchers, a.value, b.value, field) <==> FieldCollides(matchers, b.value, a.value, field) {
        FindOverlapsSymmetric(matchers, field, Lookup(a.value, field), Lookup(b.value, field));
      }
    }
  }

  lemma {:induction false} InConflictsWith(matchers: Matchers, parsed: ParsedScopes, a: Item, rest: seq<Item>, c: Conflict)
    ensures c in ConflictsWith(matchers, parsed, a, rest)
            <==> exists j :: 0 <= j < |rest| && c in PairConflict(matchers, parsed, a, rest[j])
    decreases |rest|
  {
    if rest != [] {
      InConflictsWith(matchers, parsed, a, rest[1..], c);
      if c in ConflictsWith(matchers, parsed, a, rest[1..]) {
        var j :| 0 <= j < |rest[1..]| && c in PairConflict(matchers, parsed, a, rest[1..][j]);
        assert rest[1..][j] == rest[j + 1];
      }
      assert forall j :: 0 < j < |rest| ==> rest[1..][j - 1] == rest[j];
    }
  }

  ghost predicate ReportedFor(matchers: Matchers, parsed: ParsedScopes, items: seq<Item>, c: Conflict, i: int, j: int) {
    0 <= i < j < |items| && c in PairConflict(matchers, parsed, items[i], items[j])
  }

  lemma {:induction false} InConflictsAmong(matchers: Matchers, parsed: ParsedScopes, items: seq<Item>, c: Conflict)
    ensures c in ConflictsAmong(matchers, parsed, items) <==> exists i, j :: ReportedFor(matchers, parsed, items, c, i, j)
    decreases |items|
  {
    if items != [] {
      var tail := items[1..];
      InConflictsAmong(matchers, parsed, tail, c);
      InConflictsWith(matchers, parsed, items[0], tail, c);
      if i, j :| ReportedFor(matchers, parsed, tail, c, i, j) {
        assert ReportedFor(matchers, parsed, items, c, i + 1, j + 1);
      }
      if j :| 0 <= j < |tail| && c in PairConflict(matchers, parsed, items[0], tail[j]) {
        assert ReportedFor(matchers, parsed, items, c, 0, j + 1);
      }
      if i, j :| ReportedFor(matchers, parsed, items, c, i, j) {
        assert items[j] == tail[j - 1];
        if i > 0 {
          assert ReportedFor(matchers, parsed, tail, c, i - 1, j - 1);
        }
      }
    }
  }

  ghost predicate DistinctSources(items: seq<Item>) {
    forall i, j :: 0 <= i < j < |items| ==> items[i].source != items[j].source
  }

  ghost predicate NoRepeats(cs: seq<Conflict>) {
    forall i, j :: 0 <= i < j < |cs| ==> !(cs[i].itemA == cs[j].itemA && cs[i].itemB == cs[j].itemB)
  }

  lemma {:induction false} ConflictsWithOnce(matchers: Matchers, parsed: ParsedScopes, a: Item, rest: seq<Item>)
    requires DistinctSources(rest)
    ensures NoRepeats(ConflictsWith(matchers, parsed, a, rest))
    ensures forall c :: c in ConflictsWith(matchers, parsed, a, rest) ==>
              c.itemA == a.source && exists j :: 0 <= j < |rest| && rest[j].source == c.itemB
    decreases |rest|
  {
    if rest != [] {
      ConflictsWithOnce(matchers, parsed, a, rest[1..]);
      PairConflictExact(matchers, parsed, a, rest[0]);
      var head, tail := PairConflict(matchers, parsed, a, rest[0]), ConflictsWith(matchers, parsed, a, rest[1..]);
      forall c | c in tail ensures c.itemB != rest[0].source && exists j :: 0 <= j < |rest| && rest[j].source == c.itemB {
        var j :| 0 <= j < |rest[1..]| && rest[1..][j].source == c.itemB;
        assert rest[j + 1].source == c.itemB;
      }
      NoRepeatsConcat(head, tail);
    }
  }

  lemma NoRepeatsConcat(head: seq<Conflict>, tail: seq<Conflict>)
    requires NoRepeats(head) && NoRepeats(tail)
    requires forall c, d :: c in head && d in tail ==> !(c.itemA == d.itemA && c.itemB == d.itemB)
    ensures NoRepeats(head + tail)
  {
    var all := head + tail;
    forall i, j | 0 <= i < j < |all| ensures !(all[i].itemA == all[j].itemA && all[i].itemB == all[j].itemB) {
      if i < |head| && j >= |head| {
        assert all[i] in head && all[j] in tail;
      } else if i >= |head| {
        assert all[i] == tail[i - |head|] && all[j] == tail[j - |head|];
      }
    }
  }

  /** With distinct sources each pair of items is reported at most once. */
  lemma {:induction false} EachPairOnce(matchers: Matchers, parsed: ParsedScopes, items: seq<Item>)
    requires DistinctSources(items)
    ensures NoRepeats(ConflictsAmong(matchers, parsed, items))
    ensures forall c :: c in ConflictsAmong(matchers, parsed, items) ==> exists i :: 0 <= i < |items| && items[i].source == c.itemA
    decreases |items|
  {
    if items != [] {
      var tail := items[1..];
      assert DistinctSources(tail);
      EachPairOnce(matchers, parsed, tail);
      ConflictsWithOnce(matchers, parsed, items[0], tail);
      var head, more := ConflictsWith(matchers, parsed, items[0], tail), ConflictsAmong(matchers, parsed, tail);
      forall c | c in more ensures c.itemA != items[0].source && exists i :: 0 <= i < |items| && items[i].source == c.itemA {
        var i :| 0 <= i < |tail| && tail[i].source == c.itemA;
        assert items[i + 1].source == c.itemA;
      }
      NoRepeatsConcat(head, more);
    }
  }

  // ---- in terms of the memories ---------------------------------------------------------------------------

  ghost predicate DistinctIds(memories: seq<Memory>) {
    forall i, j :: 0 <= i < j < |memories| ==> memories[i].id != memories[j].id
  }

  lemma {:induction false} ParsedHolds(memories: seq<Memory>, i: nat)
    requires DistinctIds(memories) && i < |memories| && !Outdated(memories[i])
    ensures memories[i].id in ParsedOf(memories) && ParsedOf(memories)[memories[i].id] == memories[i].appliesTo
    decreases |memories|
  {
    var tail := memories[1..];
    assert DistinctIds(tail);
    if i == 0 {
      if memories[0].id in ParsedOf(tail) {
        ParsedComesFrom(tail, memories[0].id);
      }
    } else {
      assert tail[i - 1] == memories[i];
      ParsedHolds(tail, i - 1);
    }
  }

  lemma {:induction false} ParsedComesFrom(memories: seq<Memory>, id: string)
    requires id in ParsedOf(memories)
    ensures exists i :: 0 <= i < |memories| && memories[i].id == id
    decreases |memories|
  {
    if memories[0].id != id {
      ParsedComesFrom(memories[1..], id);
      var i :| 0 <= i < |memories[1..]| && memories[1..][i].id == id;
      assert memories[i + 1].id == id;
    }
  }

  /** Two memories of one bucket with colliding scopes. */
  ghost predicate Clash(matchers: Matchers, ctx: Context, memories: seq<Memory>, b: BucketName, i: int, j: int) {
    && 0 <= i < j < |memories|
    && FateOf(matchers, ctx, memories[i]) == Into(b) && FateOf(matchers, ctx, memories[j]) == Into(b)
    && ScopesCollide(matchers, memories[i].appliesTo, memories[j].appliesTo)
  }

  lemma BucketScopes(matchers: Matchers, ctx: Context, memories: seq<Memory>, b: BucketName)
    requires DistinctIds(memories)
    ensures var items, ps := Bucket(matchers, ctx, memories, b), FatePositions(matchers, ctx, memories, Into(b));
            && |items| == |ps|
            && (forall k :: 0 <= k < |ps| ==> ScopeOf(ParsedOf(memories), items[k]) == memories[ps[k]].appliesTo)
            && DistinctSources(items)
  {
    var items, ps := Bucket(matchers, ctx, memories, b), FatePositions(matchers, ctx, memories, Into(b));
    BucketListsItsMemories(matchers, ctx, memories, b);
    forall k | 0 <= k < |ps| ensures ScopeOf(ParsedOf(memories), items[k]) == memories[ps[k]].appliesTo {
      ParsedHolds(memories, ps[k]);
    }
  }

  /** The conflict is between the items of memories i and j. */
  ghost predicate Between(memories: seq<Memory>, c: Conflict, i: int, j: int)
    requires 0 <= i < |memories| && 0 <= j < |memories|
  {
    c.itemA == ItemOf(memories[i]).source && c.itemB == ItemOf(memories[j]).source
  }

  function BucketConflicts(matchers: Matchers, ctx: Context, memories: seq<Memory>, b: BucketName): seq<Conflict> {
    ConflictsAmong(matchers, ParsedOf(memories), Bucket(matchers, ctx, memories, b))
  }

  lemma ConflictIsClash(matchers: Matchers, ctx: Context, memories: seq<Memory>, b: BucketName, c: Conflict)
    returns (i: nat, j: nat)
    requires DistinctIds(memories) && c in BucketConflicts(matchers, ctx, memories, b)
    ensures Clash(matchers, ctx, memories, b, i, j) && Between(memories, c, i, j)
  {
    var parsed, items := ParsedOf(memories), Bucket(matchers, ctx, memories, b);
    var ps := FatePositions(matchers, ctx, memories, Into(b));
    BucketScopes(matchers, ctx, memories, b);
    BucketListsItsMemories(matchers, ctx, memories, b);
    InConflictsAmong(matchers, parsed, items, c);
    var k, l :| ReportedFor(matchers, parsed, items, c, k, l);
    PairConflictExact(matchers, parsed, items[k], items[l]);
    i, j := ps[k], ps[l];
  }

  lemma ClashIsConflict(matchers: Matchers, ctx: Context, memories: seq<Memory>, b: BucketName, i: nat, j: nat)
    returns (c: Conflict)
    requires DistinctIds(memories) && Clash(matchers, ctx, memories, b, i, j)
    ensures c in BucketConflicts(matchers, ctx, memories, b) && Between(memories, c, i, j)
  {
    var parsed, items := ParsedOf(memories), Bucket(matchers, ctx, memories, b);
    var ps, p := FatePositions(matchers, ctx, memories, Into(b)), Having(FateKey(matchers, ctx), Into(b));
    BucketScopes(matchers, ctx, memories, b);
    BucketListsItsMemories(matchers, ctx, memories, b);
    var k := PositionFound(memories, p, 0, i);
    var l := PositionFound(memories, p, 0, j);
    PairConflictExact(matchers, parsed, items[k], items[l]);
    c := PairConflict(matchers, parsed, items[k], items[l])[0];
    assert ReportedFor(matchers, parsed, items, c, k, l);
    InConflictsAmong(matchers, parsed, items, c);
  }

  /** The conflict carries the ids of two memories. */
  predicate Carries(c: Conflict, a: string, b: string) {
    c.itemA.sourceMemoryId == a && c.itemB.sourceMemoryId == b
  }

  lemma CarrierIsBetween(matchers: Matchers, ctx: Context, memories: seq<Memory>, b: BucketName, c: Conflict, i: nat, j: nat)
    requires DistinctIds(memories) && c in BucketConflicts(matchers, ctx, memories, b)
    requires i < j < |memories| && Carries(c, memories[i].id, memories[j].id)
    ensures Clash(matchers, ctx, memories, b, i, j) && Between(memories, c, i, j)
  {
    var i', j' := ConflictIsClash(matchers, ctx, memories, b, c);
    assert memories[i'].id == memories[i].id && memories[j'].id == memories[j].id;
    assert i' == i && j' == j;
  }

  /** For distinct ids: two memories of a bucket clash exactly when a conflict carrying their ids is reported, and then
      exactly one is. By ConflictIsClash nothing else is reported. */
  lemma BucketConflictsExact(matchers: Matchers, ctx: Context, memories: seq<Memory>, b: BucketName, i: nat, j: nat)
    requires DistinctIds(memories) && i < j < |memories|
    ensures var cs := BucketConflicts(matchers, ctx, memories, b);
            && (Clash(matchers, ctx, memories, b, i, j)
                <==> exists x :: 0 <= x < |cs| && Carries(cs[x], memories[i].id, memories[j].id))
            && (forall x, y :: 0 <= x < |cs| && 0 <= y < |cs|
                  && Carries(cs[x], memories[i].id, memories[j].id) && Carries(cs[y], memories[i].id, memories[j].id)
                  ==> x == y)
  {
    var cs := BucketConflicts(matchers, ctx, memories, b);
    BucketScopes(matchers, ctx, memories, b);
    EachPairOnce(matchers, ParsedOf(memories), Bucket(matchers, ctx, memories, b));
    if Clash(matchers, ctx, memories, b, i, j) {
      var c := ClashIsConflict(matchers, ctx, memories, b, i, j);
      var x :| 0 <= x < |cs| && cs[x] == c;
      assert Carries(cs[x], memories[i].id, memories[j].id);
    }
    forall x | 0 <= x < |cs| && Carries(cs[x], memories[i].id, memories[j].id)
      ensures Clash(matchers, ctx, memories, b, i, j) && Between(memories, cs[x], i, j)
    {
      CarrierIsBetween(matchers, ctx, memories, b, cs[x], i, j);
    }
  }

  lemma NothingReportedExact(matchers: Matchers, ctx: Context, memories: seq<Memory>, b: BucketName)
    requires DistinctIds(memories)
    ensures BucketConflicts(matchers, ctx, memories, b) == [] <==> !AnyClash(matchers, ctx, memories, b)
  {
    var cs := BucketConflicts(matchers, ctx, memories, b);
    if cs != [] {
      var i, j := ConflictIsClash(matchers, ctx, memories, b, cs[0]);
    }
    if i, j :| Clash(matchers, ctx, memories, b, i, j) {
      var c := ClashIsConflict(matchers, ctx, memories, b, i, j);
    }
  }

  ghost predicate AnyClash(matchers: Matchers, ctx: Context, memories: seq<Memory>, b: BucketName) {
    exists i, j :: Clash(matchers, ctx, memories, b, i, j)
  }

  /** A projection is fresh exactly when no memory asks for revalidation and no two enforced memories clash; it is
      never stale or invalid itself. */
  lemma FreshExact(matchers: Matchers, projectionId: string, memories: seq<Memory>, ctx: Context)
    requires DistinctIds(memories)
    ensures var p := Project(matchers, projectionId, memories, ctx);
            && (p.conflicts == [] <==> !AnyClash(matchers, ctx, memories, ConstraintRules)
                                       && !AnyClash(matchers, ctx, memories, ProtocolRules)
                                       && !AnyClash(matchers, ctx, memories, DoNotTouch))
            && (p.validity == FRESH <==> p.conflicts == [] && forall m :: m in memories ==> m.validityStatus != "needs_revalidation")
            && (p.validity == FRESH || p.validity == NEEDS_REVALIDATION)
  {
    NothingReportedExact(matchers, ctx, memories, ConstraintRules);
    NothingReportedExact(matchers, ctx, memories, ProtocolRules);
    NothingReportedExact(matchers, ctx, memories, DoNotTouch);
  }
}
