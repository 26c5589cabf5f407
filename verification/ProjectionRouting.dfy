/** Where a project memory goes: kinds, projection targets, buckets. */
module ProjectionRouting {
  import opened Text

  datatype BucketName = VerifiedFacts | ActiveConstraints | Risks | DoNotTouch | ProtocolRules | ConstraintRules

  datatype Route = Route(buckets: seq<BucketName>, reason: string)

  const ARROW := " \U{2192} "

  function BucketText(b: BucketName): string {
    match b
    case VerifiedFacts => "verifiedFacts"
    case ActiveConstraints => "activeConstraints"
    case Risks => "risks"
    case DoNotTouch => "doNotTouch"
    case ProtocolRules => "protocolRules"
    case ConstraintRules => "constraintRules"
  }

  function KindToBucket(kind: string): BucketName {
    if kind == "fact" then VerifiedFacts
    else if kind == "soft_convention" then ActiveConstraints
    else if kind == "risk" then Risks
    else if kind == "do_not_touch" then DoNotTouch
    else if kind == "hard_constraint" then ConstraintRules
    else if kind == "protocol_rule" then ProtocolRules
    else VerifiedFacts
  }

  function TargetToBucket(target: string): Option<BucketName> {
    if target == "protocol_gate" then Some(ProtocolRules)
    else if target == "constraint_runtime" then Some(ConstraintRules)
    else None
  }

  function KindToSnapshotBucket(kind: string): BucketName {
    if kind == "soft_convention" then ActiveConstraints
    else if kind == "risk" then Risks
    else if kind == "do_not_touch" then DoNotTouch
    else VerifiedFacts
  }

  function ProjectionReasonForKind(kind: string): string {
    if kind == "fact" then "fact" + ARROW + "contextPatch.verifiedFacts"
    else if kind == "soft_convention" then "soft_convention" + ARROW + "contextPatch.activeConstraints"
    else if kind == "risk" then "risk" + ARROW + "contextPatch.risks"
    else if kind == "do_not_touch" then "do_not_touch" + ARROW + "contextPatch.doNotTouch"
    else if kind == "hard_constraint" then "hard_constraint" + ARROW + "constraintRules"
    else if kind == "protocol_rule" then "protocol_rule" + ARROW + "protocolRules"
    else kind + ARROW + "verifiedFacts (fallback)"
  }

  function ExplicitReason(kind: string, bucket: BucketName, target: string): string {
    kind + ARROW + BucketText(bucket) + " (explicit target: " + target + ")"
  }

  /** target is empty when the memory names none. */
  function ResolveProjectionRoute(kind: string, target: string): (route: Route)
    ensures |route.buckets| == 1
  {
    var bucket := TargetToBucket(target);
    if bucket.Some? then Route([bucket.value], ExplicitReason(kind, bucket.value, target))
    else if target == "context_snapshot" then
      Route([KindToSnapshotBucket(kind)], ExplicitReason(kind, KindToSnapshotBucket(kind), target))
    else Route([KindToBucket(kind)], ProjectionReasonForKind(kind))
  }

  function RouteBucket(kind: string, target: string): BucketName {
    ResolveProjectionRoute(kind, target).buckets[0]
  }

  /** Which memories reach the two checked rule buckets and the do-not-touch bucket: an explicit runtime target wins
      over the kind, and a snapshot target sends rules to the facts. */
  lemma BucketReachedExact(kind: string, target: string)
    ensures RouteBucket(kind, target) == ProtocolRules
       <==> target == "protocol_gate"
            || (kind == "protocol_rule" && target != "constraint_runtime" && target != "context_snapshot")
    ensures RouteBucket(kind, target) == ConstraintRules
       <==> target == "constraint_runtime"
            || (kind == "hard_constraint" && target != "protocol_gate" && target != "context_snapshot")
    ensures RouteBucket(kind, target) == DoNotTouch
       <==> kind == "do_not_touch" && target != "protocol_gate" && target != "constraint_runtime"
    ensures RouteBucket(kind, target) == Risks
       <==> kind == "risk" && target != "protocol_gate" && target != "constraint_runtime"
    ensures RouteBucket(kind, target) == ActiveConstraints
       <==> kind == "soft_convention" && target != "protocol_gate" && target != "constraint_runtime"
  {
  }

  // ---- the enforcement mark -------------------------------------------------------------------------------

  const P4 := "P4 enforcement"

  lemma OccursChars(s: string, d: string, i: int)
    requires OccursAt(s, d, i)
    ensures forall x :: i <= x < i + |d| ==> s[x] == d[x - i]
  {
    forall x | i <= x < i + |d| ensures s[x] == d[x - i] {
      assert s[i..i + |d|][x - i] == s[x];
    }
  }

  /** Whatever s follows k, an occurrence of p cannot run from k into s: only the blank of p could meet the first
      character of s, and the characters after it differ. */
  ghost predicate Separates(s: string, p: string, blank: nat) {
    && |s| > 1 && blank + 1 < |p|
    && (forall j :: 0 < j < |p| && p[j] == s[0] ==> j == blank)
    && p[blank + 1] != s[1]
    && p[0] !in s
  }

  lemma OccursBeforeSeparator(k: string, s: string, p: string, blank: nat, i: int)
    requires Separates(s, p, blank) && OccursAt(k + s, p, i)
    ensures i + |p| <= |k|
  {
    var t := k + s;
    OccursChars(t, p, i);
    assert forall x :: |k| <= x < |t| ==> t[x] == s[x - |k|];
    assert t[i] == p[0];
    assert i < |k|;
    assert t[|k|] == s[0] && t[|k| + 1] == s[1];
  }

  lemma ContainsAppend(k: string, s: string, p: string, blank: nat)
    requires Separates(s, p, blank)
    ensures Contains(k + s, p) <==> Contains(k, p)
  {
    if Contains(k, p) {
      var i :| 0 <= i <= |k| && OccursAt(k, p, i);
      OccursInPrefix(k, s, p, i);
      assert OccursAt(k + s, p, i);
    }
    if Contains(k + s, p) {
      var i :| 0 <= i <= |k + s| && OccursAt(k + s, p, i);
      OccursBeforeSeparator(k, s, p, blank, i);
      OccursInPrefix(k, s, p, i);
      assert OccursAt(k, p, i);
    }
  }

  lemma ContainsFirstChar(s: string, p: string)
    requires p != "" && Contains(s, p)
    ensures p[0] in s
  {
    var i :| 0 <= i <= |s| && OccursAt(s, p, i);
    OccursChars(s, p, i);
    assert s[i] == p[0];
  }

  /** The reason of an explicitly routed constraint carries the enforcement mark exactly when its kind does. */
  lemma ExplicitReasonMark(kind: string)
    ensures Contains(ExplicitReason(kind, ConstraintRules, "constraint_runtime"), P4) <==> Contains(kind, P4)
  {
    var tail := ARROW + "constraintRules" + " (explicit target: " + "constraint_runtime" + ")";
    assert ExplicitReason(kind, ConstraintRules, "constraint_runtime") == kind + tail;
    assert tail[0] == ' ' && tail[1] == '\U{2192}';
    assert 'P' !in tail;
    ContainsAppend(kind, tail, P4, 2);
  }

  lemma DefaultConstraintReasonUnmarked()
    ensures !Contains(ProjectionReasonForKind("hard_constraint"), P4)
  {
    var reason := "hard_constraint" + ARROW + "constraintRules";
    assert 'P' !in reason;
    if Contains(reason, P4) {
      ContainsFirstChar(reason, P4);
    }
  }
}
