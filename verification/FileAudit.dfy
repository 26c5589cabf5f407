/** The audit of a file change that was observed after the fact. */
module FileAudit {
  import opened Text
  import opened Resources
  import opened Filters

  datatype DecisionKind = FILE_CHANGED | CLAIMED_WRITE | FILE_POLLUTION_DETECTED | FILE_AUDIT_ALERT

  datatype GateContext = GateContext(id: string, relatedFiles: seq<string>, relatedResources: seq<ResourceRef>)

  datatype AuditInput = AuditInput(actorId: string, changedResource: ResourceRef, activeClaims: seq<Claim>,
                                   blockingGates: seq<GateContext>)

  datatype AuditDecision = AuditDecision(kind: DecisionKind, changedResource: ResourceRef, ownClaims: seq<Claim>,
                                         conflictingClaims: seq<Claim>, relatedBlockingGateIds: seq<string>,
                                         shouldCreateGate: bool)

  const LINK := "\U{2194}"

  function NonBlank(parts: seq<string>): seq<string> {
    if parts == [] then []
    else if Trim(parts[0]) != "" then [Trim(parts[0])] + NonBlank(parts[1..])
    else NonBlank(parts[1..])
  }

  /** The locators a gate names in its file list; one entry may join several with a double arrow. */
  function ParseRelatedFileLocators(value: seq<string>): seq<string> {
    if value == [] then [] else NonBlank(Split(value[0], LINK)) + ParseRelatedFileLocators(value[1..])
  }

  function FileRef(locator: string): ResourceRef {
    ResourceRef("file", locator, FileScope, None, None)
  }

  predicate AnyOverlaps(env: Env, refs: seq<ResourceRef>, resource: ResourceRef) {
    exists i :: 0 <= i < |refs| && ResourceLocatorsOverlap(env, refs[i], resource)
  }

  predicate AnyFileOverlaps(env: Env, relatedFiles: seq<string>, resource: ResourceRef) {
    exists l :: l in ParseRelatedFileLocators(relatedFiles) && ResourceLocatorsOverlap(env, FileRef(l), resource)
  }

  predicate GateMatchesResource(env: Env, gate: GateContext, resource: ResourceRef) {
    AnyOverlaps(env, gate.relatedResources, resource) || AnyFileOverlaps(env, gate.relatedFiles, resource)
  }

  function FindMatchingClaims(env: Env, claims: seq<Claim>, resource: ResourceRef): seq<Claim> {
    Filter(claims, (c: Claim) => AnyOverlaps(env, c.resources, resource))
  }

  function IdsOf(gates: seq<GateContext>): (ids: seq<string>)
    ensures |ids| == |gates|
  {
    seq(|gates|, i requires 0 <= i < |gates| => gates[i].id)
  }

  function EvaluateFileAuditChange(env: Env, input: AuditInput): AuditDecision {
    var matching := FindMatchingClaims(env, input.activeClaims, input.changedResource);
    var own := Filter(matching, (c: Claim) => c.actorId == input.actorId);
    var conflicting := Filter(matching, (c: Claim) => c.actorId != input.actorId && c.mode.EXCLUSIVE?);
    var gateIds := IdsOf(Filter(input.blockingGates, (g: GateContext) => GateMatchesResource(env, g, input.changedResource)));
    if |gateIds| > 0 then
      AuditDecision(FILE_AUDIT_ALERT, input.changedResource, own, conflicting, gateIds, false)
    else if |conflicting| > 0 then
      AuditDecision(FILE_POLLUTION_DETECTED, input.changedResource, own, conflicting, gateIds, true)
    else
      AuditDecision(if |own| > 0 then CLAIMED_WRITE else FILE_CHANGED, input.changedResource, own, conflicting, gateIds, false)
  }

  predicate Touches(env: Env, c: Claim, resource: ResourceRef) {
    AnyOverlaps(env, c.resources, resource)
  }

  /** The verdict read off the claims and gates: a gate beats a conflict, a conflict beats ownership. */
  lemma AuditVerdictExact(env: Env, input: AuditInput)
    ensures var r, d := input.changedResource, EvaluateFileAuditChange(env, input);
            var gated := exists g :: g in input.blockingGates && GateMatchesResource(env, g, r);
            var foreign := exists c :: c in input.activeClaims && c.actorId != input.actorId && c.mode.EXCLUSIVE? && Touches(env, c, r);
            var owned := exists c :: c in input.activeClaims && c.actorId == input.actorId && Touches(env, c, r);
            && (d.kind == FILE_AUDIT_ALERT <==> gated)
            && (d.kind == FILE_POLLUTION_DETECTED <==> !gated && foreign)
            && (d.kind == CLAIMED_WRITE <==> !gated && !foreign && owned)
            && (d.shouldCreateGate <==> d.kind == FILE_POLLUTION_DETECTED)
  {
    var r := input.changedResource;
    var matching := FindMatchingClaims(env, input.activeClaims, r);
    var own := Filter(matching, (c: Claim) => c.actorId == input.actorId);
    var conflicting := Filter(matching, (c: Claim) => c.actorId != input.actorId && c.mode.EXCLUSIVE?);
    var gates := Filter(input.blockingGates, (g: GateContext) => GateMatchesResource(env, g, r));
    assert forall c :: c in matching <==> c in input.activeClaims && Touches(env, c, r);
    assert |gates| > 0 ==> gates[0] in gates;
    assert |own| > 0 ==> own[0] in own;
    assert |conflicting| > 0 ==> conflicting[0] in conflicting;
  }

  /** The report names exactly the actor's claims, the foreign exclusive claims and the gates that meet the changed
      resource. */
  lemma AuditListsExact(env: Env, input: AuditInput)
    ensures var r, d := input.changedResource, EvaluateFileAuditChange(env, input);
            && d.changedResource == r
            && (forall c :: c in d.ownClaims <==>
                  c in input.activeClaims && c.actorId == input.actorId && Touches(env, c, r))
            && (forall c :: c in d.conflictingClaims <==>
                  c in input.activeClaims && c.actorId != input.actorId && c.mode.EXCLUSIVE? && Touches(env, c, r))
            && (forall id :: id in d.relatedBlockingGateIds <==>
                  exists g :: g in input.blockingGates && GateMatchesResource(env, g, r) && g.id == id)
  {
    var r := input.changedResource;
    var gates := Filter(input.blockingGates, (g: GateContext) => GateMatchesResource(env, g, r));
    forall id ensures id in IdsOf(gates) <==>
        exists g :: g in input.blockingGates && GateMatchesResource(env, g, r) && g.id == id {
      if g :| g in input.blockingGates && GateMatchesResource(env, g, r) && g.id == id {
        var k :| 0 <= k < |gates| && gates[k] == g;
        assert IdsOf(gates)[k] == id;
      }
      if id in IdsOf(gates) {
        var k :| 0 <= k < |gates| && IdsOf(gates)[k] == id;
        assert gates[k] in gates;
      }
    }
  }

  // ---- the file list of a conflict ------------------------------------------------------------------------

  lemma SplitPair(x: string, y: string, c: char)
    requires c !in x && c !in y
    ensures Split(x + [c] + y, [c]) == [x, y]
  {
    var parts := [x, y];
    assert parts[1..] == [y];
    SplitJoin(parts, c);
  }

  lemma NonBlankPair(x: string, y: string)
    requires Trim(x) != "" && Trim(y) != ""
    ensures NonBlank([x, y]) == [Trim(x), Trim(y)]
  {
    var two, one: seq<string> := [x, y], [y];
    assert two[1..] == one && one[1..] == [];
    assert NonBlank(one) == [Trim(y)];
  }

  lemma ParseOne(s: string)
    ensures ParseRelatedFileLocators([s]) == NonBlank(Split(s, LINK))
  {
    var one: seq<string> := [s];
    assert one[1..] == [];
    assert ParseRelatedFileLocators(one) == NonBlank(Split(s, LINK)) + ParseRelatedFileLocators(one[1..]);
  }

  /** The joined locator of a detected conflict reads back as its two locators. */
  lemma JoinedLocatorsReadBack(a: string, b: string)
    requires LINK[0] !in a && LINK[0] !in b && Trim(a) != "" && Trim(b) != ""
    ensures ParseRelatedFileLocators([a + " " + LINK + " " + b]) == [Trim(a), Trim(b)]
  {
    assert LINK == [LINK[0]];
    assert a + " " + LINK + " " + b == (a + " ") + LINK + (" " + b);
    SplitPair(a + " ", " " + b, LINK[0]);
    TrimSpaceAfter(a, ' ');
    TrimSpaceBefore(' ', b);
    NonBlankPair(a + " ", " " + b);
    ParseOne(a + " " + LINK + " " + b);
  }

  /** l is the trimmed text of one of the pieces, and not blank. */
  predicate Names(parts: seq<string>, l: string) {
    l != "" && exists piece :: piece in parts && l == Trim(piece)
  }

  lemma {:induction false} NonBlankExact(parts: seq<string>, l: string)
    ensures l in NonBlank(parts) <==> Names(parts, l)
    decreases |parts|
  {
    if parts != [] {
      NonBlankExact(parts[1..], l);
      assert parts == [parts[0]] + parts[1..];
    }
  }

  /** What a file list names: the trimmed pieces between the arrows of each entry that are not blank. */
  lemma {:induction false} ParsedExact(value: seq<string>, l: string)
    ensures l in ParseRelatedFileLocators(value)
       <==> exists f :: f in value && EntryNames(f, l)
    decreases |value|
  {
    if value != [] {
      var first, rest := value[0], value[1..];
      ParsedExact(rest, l);
      ParsedFirst(first, rest, l);
      assert value == [first] + rest;
    }
  }

  /** The entry names the locator: it is one of the texts between its arrows. */
  predicate EntryNames(f: string, l: string) {
    Names(Split(f, "\U{2194}"), l)
  }

  lemma ParsedFirst(first: string, rest: seq<string>, l: string)
    ensures l in ParseRelatedFileLocators([first] + rest) <==> EntryNames(first, l) || l in ParseRelatedFileLocators(rest)
  {
    var parts := Split(first, LINK);
    NonBlankExact(parts, l);
    assert ([first] + rest)[1..] == rest;
    assert ParseRelatedFileLocators([first] + rest) == NonBlank(parts) + ParseRelatedFileLocators(rest);
  }

  /** Where the text without its outer white space lies. */
  lemma TrimBounds(a: string) returns (from: nat, to: nat)
    requires Trim(a) != ""
    ensures from < to <= |a| && !IsSpace(a[from]) && !IsSpace(a[to - 1]) && Trim(a) == a[from..to]
    ensures (forall i :: 0 <= i < from ==> IsSpace(a[i])) && forall i :: to <= i < |a| ==> IsSpace(a[i])
  {
    from := Leading(a, 0);
    assert TrimStart(a) == a[from..];
    to := Trailing(a, |a|);
    assert to > from;
    TrimBetween(a, from, to);
  }

  lemma TrimSpaceAfter(a: string, c: char)
    requires Trim(a) != "" && IsSpace(c)
    ensures Trim(a + [c]) == Trim(a)
  {
    var from, to := TrimBounds(a);
    var s := a + [c];
    assert s[from..to] == a[from..to];
    assert forall i :: 0 <= i < |a| ==> s[i] == a[i];
    TrimBetween(s, from, to);
  }

  lemma ShiftedSpaces(c: char, b: string, from: nat, to: nat)
    requires IsSpace(c) && from <= to <= |b|
    requires (forall i :: 0 <= i < from ==> IsSpace(b[i])) && forall i :: to <= i < |b| ==> IsSpace(b[i])
    ensures var s := [c] + b; forall i :: 0 <= i < from + 1 || to + 1 <= i < |s| ==> IsSpace(s[i])
  {
    var s := [c] + b;
    forall i | 0 <= i < from + 1 || to + 1 <= i < |s| ensures IsSpace(s[i]) {
      assert i > 0 ==> s[i] == b[i - 1];
    }
  }

  lemma TrimSpaceBefore(c: char, b: string)
    requires Trim(b) != "" && IsSpace(c)
    ensures Trim([c] + b) == Trim(b)
  {
    var from, to := TrimBounds(b);
    var s := [c] + b;
    assert s[from + 1] == b[from] && s[to] == b[to - 1] && s[from + 1..to + 1] == b[from..to];
    ShiftedSpaces(c, b, from, to);
    TrimBetween(s, from + 1, to + 1);
  }
}
