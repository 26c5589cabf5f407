/** User agent manifests: schema, normalising transform, parse and serialise
    (packages/syncpoint-adapters/src/agent-file-manifest.ts, agent-manifest.ts). A key that is absent from a record
    is None; values are well typed, so the schema only checks lengths and ranges. */
module Manifest {
  import opened Text
  import opened Lists

  datatype Provider = Codex | ClaudeCode | Cursor | Cline | Copilot | Human | OtherProvider | AutoDetect
  datatype Role = Manager | Frontend | Backend | Tester | Reviewer | OtherRole
  datatype Availability = Online | Busy | Offline
  datatype OptIn = Always | WhenAvailable | Never

  datatype Capability = Capability(domain: string, skills: seq<string>, resourceTypes: seq<string>)

  datatype CapabilityInput =
    | Bare(text: string)
    | Described(domain: string, skills: Option<seq<string>>, resourceTypes: Option<seq<string>>)

  datatype Escalation = Escalation(optIn: OptIn, priority: int, maxConcurrent: int)

  datatype EscalationInput =
    EscalationInput(optIn: Option<OptIn>, priority: Option<int>, maxConcurrent: Option<int>)

  /** The record a manifest is read from. */
  datatype Body = Body(
    version: Option<int>, name: Option<string>, profile: Option<string>, provider: Option<Provider>,
    role: Option<Role>, tags: Option<seq<string>>, capabilities: Option<seq<CapabilityInput>>,
    availability: Option<Availability>, autoStart: Option<bool>, notes: Option<string>,
    escalation: Option<EscalationInput>, humanEscalation: Option<bool>)

  const EMPTY_BODY := Body(None, None, None, None, None, None, None, None, None, None, None, None)

  datatype Manifest = Manifest(
    version: int, name: string, profile: string, provider: Provider, role: Role, tags: seq<string>,
    capabilities: seq<Capability>, availability: Availability, autoStart: bool, notes: string,
    escalation: Escalation, humanEscalation: bool)

  /** A file: its own keys, and the record under its "agent" key when there is one. */
  datatype Document = Document(top: Body, agent: Option<Body>)

  function OrElse<T>(o: Option<T>, fallback: T): T {
    match o
    case None => fallback
    case Some(v) => v
  }

  // ---- lists of strings -------------------------------------------------------------------------------------

  function TrimAll(items: seq<string>): seq<string> {
    seq(|items|, i requires 0 <= i < |items| => Trim(items[i]))
  }

  function NonBlank(items: seq<string>): seq<string> {
    if items == [] then []
    else (if items[0] == "" then [] else [items[0]]) + NonBlank(items[1..])
  }

  /** The items in insertion order, each once: what is left after the ones in seen. */
  function Unseen<T(==)>(items: seq<T>, seen: set<T>): seq<T> {
    if items == [] then []
    else if items[0] in seen then Unseen(items[1..], seen)
    else [items[0]] + Unseen(items[1..], seen + {items[0]})
  }

  function NormalizeList(items: seq<string>): seq<string> {
    Unseen(NonBlank(TrimAll(items)), {})
  }

  /** Trimmed, without blanks, without repetitions. */
  predicate NormalList(items: seq<string>) {
    && Distinct(items)
    && forall i :: 0 <= i < |items| ==> items[i] != "" && Trimmed(items[i])
  }

  function FirstAt<T(==)>(items: seq<T>, x: T): (k: nat)
    requires x in items
    ensures k < |items| && items[k] == x
    ensures forall i :: 0 <= i < k ==> items[i] != x
  {
    if items[0] == x then 0 else 1 + FirstAt(items[1..], x)
  }

  predicate InFirstOrder<T(==)>(r: seq<T>, items: seq<T>) {
    && (forall i :: 0 <= i < |r| ==> r[i] in items)
    && forall i, j :: 0 <= i < j < |r| ==> FirstAt(items, r[i]) < FirstAt(items, r[j])
  }

  lemma {:induction false} UnseenExact<T>(items: seq<T>, seen: set<T>)
    ensures forall x :: x in Unseen(items, seen) <==> x in items && x !in seen
    ensures Distinct(Unseen(items, seen))
    ensures InFirstOrder(Unseen(items, seen), items)
  {
    if items == [] {
    } else if items[0] in seen {
      UnseenExact(items[1..], seen);
    } else {
      UnseenExact(items[1..], seen + {items[0]});
      var r, rest := Unseen(items, seen), Unseen(items[1..], seen + {items[0]});
      assert r == [items[0]] + rest;
      assert forall i :: 0 < i < |r| ==> r[i] == rest[i - 1] && r[i] in rest;
    }
  }

  lemma {:induction false} NonBlankExact(items: seq<string>)
    ensures forall x :: x in NonBlank(items) <==> x in items && x != ""
    ensures "" !in items ==> NonBlank(items) == items
  {
    if items != [] {
      NonBlankExact(items[1..]);
      assert items == [items[0]] + items[1..];
    }
  }

  /** x is one of the items without its outer white space. */
  predicate IsTrimOf(x: string, items: seq<string>) {
    exists i :: 0 <= i < |items| && Trim(items[i]) == x
  }

  lemma TrimAllExact(items: seq<string>)
    ensures forall x :: x in TrimAll(items) <==> IsTrimOf(x, items)
  {
    var trimmed := TrimAll(items);
    forall x | x in trimmed ensures IsTrimOf(x, items) {
      var i :| 0 <= i < |trimmed| && trimmed[i] == x;
      assert Trim(items[i]) == x;
    }
    forall x | IsTrimOf(x, items) ensures x in trimmed {
      var i :| 0 <= i < |items| && Trim(items[i]) == x;
      assert trimmed[i] == x;
    }
  }

  lemma IsTrimOfIsTrimmed(x: string, items: seq<string>)
    requires IsTrimOf(x, items)
    ensures Trimmed(x)
  {
    var i :| 0 <= i < |items| && Trim(items[i]) == x;
    TrimIsTrimmed(items[i]);
  }

  lemma NormalizeListMembers(items: seq<string>)
    ensures forall x :: x in NormalizeList(items) <==> x != "" && IsTrimOf(x, items)
    ensures Distinct(NormalizeList(items))
    ensures InFirstOrder(NormalizeList(items), NonBlank(TrimAll(items)))
  {
    TrimAllExact(items);
    NonBlankExact(TrimAll(items));
    UnseenExact(NonBlank(TrimAll(items)), {});
  }

  /** Nothing is lost but outer white space, blanks and repetitions, and the order is the order of first
      occurrence. */
  lemma NormalizeListExact(items: seq<string>)
    ensures forall x :: x in NormalizeList(items) <==> x != "" && IsTrimOf(x, items)
    ensures NormalList(NormalizeList(items))
    ensures InFirstOrder(NormalizeList(items), NonBlank(TrimAll(items)))
  {
    NormalizeListMembers(items);
    var r := NormalizeList(items);
    forall i | 0 <= i < |r| ensures r[i] != "" && Trimmed(r[i]) {
      assert r[i] in r;
      IsTrimOfIsTrimmed(r[i], items);
    }
  }

  lemma {:induction false} UnseenKeepsDistinct<T>(items: seq<T>, seen: set<T>)
    requires Distinct(items) && forall x :: x in items ==> x !in seen
    ensures Unseen(items, seen) == items
  {
    if items != [] {
      var rest := items[1..];
      assert items[0] in items;
      assert forall x :: x in rest ==> x in items;
      forall x | x in rest ensures x != items[0] {
        var i :| 0 <= i < |rest| && rest[i] == x;
        assert items[i + 1] == x;
      }
      UnseenKeepsDistinct(rest, seen + {items[0]});
    }
  }

  /** The fixed points are exactly the normal lists; so normalising twice is normalising once. */
  lemma NormalizeListFixed(items: seq<string>)
    ensures NormalizeList(items) == items <==> NormalList(items)
    ensures NormalizeList(NormalizeList(items)) == NormalizeList(items)
  {
    NormalizeListExact(items);
    if NormalList(items) {
      NormalIsKept(items);
    }
    NormalIsKept(NormalizeList(items));
  }

  lemma NormalIsKept(items: seq<string>)
    requires NormalList(items)
    ensures NormalizeList(items) == items
  {
    forall i | 0 <= i < |items| ensures Trim(items[i]) == items[i] {
      TrimIsTrimmed(items[i]);
    }
    assert TrimAll(items) == items;
    NonBlankExact(items);
    UnseenKeepsDistinct(items, {});
  }

  // ---- the transform ----------------------------------------------------------------------------------------

  /** The role a profile word stands for. The results below hold for every table. */
  type RoleTable = string -> Role

  /** The table of the repository. */
  function KeywordRole(word: string): Role {
    if word in ["manager", "architect", "lead", "owner"] then Manager
    else if word in ["frontend", "ui", "design-system"] then Frontend
    else if word in ["backend", "executor", "implementer", "developer"] then Backend
    else if word in ["tester", "qa", "quality"] then Tester
    else if word in ["reviewer", "review", "auditor"] then Reviewer
    else OtherRole
  }

  function ResolveRole(role: Option<Role>, profile: string, roles: RoleTable): Role {
    match role
    case Some(r) => r
    case None => roles(Lower(Trim(profile)))
  }

  function NormalizeCapability(c: CapabilityInput): Capability {
    match c
    case Bare(text) => Capability(Trim(text), [], [])
    case Described(domain, skills, types) =>
      Capability(Trim(domain), NormalizeList(OrElse(skills, [])), NormalizeList(OrElse(types, [])))
  }

  function NormalizeCapabilities(cs: seq<CapabilityInput>): seq<Capability> {
    seq(|cs|, i requires 0 <= i < |cs| => NormalizeCapability(cs[i]))
  }

  function FillEscalation(e: EscalationInput): Escalation {
    Escalation(OrElse(e.optIn, WhenAvailable), OrElse(e.priority, 50), OrElse(e.maxConcurrent, 3))
  }

  predicate EscalationInRange(e: Escalation) {
    0 <= e.priority <= 100 && 0 <= e.maxConcurrent
  }

  const NO_ESCALATION := EscalationInput(None, None, None)

  predicate AcceptsCapabilities(cs: seq<CapabilityInput>) {
    forall i :: 0 <= i < |cs| ==> cs[i].Bare? ==> cs[i].text != ""
  }

  /** The schema. Lengths are checked before anything is trimmed. */
  predicate Accepts(b: Body) {
    && OrElse(b.version, 1) >= 1
    && b.name.Some? && b.name.value != ""
    && OrElse(b.profile, "general") != ""
    && AcceptsCapabilities(OrElse(b.capabilities, []))
    && EscalationInRange(FillEscalation(OrElse(b.escalation, NO_ESCALATION)))
  }

  /** The transform, but for the role. */
  function Normalized(b: Body, role: Role): Manifest
    requires b.name.Some?
  {
    Manifest(
      OrElse(b.version, 1), Trim(b.name.value), Trim(OrElse(b.profile, "general")),
      OrElse(b.provider, OtherProvider), role,
      NormalizeList(OrElse(b.tags, [])), NormalizeCapabilities(OrElse(b.capabilities, [])),
      OrElse(b.availability, Online), OrElse(b.autoStart, false), Trim(OrElse(b.notes, "")),
      FillEscalation(OrElse(b.escalation, NO_ESCALATION)), OrElse(b.humanEscalation, false))
  }

  function Transform(b: Body, roles: RoleTable): Manifest
    requires Accepts(b)
  {
    Normalized(b, ResolveRole(b.role, OrElse(b.profile, "general"), roles))
  }

  function Extract(d: Document): Body {
    match d.agent
    case None => d.top
    case Some(nested) => nested.(version := if nested.version.Some? then nested.version else d.top.version)
  }

  function ParseBody(b: Body, roles: RoleTable): Option<Manifest> {
    if Accepts(b) then Some(Transform(b, roles)) else None
  }

  /** None: the schema refuses the document. */
  function Parse(d: Document, roles: RoleTable): Option<Manifest> {
    ParseBody(Extract(d), roles)
  }

  // ---- serialising ------------------------------------------------------------------------------------------

  /** A manifest as the record it is. */
  function AsBody(m: Manifest): Body {
    Body(Some(m.version), Some(m.name), Some(m.profile), Some(m.provider), Some(m.role), Some(m.tags),
         Some(AsInputs(m.capabilities)), Some(m.availability), Some(m.autoStart), Some(m.notes),
         Some(EscalationInput(Some(m.escalation.optIn), Some(m.escalation.priority), Some(m.escalation.maxConcurrent))),
         Some(m.humanEscalation))
  }

  function AsInputs(cs: seq<Capability>): seq<CapabilityInput> {
    seq(|cs|, i requires 0 <= i < |cs| => Described(cs[i].domain, Some(cs[i].skills), Some(cs[i].resourceTypes)))
  }

  function Flat(b: Body): Document {
    Document(b, None)
  }

  /** The written document keeps the version outside the agent record. */
  function Written(b: Body): Document {
    Document(EMPTY_BODY.(version := b.version), Some(b.(version := None)))
  }

  /** The document serializeUserAgentManifest writes: the input's own top-level keys when they pass the schema,
      the parsed manifest otherwise. */
  function Serialize(d: Document, roles: RoleTable): Option<Document> {
    if Accepts(d.top) then Some(Written(d.top))
    else
      match Parse(d, roles)
      case None => None
      case Some(m) => Some(Written(AsBody(m)))
  }

  // ---- round trips ------------------------------------------------------------------------------------------

  predicate NormalCapability(c: Capability) {
    Trimmed(c.domain) && NormalList(c.skills) && NormalList(c.resourceTypes)
  }

  predicate Normal(m: Manifest) {
    && Trimmed(m.name) && Trimmed(m.profile) && Trimmed(m.notes) && NormalList(m.tags)
    && forall i :: 0 <= i < |m.capabilities| ==> NormalCapability(m.capabilities[i])
  }

  predicate InRange(m: Manifest) {
    m.version >= 1 && EscalationInRange(m.escalation)
  }

  lemma CapabilityIsNormal(c: CapabilityInput)
    ensures NormalCapability(NormalizeCapability(c))
  {
    match c
    case Bare(text) =>
      TrimIsTrimmed(text);
    case Described(domain, skills, types) =>
      TrimIsTrimmed(domain);
      NormalizeListExact(OrElse(skills, []));
      NormalizeListExact(OrElse(types, []));
  }

  /** Whatever is parsed is normal. */
  lemma ParsedIsNormal(d: Document, roles: RoleTable)
    ensures Parse(d, roles).Some? ==> Normal(Parse(d, roles).value) && InRange(Parse(d, roles).value)
  {
    var b := Extract(d);
    if Accepts(b) {
      TransformIsNormal(b, roles);
    }
  }

  lemma TransformIsNormal(b: Body, roles: RoleTable)
    requires Accepts(b)
    ensures Normal(Transform(b, roles)) && InRange(Transform(b, roles))
  {
    TrimIsTrimmed(b.name.value);
    TrimIsTrimmed(OrElse(b.profile, "general"));
    TrimIsTrimmed(OrElse(b.notes, ""));
    NormalizeListExact(OrElse(b.tags, []));
    var cs := OrElse(b.capabilities, []);
    forall i | 0 <= i < |cs| ensures NormalCapability(NormalizeCapability(cs[i])) {
      CapabilityIsNormal(cs[i]);
    }
  }

  lemma CapabilityIsKept(c: Capability)
    requires NormalCapability(c)
    ensures NormalizeCapability(Described(c.domain, Some(c.skills), Some(c.resourceTypes))) == c
  {
    TrimIsTrimmed(c.domain);
    NormalIsKept(c.skills);
    NormalIsKept(c.resourceTypes);
  }

  lemma CapabilitiesAreKept(cs: seq<Capability>)
    requires forall i :: 0 <= i < |cs| ==> NormalCapability(cs[i])
    ensures NormalizeCapabilities(AsInputs(cs)) == cs
  {
    forall i | 0 <= i < |cs| ensures NormalizeCapability(AsInputs(cs)[i]) == cs[i] {
      CapabilityIsKept(cs[i]);
    }
  }

  /** The schema takes a manifest back exactly when its trimmed name and profile are not empty. */
  lemma AcceptsManifest(m: Manifest)
    ensures Accepts(AsBody(m)) <==> InRange(m) && m.name != "" && m.profile != ""
  {
    var b := AsBody(m);
    assert FillEscalation(OrElse(b.escalation, NO_ESCALATION)) == m.escalation;
    assert forall i :: 0 <= i < |AsInputs(m.capabilities)| ==> AsInputs(m.capabilities)[i].Described?;
  }

  lemma TextsAreKept(m: Manifest)
    requires Normal(m)
    ensures Trim(m.name) == m.name && Trim(m.profile) == m.profile && Trim(m.notes) == m.notes
    ensures NormalizeList(m.tags) == m.tags
  {
    TrimIsTrimmed(m.name);
    TrimIsTrimmed(m.profile);
    TrimIsTrimmed(m.notes);
    NormalIsKept(m.tags);
  }

  /** The parts of a manifest that a second transform could touch, and does not. */
  predicate Kept(m: Manifest) {
    && Trim(m.name) == m.name && Trim(m.profile) == m.profile && Trim(m.notes) == m.notes
    && NormalizeList(m.tags) == m.tags && NormalizeCapabilities(AsInputs(m.capabilities)) == m.capabilities
  }

  lemma NormalIsKeptWhole(m: Manifest)
    requires Normal(m)
    ensures Kept(m)
  {
    TextsAreKept(m);
    CapabilitiesAreKept(m.capabilities);
  }

  lemma NormalizedFixed(m: Manifest, role: Role)
    requires Kept(m)
    ensures Normalized(AsBody(m), role) == m.(role := role)
  {
  }

  lemma TransformFixed(m: Manifest, roles: RoleTable)
    requires Normal(m) && Accepts(AsBody(m))
    ensures Transform(AsBody(m), roles) == m
  {
    NormalIsKeptWhole(m);
    NormalizedFixed(m, m.role);
  }

  lemma WrittenReadsBack(b: Body)
    ensures Extract(Written(b)) == b
  {
    match b.version
    case None =>
    case Some(v) =>
  }

  /** Writing a normal manifest and reading it again gives the manifest, exactly when its name and profile are
      not empty; otherwise nothing is written. */
  lemma ManifestRoundTripExact(m: Manifest, roles: RoleTable)
    requires Normal(m) && InRange(m)
    ensures Serialize(Flat(AsBody(m)), roles).Some? <==> m.name != "" && m.profile != ""
    ensures m.name != "" && m.profile != "" ==> Parse(Serialize(Flat(AsBody(m)), roles).value, roles) == Some(m)
  {
    AcceptsManifest(m);
    if m.name != "" && m.profile != "" {
      WrittenReadsBack(AsBody(m));
      TransformFixed(m, roles);
    }
  }

  /** A parsed document survives a second trip exactly when the name and profile it was read from are not blank.
      The schema counts characters before trimming, so a blank name is parsed once and refused the second time. */
  lemma SecondTripExact(d: Document, roles: RoleTable)
    requires Accepts(Extract(d))
    ensures Serialize(Flat(AsBody(Parse(d, roles).value)), roles).Some?
       <==> Trim(Extract(d).name.value) != "" && Trim(OrElse(Extract(d).profile, "general")) != ""
    ensures Serialize(Flat(AsBody(Parse(d, roles).value)), roles).Some?
        ==> Parse(Serialize(Flat(AsBody(Parse(d, roles).value)), roles).value, roles) == Parse(d, roles)
  {
    ParsedIsNormal(d, roles);
    ManifestRoundTripExact(Parse(d, roles).value, roles);
  }

  /** A name of blanks passes the schema, and the manifest it becomes cannot be written. */
  lemma BlankNameIsRefusedLater(b: Body, roles: RoleTable)
    requires Accepts(b) && Trim(b.name.value) == ""
    ensures Parse(Flat(b), roles).Some? && Serialize(Flat(AsBody(Parse(Flat(b), roles).value)), roles) == None
  {
    SecondTripExact(Flat(b), roles);
  }

  /** Reading back what was written from any document: a document whose own keys pass the schema is read back as
      those keys, everything else as it parses. Flat documents are therefore always read back as they parse. */
  lemma DocumentRoundTrip(d: Document, roles: RoleTable)
    ensures Accepts(d.top) ==> Serialize(d, roles).Some? && Parse(Serialize(d, roles).value, roles) == Parse(Flat(d.top), roles)
    ensures !Accepts(d.top) && Parse(d, roles).Some? ==>
              (Serialize(d, roles).Some?
               && (Trim(Extract(d).name.value) != "" && Trim(OrElse(Extract(d).profile, "general")) != ""
                   <==> Parse(Serialize(d, roles).value, roles) == Parse(d, roles)))
    ensures d.agent.None? && Parse(d, roles).Some? ==> Serialize(d, roles).Some? && Parse(Serialize(d, roles).value, roles) == Parse(d, roles)
    ensures Serialize(d, roles) == None <==> !Accepts(d.top) && Parse(d, roles) == None
  {
    WrittenReadsBack(d.top);
    if !Accepts(d.top) && Parse(d, roles).Some? {
      var m := Parse(d, roles).value;
      ParsedIsNormal(d, roles);
      WrittenReadsBack(AsBody(m));
      AcceptsManifest(m);
      if Accepts(AsBody(m)) {
        TransformFixed(m, roles);
      }
    }
  }

  /** A file with a complete top level and an agent record of another name is parsed as the record but written as
      the top level, so the trip never gives the parsed manifest back. */
  lemma MixedDocumentChangesMeaning(top: Body, nested: Body, roles: RoleTable)
    requires Accepts(top) && Accepts(Extract(Document(top, Some(nested))))
    requires Trim(top.name.value) != Trim(nested.name.value)
    ensures Serialize(Document(top, Some(nested)), roles).Some?
    ensures Parse(Serialize(Document(top, Some(nested)), roles).value, roles) != Parse(Document(top, Some(nested)), roles)
  {
    DocumentRoundTrip(Document(top, Some(nested)), roles);
    assert Parse(Flat(top), roles).value.name == Trim(top.name.value);
    assert Parse(Document(top, Some(nested)), roles).value.name == Trim(nested.name.value);
  }

  /** The schema, key by key: what a record may leave out and what its values must be. */
  lemma AcceptsExact(b: Body)
    ensures Accepts(b)
       <==> && (b.version == None || b.version.value >= 1)
            && b.name != None && b.name.value != ""
            && b.profile != Some("")
            && (b.capabilities == None || forall c :: c in b.capabilities.value && c.Bare? ==> c.text != "")
            && (b.escalation == None
                || (&& (b.escalation.value.priority == None || 0 <= b.escalation.value.priority.value <= 100)
                    && (b.escalation.value.maxConcurrent == None || b.escalation.value.maxConcurrent.value >= 0)))
  {
    CapabilitiesExact(b);
    EscalationExact(b);
  }

  lemma CapabilitiesExact(b: Body)
    ensures AcceptsCapabilities(OrElse(b.capabilities, []))
       <==> b.capabilities == None || forall c :: c in b.capabilities.value && c.Bare? ==> c.text != ""
  {
    if b.capabilities.Some? {
      var cs := b.capabilities.value;
      assert forall i :: 0 <= i < |cs| ==> cs[i] in cs;
    }
  }

  lemma EscalationExact(b: Body)
    ensures EscalationInRange(FillEscalation(OrElse(b.escalation, NO_ESCALATION)))
       <==> b.escalation == None
            || (&& (b.escalation.value.priority == None || 0 <= b.escalation.value.priority.value <= 100)
                && (b.escalation.value.maxConcurrent == None || b.escalation.value.maxConcurrent.value >= 0))
  {
  }

  /** The word a profile is looked up by. */
  function ProfileWord(b: Body): string {
    match b.profile
    case Some(profile) => Lower(Trim(profile))
    case None => Lower(Trim("general"))
  }

  lemma RoleIs(b: Body)
    requires Accepts(b)
    ensures Transform(b, KeywordRole).role == if b.role.Some? then b.role.value else KeywordRole(ProfileWord(b))
  {
  }

  /** The role of a parsed record, under the repository's table: its own, else the one its profile stands for in any
      letter case and with any white space around it. */
  lemma RoleExact(b: Body)
    requires Accepts(b)
    ensures b.role.Some? ==> Transform(b, KeywordRole).role == b.role.value
    ensures b.role.None? ==> StandsForRole(ProfileWord(b), Transform(b, KeywordRole).role)
  {
    RoleIs(b);
    TablesAreApart(ProfileWord(b));
  }

  /** The words of each role; a word of none of them stands for another role. */
  predicate StandsForRole(word: string, role: Role) {
    && (role == Manager <==> word in {"manager", "architect", "lead", "owner"})
    && (role == Frontend <==> word in {"frontend", "ui", "design-system"})
    && (role == Backend <==> word in {"backend", "executor", "implementer", "developer"})
    && (role == Tester <==> word in {"tester", "qa", "quality"})
    && (role == Reviewer <==> word in {"reviewer", "review", "auditor"})
  }

  /** No word stands for two roles. */
  lemma TablesAreApart(word: string)
    ensures StandsForRole(word, KeywordRole(word))
  {
  }

  /** What a record leaves out is filled in; what it says is kept, but for white space, blanks and repetitions. */
  lemma DefaultsFillIn(b: Body, roles: RoleTable)
    requires Accepts(b)
    ensures var m := Transform(b, roles);
            && m.version == (if b.version.Some? then b.version.value else 1)
            && m.name == Trim(b.name.value)
            && m.provider == (if b.provider.Some? then b.provider.value else OtherProvider)
            && m.availability == (if b.availability.Some? then b.availability.value else Online)
            && m.autoStart == (b.autoStart == Some(true)) && m.humanEscalation == (b.humanEscalation == Some(true))
    ensures var e := Transform(b, roles).escalation;
            if b.escalation.None? then e == Escalation(WhenAvailable, 50, 3)
            else && e.optIn == (if b.escalation.value.optIn.Some? then b.escalation.value.optIn.value else WhenAvailable)
                 && e.priority == (if b.escalation.value.priority.Some? then b.escalation.value.priority.value else 50)
                 && e.maxConcurrent == (if b.escalation.value.maxConcurrent.Some? then b.escalation.value.maxConcurrent.value else 3)
  {
  }

  // ---- the text -----------------------------------------------------------------------------------------------

  datatype Format = Yaml | Json

  /** A pair of library functions between documents and text. */
  datatype Codec = Codec(encode: Document -> string, decode: string -> Option<Document>)

  /** The text of this one document: decoding it without its outer white space gives the document back; JSON text
      starts with a brace and ends without white space, YAML text does not start with a brace or a bracket. */
  predicate Carries(c: Codec, format: Format, w: Document) {
    var text := c.encode(w);
    && c.decode(Trim(text)) == Some(w)
    && match format
       case Json => Trimmed(text) && StartsWith(text, "{")
       case Yaml => DetectFormat(Trim(text)) == Yaml
  }

  function DetectFormat(content: string): Format {
    if StartsWith(content, "{") || StartsWith(content, "[") then Json else Yaml
  }

  /** Text is taken for JSON exactly when it starts with a brace or a bracket. */
  lemma DetectExact(content: string)
    ensures DetectFormat(content) == Json <==> content != "" && content[0] in {'{', '['}
  {
    assert content != "" ==> content[..1] == [content[0]];
  }

  function SerializeText(d: Document, format: Format, json: Codec, yaml: Codec, roles: RoleTable): Option<string> {
    match Serialize(d, roles)
    case None => None
    case Some(w) => Some(WrittenText(w, format, json, yaml))
  }

  function Decode(content: string, format: Option<Format>, json: Codec, yaml: Codec): Option<Document> {
    var text := Trim(content);
    (if OrElse(format, DetectFormat(text)) == Json then json else yaml).decode(text)
  }

  function ParseDecoded(d: Option<Document>, roles: RoleTable): Option<Manifest> {
    match d
    case None => None
    case Some(document) => Parse(document, roles)
  }

  function ParseText(content: string, format: Option<Format>, json: Codec, yaml: Codec, roles: RoleTable): Option<Manifest> {
    ParseDecoded(Decode(content, format, json, yaml), roles)
  }

  lemma TrimDropsNewline(s: string)
    requires Trimmed(s) && s != ""
    ensures Trim(s + "\n") == s
  {
    var t := s + "\n";
    assert t[0] == s[0] && TrimStart(t) == t;
    assert t[..|t| - 1] == s && IsSpace('\n');
  }

  /** The text round trip, in both formats, with the format given or detected from the text. All that is asked of the
      library is that it carries the one document that is written. */
  lemma TextRoundTrip(d: Document, format: Format, declared: bool, json: Codec, yaml: Codec, roles: RoleTable)
    ensures var w := Serialize(d, roles);
            w.Some? && Carries(if format == Json then json else yaml, format, w.value) ==>
              ParseText(SerializeText(d, format, json, yaml, roles).value, if declared then Some(format) else None, json, yaml, roles)
              == Parse(w.value, roles)
  {
    var w := Serialize(d, roles);
    if w.Some? && Carries(if format == Json then json else yaml, format, w.value) {
      WrittenTextDecodes(w.value, format, declared, json, yaml);
    }
  }

  function WrittenText(w: Document, format: Format, json: Codec, yaml: Codec): string {
    match format case Json => json.encode(w) + "\n" case Yaml => yaml.encode(w)
  }

  lemma WrittenTextDecodes(w: Document, format: Format, declared: bool, json: Codec, yaml: Codec)
    requires Carries(if format == Json then json else yaml, format, w)
    ensures Decode(WrittenText(w, format, json, yaml), if declared then Some(format) else None, json, yaml) == Some(w)
  {
    match format
    case Json => JsonReadsBack(w, json);
    case Yaml =>
  }

  lemma JsonReadsBack(w: Document, json: Codec)
    requires Carries(json, Json, w)
    ensures var text := json.encode(w) + "\n"; json.decode(Trim(text)) == Some(w) && DetectFormat(Trim(text)) == Json
  {
    var s := json.encode(w);
    TrimDropsNewline(s);
    TrimIsTrimmed(s);
  }

  /** A normal manifest with a name and a profile survives the trip through text. */
  lemma ManifestTextRoundTrip(m: Manifest, format: Format, declared: bool, json: Codec, yaml: Codec, roles: RoleTable)
    requires Normal(m) && InRange(m) && m.name != "" && m.profile != ""
    requires Carries(if format == Json then json else yaml, format, Written(AsBody(m)))
    ensures var text := SerializeText(Flat(AsBody(m)), format, json, yaml, roles);
            && text.Some?
            && ParseText(text.value, if declared then Some(format) else None, json, yaml, roles) == Some(m)
  {
    AcceptsManifest(m);
    TextRoundTrip(Flat(AsBody(m)), format, declared, json, yaml, roles);
    ManifestRoundTripExact(m, roles);
  }
}
