/** From a validated team template to agent manifests (packages/syncpoint-adapters/src/agent-team-template.ts). */
module TeamMaterialize {
  import opened Text
  import opened Manifest
  import T = TeamTemplate

  /** A member of a template file: a key and the record a manifest has, without a version of its own. */
  datatype RawMember = RawMember(key: Option<string>, body: Body)

  /** A member after validation. Its capabilities are kept as they were written. */
  datatype Member = Member(
    key: string, name: string, profile: string, provider: Provider, role: Role, tags: seq<string>,
    capabilities: seq<CapabilityInput>, availability: Availability, autoStart: bool, notes: string,
    escalation: Escalation, humanEscalation: bool)

  /** The schema of a member. */
  predicate AcceptsMember(raw: RawMember) {
    raw.body.version.None? && Accepts(raw.body) && raw.key != Some("")
  }

  function MemberOf(key: string, b: Body, roles: RoleTable): Member
    requires Accepts(b)
  {
    Member(key, Trim(b.name.value), Trim(OrElse(b.profile, "general")), OrElse(b.provider, AutoDetect),
           ResolveRole(b.role, OrElse(b.profile, "general"), roles), NormalizeList(OrElse(b.tags, [])),
           OrElse(b.capabilities, []), OrElse(b.availability, Online), OrElse(b.autoStart, false),
           Trim(OrElse(b.notes, "")), FillEscalation(OrElse(b.escalation, NO_ESCALATION)),
           OrElse(b.humanEscalation, false))
  }

  function ValidateMember(raw: RawMember, roles: RoleTable): T.Result<Member>
    requires AcceptsMember(raw)
  {
    var parsed := T.ParseMember(T.RawMember(raw.key, raw.body.name.value));
    if parsed.Err? then T.Err(parsed.error) else T.Ok(MemberOf(parsed.value.key, raw.body, roles))
  }

  datatype Options = Options(namePrefix: Option<string>, defaultProvider: Option<Provider>)

  /** The record handed to the manifest schema, for a joined name and a chosen provider. */
  function BodyOf(version: int, name: string, provider: Provider, m: Member): Body {
    Body(Some(version), Some(name), Some(m.profile), Some(provider), Some(m.role), Some(m.tags), Some(m.capabilities),
         Some(m.availability), Some(m.autoStart), Some(m.notes), Some(AsEscalationInput(m.escalation)),
         Some(m.humanEscalation))
  }

  function AsEscalationInput(e: Escalation): EscalationInput {
    EscalationInput(Some(e.optIn), Some(e.priority), Some(e.maxConcurrent))
  }

  datatype Materialized = Materialized(key: string, fileStem: string, manifest: Manifest)

  function Assemble(key: string, stem: T.Result<string>, manifest: Option<Manifest>): Option<Materialized> {
    if stem.Err? || manifest.None? then None else Some(Materialized(key, stem.value, manifest.value))
  }

  /** None: the call throws. */
  function MaterializeMember(version: int, m: Member, options: Options, roles: RoleTable): Option<Materialized> {
    var name := T.JoinNamePrefix(options.namePrefix, m.name);
    Assemble(m.key, T.FileStem(options.namePrefix, m.key),
             ParseBody(BodyOf(version, name, OrElse(options.defaultProvider, m.provider), m), roles))
  }

  /** Array.map with a callback that may throw. */
  function MapAll<A(!new), B>(items: seq<A>, f: A -> Option<B>): Option<seq<B>> {
    if items == [] then Some([])
    else
      var first, rest := f(items[0]), MapAll(items[1..], f);
      if first.None? || rest.None? then None else Some([first.value] + rest.value)
  }

  function Materialize(version: int, members: seq<Member>, options: Options, roles: RoleTable): Option<seq<Materialized>> {
    MapAll(members, (m: Member) => MaterializeMember(version, m, options, roles))
  }

  // ---- what materialisation keeps -------------------------------------------------------------------------

  /** The member's own record as a manifest file would hold it, under the joined name and the chosen provider. */
  function OwnRecord(version: int, name: string, provider: Provider, b: Body): Body {
    b.(version := Some(version), name := Some(name), provider := Some(provider))
  }

  lemma SameEscalation(e: Escalation)
    ensures FillEscalation(AsEscalationInput(e)) == e
  {
  }

  lemma AcceptsBodyOf(version: int, name: string, provider: Provider, key: string, b: Body, roles: RoleTable)
    requires version >= 1 && Accepts(b)
    ensures Accepts(BodyOf(version, name, provider, MemberOf(key, b, roles)))
       <==> name != "" && MemberOf(key, b, roles).profile != ""
  {
    SameEscalation(FillEscalation(OrElse(b.escalation, NO_ESCALATION)));
  }

  lemma AcceptsOwnRecord(version: int, name: string, provider: Provider, b: Body)
    requires version >= 1 && Accepts(b)
    ensures Accepts(OwnRecord(version, name, provider, b)) <==> name != ""
  {
  }

  lemma SecondPass(b: Body)
    requires Accepts(b)
    ensures Trim(Trim(OrElse(b.profile, "general"))) == Trim(OrElse(b.profile, "general"))
    ensures Trim(Trim(OrElse(b.notes, ""))) == Trim(OrElse(b.notes, ""))
    ensures NormalizeList(NormalizeList(OrElse(b.tags, []))) == NormalizeList(OrElse(b.tags, []))
  {
    TrimIsTrimmed(OrElse(b.profile, "general"));
    TrimIsTrimmed(Trim(OrElse(b.profile, "general")));
    TrimIsTrimmed(OrElse(b.notes, ""));
    TrimIsTrimmed(Trim(OrElse(b.notes, "")));
    NormalizeListFixed(OrElse(b.tags, []));
  }

  /** Validating first and reading the result as a manifest is reading the record itself: texts and lists are not
      changed by a second pass. */
  lemma SameManifest(version: int, name: string, provider: Provider, key: string, b: Body, roles: RoleTable)
    requires Accepts(b) && Accepts(BodyOf(version, name, provider, MemberOf(key, b, roles)))
    requires Accepts(OwnRecord(version, name, provider, b))
    ensures Transform(BodyOf(version, name, provider, MemberOf(key, b, roles)), roles)
         == Transform(OwnRecord(version, name, provider, b), roles)
  {
    var m := MemberOf(key, b, roles);
    SameNormalized(version, name, provider, key, b, m.role, roles);
  }

  lemma SameNormalized(version: int, name: string, provider: Provider, key: string, b: Body, role: Role, roles: RoleTable)
    requires Accepts(b) && Accepts(BodyOf(version, name, provider, MemberOf(key, b, roles)))
    requires Accepts(OwnRecord(version, name, provider, b))
    ensures Normalized(BodyOf(version, name, provider, MemberOf(key, b, roles)), role)
         == Normalized(OwnRecord(version, name, provider, b), role)
  {
    SecondPass(b);
    SameEscalation(FillEscalation(OrElse(b.escalation, NO_ESCALATION)));
  }

  lemma ValidatedMember(raw: RawMember, m: Member, prefix: Option<string>, roles: RoleTable)
    requires AcceptsMember(raw) && ValidateMember(raw, roles) == T.Ok(m)
    ensures m == MemberOf(m.key, raw.body, roles) && T.FileStem(prefix, m.key).Ok?
  {
    T.ParsedKeyIsSlug(T.RawMember(raw.key, raw.body.name.value));
    T.StemExists(prefix, m.key);
  }

  /** The name a member is given, and its provider. */
  function GivenName(raw: RawMember, options: Options): string
    requires AcceptsMember(raw)
  {
    T.JoinNamePrefix(options.namePrefix, Trim(raw.body.name.value))
  }

  function GivenProvider(raw: RawMember, options: Options): Provider {
    OrElse(options.defaultProvider, OrElse(raw.body.provider, AutoDetect))
  }

  lemma BodiesAgree(version: int, name: string, provider: Provider, key: string, b: Body, roles: RoleTable)
    requires version >= 1 && Accepts(b)
    ensures var body, own := BodyOf(version, name, provider, MemberOf(key, b, roles)), OwnRecord(version, name, provider, b);
            && (ParseBody(body, roles).Some? <==> name != "" && MemberOf(key, b, roles).profile != "")
            && (ParseBody(body, roles).Some? ==> ParseBody(body, roles) == ParseBody(own, roles))
  {
    AcceptsBodyOf(version, name, provider, key, b, roles);
    AcceptsOwnRecord(version, name, provider, b);
    if Accepts(BodyOf(version, name, provider, MemberOf(key, b, roles))) {
      SameManifest(version, name, provider, key, b, roles);
    }
  }

  lemma AssembleExact(key: string, stem: T.Result<string>, manifest: Option<Manifest>, own: Option<Manifest>)
    requires stem.Ok? && (manifest.Some? ==> manifest == own)
    ensures Assemble(key, stem, manifest).Some? <==> manifest.Some?
    ensures manifest.Some? ==> Some(Assemble(key, stem, manifest).value.manifest) == own
  {
  }

  lemma MemberMaterializes(version: int, key: string, b: Body, stem: T.Result<string>, name: string, provider: Provider,
                           roles: RoleTable)
    requires version >= 1 && Accepts(b) && stem.Ok?
    ensures var r := Assemble(key, stem, ParseBody(BodyOf(version, name, provider, MemberOf(key, b, roles)), roles));
            && (r.Some? <==> name != "" && MemberOf(key, b, roles).profile != "")
            && (r.Some? ==> Some(r.value.manifest) == ParseBody(OwnRecord(version, name, provider, b), roles))
  {
    BodiesAgree(version, name, provider, key, b, roles);
    AssembleExact(key, stem, ParseBody(BodyOf(version, name, provider, MemberOf(key, b, roles)), roles),
                  ParseBody(OwnRecord(version, name, provider, b), roles));
  }

  /** A validated member materialises exactly when its trimmed profile is not empty and its name, or the prefix in
      front of it, is not blank; and then to the manifest of its own record. Validation counts characters before it
      trims, so a template can pass it and still fail here. */
  lemma MaterializeExact(version: int, raw: RawMember, m: Member, options: Options, roles: RoleTable)
    requires version >= 1 && AcceptsMember(raw) && ValidateMember(raw, roles) == T.Ok(m)
    ensures MaterializeMember(version, m, options, roles).Some?
       <==> GivenName(raw, options) != "" && m.profile != ""
    ensures MaterializeMember(version, m, options, roles).Some? ==>
              Some(MaterializeMember(version, m, options, roles).value.manifest)
              == ParseBody(OwnRecord(version, GivenName(raw, options), GivenProvider(raw, options), raw.body), roles)
    ensures m.profile == Trim(OrElse(raw.body.profile, "general"))
    ensures MaterializeMember(version, m, options, roles).Some? ==>
              && MaterializeMember(version, m, options, roles).value.key == m.key
              && T.FileStem(options.namePrefix, m.key) == T.Ok(MaterializeMember(version, m, options, roles).value.fileStem)
  {
    ValidatedMember(raw, m, options.namePrefix, roles);
    MemberMaterializes(version, m.key, raw.body, T.FileStem(options.namePrefix, m.key), GivenName(raw, options),
                       GivenProvider(raw, options), roles);
  }

  ghost predicate AllMapped<A(!new), B>(items: seq<A>, f: A -> Option<B>, r: seq<B>) {
    |r| == |items| && forall i :: 0 <= i < |items| ==> f(items[i]) == Some(r[i])
  }

  lemma {:induction false} MapAllExact<A(!new), B>(items: seq<A>, f: A -> Option<B>)
    ensures MapAll(items, f).Some? <==> forall i :: 0 <= i < |items| ==> f(items[i]).Some?
    ensures MapAll(items, f).Some? ==> AllMapped(items, f, MapAll(items, f).value)
    decreases |items|
  {
    if items != [] {
      MapAllExact(items[1..], f);
      assert forall i :: 0 < i < |items| ==> items[i] == items[1..][i - 1];
    }
  }

  /** One member that fails fails the team; otherwise there is one manifest per member, in order. */
  lemma MaterializeAll(version: int, members: seq<Member>, options: Options, roles: RoleTable)
    ensures Materialize(version, members, options, roles).Some?
       <==> forall i :: 0 <= i < |members| ==> MaterializeMember(version, members[i], options, roles).Some?
    ensures Materialize(version, members, options, roles).Some? ==>
              |Materialize(version, members, options, roles).value| == |members|
              && forall i :: 0 <= i < |members| ==>
                   MaterializeMember(version, members[i], options, roles) == Some(Materialize(version, members, options, roles).value[i])
  {
    var f := (m: Member) => MaterializeMember(version, m, options, roles);
    MapAllExact(members, f);
    assert forall i :: 0 <= i < |members| ==> f(members[i]) == MaterializeMember(version, members[i], options, roles);
  }

  /** A template member is accepted exactly when its record is, names no version, and its key, if given, is not empty. */
  lemma AcceptsMemberExact(raw: RawMember)
    ensures AcceptsMember(raw) <==> Accepts(raw.body) && raw.body.version == None && (raw.key.Some? ==> |raw.key.value| > 0)
  {
  }
}
