/**
  What survives `Marshal` followed by `Unmarshal`.

  `Canonical*` is the document a reader of the encoding must see: members named with a leading
  `@` gone at every depth, presence bits set exactly where a member is emitted. `Conforms*` is
  what a caller can check beforehand: additional members are registered for their scope with
  accepted values, and links are extension values exactly under registered names.
 */
module RoundTrip {
  import opened Documents
  import opened Registries
  import opened Encoder
  import opened Decoder

  function CanonicalField(field: Field): Field {
    Field(field.value, field.Has())
  }

  function CanonicalMembers(members: Option<Members>): Option<Members> {
    if members.Some? then Some(StripMembers(members.value)) else None
  }

  function CanonicalHreflang(hreflang: Option<Hreflang>): Option<Hreflang> {
    match hreflang
    case None => None
    case Some(Hreflang(values, many)) =>
      if many then hreflang else Some(Hreflang([if values == [] then "" else values[0]], false))
  }

  function CanonicalJSONAPI(jsonapi: JSONAPI): JSONAPI {
    jsonapi.(
      version := CanonicalField(jsonapi.version),
      meta := CanonicalMembers(jsonapi.meta),
      additional := StripMembers(jsonapi.additional))
  }

  function CanonicalLink(link: Link): Link {
    if link.extension.Some? then ExtensionLink(StripAtMembers(link.extension.value))
    else if link.isNull then NullLink()
    else if !link.isObject then URI(link.href.value)
    else
      Link(
        Field(link.href.value, true),
        CanonicalField(link.rel),
        if link.describedBy.Some? then Some(CanonicalLink(link.describedBy.value)) else None,
        CanonicalField(link.title),
        CanonicalField(link.targetType),
        CanonicalHreflang(link.hreflang),
        CanonicalMembers(link.meta),
        StripMembers(link.additional),
        true, false, None)
  }

  function CanonicalLinks(links: Links): Links {
    map name | name in links && !IsAtName(name) :: CanonicalLink(links[name])
  }

  function CanonicalOptionalLinks(links: Option<Links>): Option<Links> {
    if links.Some? then Some(CanonicalLinks(links.value)) else None
  }

  function CanonicalIdentifier(identifier: Identifier): Identifier {
    identifier.(
      id := CanonicalField(identifier.id),
      lid := CanonicalField(identifier.lid),
      meta := CanonicalMembers(identifier.meta),
      additional := StripMembers(identifier.additional))
  }

  function CanonicalRelationshipData(data: RelationshipData): RelationshipData {
    match data
    case NullRelationship => NullRelationship
    case ToOne(one) => ToOne(CanonicalIdentifier(one))
    case ToMany(many) => ToMany(seq(|many|, i requires 0 <= i < |many| => CanonicalIdentifier(many[i])))
  }

  function CanonicalRelationship(relationship: Relationship): Relationship {
    Relationship(
      CanonicalOptionalLinks(relationship.links),
      if relationship.data.Some? then Some(CanonicalRelationshipData(relationship.data.value)) else None,
      CanonicalMembers(relationship.meta),
      StripMembers(relationship.additional))
  }

  function CanonicalRelationships(relationships: Relationships): Relationships {
    map name | name in relationships && !IsAtName(name) :: CanonicalRelationship(relationships[name])
  }

  function CanonicalResource(resource: Resource): Resource {
    Resource(
      resource.resourceType,
      CanonicalField(resource.id),
      CanonicalField(resource.lid),
      CanonicalMembers(resource.attributes),
      if resource.relationships.Some? then Some(CanonicalRelationships(resource.relationships.value)) else None,
      CanonicalOptionalLinks(resource.links),
      CanonicalMembers(resource.meta),
      StripMembers(resource.additional))
  }

  function CanonicalResources(resources: seq<Resource>): seq<Resource> {
    seq(|resources|, i requires 0 <= i < |resources| => CanonicalResource(resources[i]))
  }

  function CanonicalPrimaryData(data: PrimaryData): PrimaryData {
    match data
    case NullData => NullData
    case ResourceData(one) => ResourceData(CanonicalResource(one))
    case ResourceCollection(many) => ResourceCollection(CanonicalResources(many))
  }

  function CanonicalErrorSource(source: ErrorSource): ErrorSource {
    ErrorSource(
      CanonicalField(source.pointer),
      CanonicalField(source.parameter),
      CanonicalField(source.header),
      StripMembers(source.additional))
  }

  function CanonicalError(error: ErrorObject): ErrorObject {
    ErrorObject(
      CanonicalField(error.id),
      CanonicalOptionalLinks(error.links),
      CanonicalField(error.status),
      CanonicalField(error.code),
      CanonicalField(error.title),
      CanonicalField(error.detail),
      if error.source.Some? then Some(CanonicalErrorSource(error.source.value)) else None,
      CanonicalMembers(error.meta),
      StripMembers(error.additional))
  }

  function CanonicalErrors(errors: seq<ErrorObject>): seq<ErrorObject> {
    seq(|errors|, i requires 0 <= i < |errors| => CanonicalError(errors[i]))
  }

  function CanonicalDocument(document: Document): Document {
    Document(
      if document.jsonapi.Some? then Some(CanonicalJSONAPI(document.jsonapi.value)) else None,
      CanonicalOptionalLinks(document.links),
      if document.data.Some? then Some(CanonicalPrimaryData(document.data.value)) else None,
      if document.included.Some? then Some(CanonicalResources(document.included.value)) else None,
      if document.errors.Some? then Some(CanonicalErrors(document.errors.value)) else None,
      CanonicalMembers(document.meta),
      StripMembers(document.additional))
  }

  // Registration: `validateScopedMembers` and `validateLinkDocumentMembers`, with the value
  // validators applied to what the reader extracts.

  predicate ConformsMembers(registry: Registry, scope: Scope, members: Members) {
    forall name | name in members && !IsAtName(name) ::
      registry.Registered(scope, name) && registry.Accepts(scope, name, StripAtMembers(members[name]))
  }

  /** A link outside a links object: an extension value there would be read back as a link. */
  predicate ConformsLink(registry: Registry, link: Link) {
    link.extension.None?
    && (link.isObject && !link.isNull ==>
          && ConformsMembers(registry, LinkObjectScope, link.additional)
          && (link.describedBy.Some? ==> ConformsLink(registry, link.describedBy.value)))
  }

  predicate ConformsLinksMember(registry: Registry, name: string, link: Link) {
    if registry.Registered(LinksObjectScope, name) then
      && link.extension.Some?
      && registry.Accepts(LinksObjectScope, name, StripAtMembers(link.extension.value))
    else ConformsLink(registry, link)
  }

  predicate ConformsLinks(registry: Registry, links: Option<Links>) {
    links.Some? ==> forall name | name in links.value && !IsAtName(name) ::
      ConformsLinksMember(registry, name, links.value[name])
  }

  predicate ConformsIdentifier(registry: Registry, identifier: Identifier) {
    ConformsMembers(registry, IdentifierScope, identifier.additional)
  }

  predicate ConformsRelationshipData(registry: Registry, data: RelationshipData) {
    match data
    case NullRelationship => true
    case ToOne(one) => ConformsIdentifier(registry, one)
    case ToMany(many) => forall i | 0 <= i < |many| :: ConformsIdentifier(registry, many[i])
  }

  predicate ConformsRelationship(registry: Registry, relationship: Relationship) {
    && ConformsMembers(registry, RelationshipScope, relationship.additional)
    && ConformsLinks(registry, relationship.links)
    && (relationship.data.Some? ==> ConformsRelationshipData(registry, relationship.data.value))
  }

  predicate ConformsRelationships(registry: Registry, relationships: Relationships) {
    forall name | name in relationships && !IsAtName(name) :: ConformsRelationship(registry, relationships[name])
  }

  predicate ConformsResource(registry: Registry, resource: Resource) {
    && ConformsMembers(registry, ResourceScope, resource.additional)
    && ConformsLinks(registry, resource.links)
    && (resource.relationships.Some? ==> ConformsRelationships(registry, resource.relationships.value))
  }

  predicate ConformsResources(registry: Registry, resources: seq<Resource>) {
    forall i | 0 <= i < |resources| :: ConformsResource(registry, resources[i])
  }

  predicate ConformsPrimaryData(registry: Registry, data: PrimaryData) {
    match data
    case NullData => true
    case ResourceData(one) => ConformsResource(registry, one)
    case ResourceCollection(many) => ConformsResources(registry, many)
  }

  predicate ConformsError(registry: Registry, error: ErrorObject) {
    && ConformsMembers(registry, ErrorScope, error.additional)
    && ConformsLinks(registry, error.links)
    && (error.source.Some? ==> ConformsMembers(registry, ErrorSourceScope, error.source.value.additional))
  }

  predicate ConformsDocument(registry: Registry, document: Document) {
    && ConformsMembers(registry, TopLevelScope, document.additional)
    && (document.jsonapi.Some? ==> ConformsMembers(registry, JSONAPIScope, document.jsonapi.value.additional))
    && ConformsLinks(registry, document.links)
    && (document.data.Some? ==> ConformsPrimaryData(registry, document.data.value))
    && (document.included.Some? ==> ConformsResources(registry, document.included.value))
    && (document.errors.Some? ==> ConformsErrors(registry, document.errors.value))
  }

  // Leaves.

  lemma StringsReadBack(values: seq<string>)
    ensures DecodeStrings(EncodeStrings(values)) == Some(values)
  {
    assert DecodeStrings(EncodeStrings(values)).value == values;
  }

  lemma HreflangReadsBack(hreflang: Option<Hreflang>)
    ensures Lift(DecodeHreflang, OptionalHreflang(hreflang)) == Some(CanonicalHreflang(hreflang))
  {
    if hreflang.Some? && hreflang.value.many {
      StringsReadBack(hreflang.value.values);
    }
  }

  /** Core member names carry no namespace prefix, so no registered member is one of them. */
  ghost predicate CoreNames(members: Members) {
    forall name :: name in members ==> CoreName(name)
  }

  lemma RegisteredAreAdditional(registry: Registry, scope: Scope, core: Members, additional: Members)
    requires registry.WellFormed() && CoreNames(core)
    ensures forall name :: name in core + additional && registry.Registered(scope, name) ==>
      name in additional && !IsAtName(name)
  {
  }

  lemma ConformingReadBack(registry: Registry, scope: Scope, core: Members, additional: Members)
    requires registry.WellFormed() && CoreNames(core)
    requires ConformsMembers(registry, scope, additional)
    ensures ExtractMembers(registry, scope, core + additional) == Some(StripMembers(additional))
  {
    var all := core + additional;
    RegisteredAreAdditional(registry, scope, core, additional);
    forall name | name in all && registry.Registered(scope, name)
      ensures registry.Accepts(scope, name, StripAtMembers(all[name]))
    {
      assert all[name] == additional[name];
    }
    var extracted := ExtractMembers(registry, scope, all).value;
    forall name
      ensures name in extracted <==> name in StripMembers(additional)
    {
    }
    assert extracted == StripMembers(additional);
  }

  /** The additional members of an encoded object read back canonically exactly when they conform. */
  lemma AdditionalReadBack(registry: Registry, scope: Scope, core: Members, additional: Members)
    requires registry.WellFormed()
    requires core.Keys !! additional.Keys && CoreNames(core)
    ensures ExtractMembers(registry, scope, core + additional) == Some(StripMembers(additional))
      <==> ConformsMembers(registry, scope, additional)
  {
    var all := core + additional;
    if ConformsMembers(registry, scope, additional) {
      ConformingReadBack(registry, scope, core, additional);
    } else {
      var name :| name in additional && !IsAtName(name)
        && !(registry.Registered(scope, name) && registry.Accepts(scope, name, StripAtMembers(additional[name])));
      assert name in StripMembers(additional);
      assert all[name] == additional[name];
    }
  }

  /** Conforming additional members neither hide nor supply a core member. */
  lemma CoreMemberKept(registry: Registry, scope: Scope, core: Members, additional: Members, name: string)
    requires registry.WellFormed() && ConformsMembers(registry, scope, additional)
    requires ':' !in name && !IsAtName(name)
    ensures Get(core + additional, name) == Get(core, name)
  {
    assert name !in additional;
  }

  /** The names a core object can hold, all of them free of ':' and '@'. */
  ghost predicate CoreName(name: string) {
    ':' !in name && !IsAtName(name)
  }

  lemma CoreNamesOfResources()
    ensures CoreName("type") && CoreName("id") && CoreName("lid") && CoreName("attributes")
    ensures CoreName("relationships") && CoreName("links") && CoreName("data") && CoreName("meta")
  {
  }

  lemma CoreNamesOfLinks()
    ensures CoreName("href") && CoreName("rel") && CoreName("describedby") && CoreName("title")
    ensures CoreName("type") && CoreName("hreflang") && CoreName("meta")
  {
  }

  lemma CoreNamesOfErrors()
    ensures CoreName("id") && CoreName("links") && CoreName("status") && CoreName("code") && CoreName("title")
    ensures CoreName("detail") && CoreName("source") && CoreName("meta")
    ensures CoreName("pointer") && CoreName("parameter") && CoreName("header")
  {
  }

  lemma CoreNamesOfDocuments()
    ensures CoreName("jsonapi") && CoreName("links") && CoreName("data") && CoreName("included")
    ensures CoreName("errors") && CoreName("meta")
    ensures CoreName("version") && CoreName("ext") && CoreName("profile")
  {
  }

  lemma CoreMembersKept(registry: Registry, scope: Scope, core: Members, additional: Members)
    requires registry.WellFormed() && ConformsMembers(registry, scope, additional)
    ensures forall name {:trigger Get(core + additional, name)} ::
      CoreName(name) ==> Get(core + additional, name) == Get(core, name)
  {
    forall name | CoreName(name) ensures Get(core + additional, name) == Get(core, name) {
      CoreMemberKept(registry, scope, core, additional, name);
    }
  }

  lemma FieldReadsBack(field: Field)
    ensures DecodeString(OptionalString(field)) == Some(CanonicalField(field))
  {
  }

  lemma MembersReadBack(members: Option<Members>)
    ensures Lift(DecodeMembers, OptionalObject(members)) == Some(CanonicalMembers(members))
  {
  }

  // Each kind of object: first what a reader finds under every core name, then the object itself.

  lemma IdentifierCoreMembers(identifier: Identifier)
    ensures var core := IdentifierCore(identifier);
      && CoreNames(core)
      && Get(core, "type") == Some(String(identifier.resourceType))
      && Get(core, "id") == OptionalString(identifier.id)
      && Get(core, "lid") == OptionalString(identifier.lid)
      && Get(core, "meta") == OptionalObject(identifier.meta)
  {
  }

  lemma IdentifierMembers(registry: Registry, identifier: Identifier, all: Members)
    requires registry.WellFormed() && EncodeIdentifier(identifier) == Some(Object(all))
    ensures ExtractMembers(registry, IdentifierScope, all) == Some(StripMembers(identifier.additional))
      <==> ConformsIdentifier(registry, identifier)
    ensures ConformsIdentifier(registry, identifier) ==>
      && Get(all, "type") == Some(String(identifier.resourceType))
      && Get(all, "id") == OptionalString(identifier.id)
      && Get(all, "lid") == OptionalString(identifier.lid)
      && Get(all, "meta") == OptionalObject(identifier.meta)
  {
    var core := IdentifierCore(identifier);
    IdentifierCoreMembers(identifier);
    AdditionalReadBack(registry, IdentifierScope, core, identifier.additional);
    if ConformsIdentifier(registry, identifier) {
      CoreNamesOfResources();
      CoreMembersKept(registry, IdentifierScope, core, identifier.additional);
    }
  }

  lemma IdentifierReadsBack(registry: Registry, identifier: Identifier)
    requires registry.WellFormed() && EncodeIdentifier(identifier).Some?
    ensures DecodeIdentifier(registry, EncodeIdentifier(identifier).value) == Some(CanonicalIdentifier(identifier))
      <==> ConformsIdentifier(registry, identifier)
  {
    var all := EncodeIdentifier(identifier).value.members;
    IdentifierMembers(registry, identifier, all);
    if ConformsIdentifier(registry, identifier) {
      FieldReadsBack(identifier.id);
      FieldReadsBack(identifier.lid);
      MembersReadBack(identifier.meta);
      assert DecodeString(Get(all, "type")) == Some(Field(identifier.resourceType, true));
      assert DecodeString(Get(all, "id")) == Some(CanonicalField(identifier.id));
      assert DecodeString(Get(all, "lid")) == Some(CanonicalField(identifier.lid));
      assert Lift(DecodeMembers, Get(all, "meta")) == Some(CanonicalMembers(identifier.meta));
    }
  }

  lemma JSONAPICoreMembers(jsonapi: JSONAPI)
    ensures var core := JSONAPICore(jsonapi);
      && CoreNames(core)
      && Get(core, "version") == OptionalString(jsonapi.version)
      && Get(core, "ext") == OptionalStrings(jsonapi.ext)
      && Get(core, "profile") == OptionalStrings(jsonapi.profile)
      && Get(core, "meta") == OptionalObject(jsonapi.meta)
  {
  }

  lemma JSONAPIMembers(registry: Registry, jsonapi: JSONAPI, all: Members)
    requires registry.WellFormed() && EncodeJSONAPI(jsonapi) == Some(Object(all))
    ensures ExtractMembers(registry, JSONAPIScope, all) == Some(StripMembers(jsonapi.additional))
      <==> ConformsMembers(registry, JSONAPIScope, jsonapi.additional)
    ensures ConformsMembers(registry, JSONAPIScope, jsonapi.additional) ==>
      && Get(all, "version") == OptionalString(jsonapi.version)
      && Get(all, "ext") == OptionalStrings(jsonapi.ext)
      && Get(all, "profile") == OptionalStrings(jsonapi.profile)
      && Get(all, "meta") == OptionalObject(jsonapi.meta)
  {
    var core := JSONAPICore(jsonapi);
    JSONAPICoreMembers(jsonapi);
    AdditionalReadBack(registry, JSONAPIScope, core, jsonapi.additional);
    if ConformsMembers(registry, JSONAPIScope, jsonapi.additional) {
      CoreNamesOfDocuments();
      CoreMembersKept(registry, JSONAPIScope, core, jsonapi.additional);
    }
  }

  lemma OptionalStringsReadBack(values: Option<seq<string>>)
    ensures Lift(DecodeStrings, OptionalStrings(values)) == Some(values)
  {
    if values.Some? {
      StringsReadBack(values.value);
    }
  }

  lemma JSONAPIReadsBack(registry: Registry, jsonapi: JSONAPI)
    requires registry.WellFormed() && EncodeJSONAPI(jsonapi).Some?
    ensures DecodeJSONAPI(registry, EncodeJSONAPI(jsonapi).value) == Some(CanonicalJSONAPI(jsonapi))
      <==> ConformsMembers(registry, JSONAPIScope, jsonapi.additional)
  {
    var all := EncodeJSONAPI(jsonapi).value.members;
    JSONAPIMembers(registry, jsonapi, all);
    if ConformsMembers(registry, JSONAPIScope, jsonapi.additional) {
      FieldReadsBack(jsonapi.version);
      OptionalStringsReadBack(jsonapi.ext);
      OptionalStringsReadBack(jsonapi.profile);
      MembersReadBack(jsonapi.meta);
      assert DecodeString(Get(all, "version")) == Some(CanonicalField(jsonapi.version));
      assert Lift(DecodeStrings, Get(all, "ext")) == Some(jsonapi.ext);
      assert Lift(DecodeStrings, Get(all, "profile")) == Some(jsonapi.profile);
      assert Lift(DecodeMembers, Get(all, "meta")) == Some(CanonicalMembers(jsonapi.meta));
    }
  }

  lemma LinkCoreNames(link: Link, describedBy: Option<Tree>)
    ensures CoreNames(LinkCore(link, describedBy))
  {
    CoreNamesOfLinks();
  }

  lemma LinkCoreMembers(link: Link, describedBy: Option<Tree>)
    ensures var core := LinkCore(link, describedBy);
      && Get(core, "href") == Some(String(link.href.value))
      && Get(core, "rel") == OptionalString(link.rel)
      && Get(core, "describedby") == describedBy
      && Get(core, "title") == OptionalString(link.title)
      && Get(core, "type") == OptionalString(link.targetType)
      && Get(core, "hreflang") == OptionalHreflang(link.hreflang)
      && Get(core, "meta") == OptionalObject(link.meta)
  {
  }

  /** A link that `EncodeLink` writes as a JSON object. */
  predicate ObjectForm(link: Link) {
    link.extension.None? && !link.isNull && link.isObject
  }

  lemma LinkMembers(registry: Registry, link: Link, describedBy: Option<Tree>, all: Members)
    requires registry.WellFormed()
    requires ObjectWithMembers(LinkCore(link, describedBy), link.additional) == Some(Object(all))
    ensures ExtractMembers(registry, LinkObjectScope, all) == Some(StripMembers(link.additional))
      <==> ConformsMembers(registry, LinkObjectScope, link.additional)
    ensures ConformsMembers(registry, LinkObjectScope, link.additional) ==>
      && Get(all, "href") == Some(String(link.href.value))
      && Get(all, "rel") == OptionalString(link.rel)
      && Get(all, "describedby") == describedBy
      && Get(all, "title") == OptionalString(link.title)
      && Get(all, "type") == OptionalString(link.targetType)
      && Get(all, "hreflang") == OptionalHreflang(link.hreflang)
      && Get(all, "meta") == OptionalObject(link.meta)
  {
    var core := LinkCore(link, describedBy);
    LinkCoreNames(link, describedBy);
    LinkCoreMembers(link, describedBy);
    AdditionalReadBack(registry, LinkObjectScope, core, link.additional);
    if ConformsMembers(registry, LinkObjectScope, link.additional) {
      CoreNamesOfLinks();
      CoreMembersKept(registry, LinkObjectScope, core, link.additional);
    }
  }

  /** All members of a decoded link object except `describedby`. */
  lemma LinkLeavesReadBack(registry: Registry, link: Link, describedBy: Option<Tree>, all: Members)
    requires registry.WellFormed() && ConformsMembers(registry, LinkObjectScope, link.additional)
    requires ObjectWithMembers(LinkCore(link, describedBy), link.additional) == Some(Object(all))
    ensures Get(all, "describedby") == describedBy
    ensures ExtractMembers(registry, LinkObjectScope, all) == Some(StripMembers(link.additional))
    ensures DecodeString(Get(all, "href")) == Some(Field(link.href.value, true))
    ensures DecodeString(Get(all, "rel")) == Some(CanonicalField(link.rel))
    ensures DecodeString(Get(all, "title")) == Some(CanonicalField(link.title))
    ensures DecodeString(Get(all, "type")) == Some(CanonicalField(link.targetType))
    ensures Lift(DecodeHreflang, Get(all, "hreflang")) == Some(CanonicalHreflang(link.hreflang))
    ensures Lift(DecodeMembers, Get(all, "meta")) == Some(CanonicalMembers(link.meta))
  {
    LinkMembers(registry, link, describedBy, all);
    FieldReadsBack(link.rel);
    FieldReadsBack(link.title);
    FieldReadsBack(link.targetType);
    HreflangReadsBack(link.hreflang);
    MembersReadBack(link.meta);
  }

  /** Reading back one link, by recursion along `describedby`. */
  lemma {:induction false} LinkReadsBack(registry: Registry, link: Link)
    requires registry.WellFormed() && EncodeLink(link).Some?
    ensures DecodeLink(registry, EncodeLink(link).value) == Some(CanonicalLink(link))
      <==> ConformsLink(registry, link)
  {
    hide DecodeHreflang, DecodeString, StripMembers, LinkCore, ConformsMembers, ExtractMembers, HreflangValue;
    if ObjectForm(link) {
      var describedBy := EncodeDescribedBy(link).value;
      var all := EncodeLink(link).value.members;
      if link.describedBy.Some? {
        LinkReadsBack(registry, link.describedBy.value);
      }
      if ConformsMembers(registry, LinkObjectScope, link.additional) {
        LinkLeavesReadBack(registry, link, describedBy, all);
        assert "describedby" in all <==> describedBy.Some?;
      } else {
        LinkMembers(registry, link, describedBy, all);
      }
    }
  }

  lemma LinksMemberReadsBack(registry: Registry, name: string, link: Link)
    requires registry.WellFormed() && EncodeLink(link).Some?
    ensures DecodeLinksMember(registry, name, EncodeLink(link).value) == Some(CanonicalLink(link))
      <==> ConformsLinksMember(registry, name, link)
  {
    if !registry.Registered(LinksObjectScope, name) {
      LinkReadsBack(registry, link);
    }
  }

  lemma LinksReadBack(registry: Registry, links: Links)
    requires registry.WellFormed() && EncodeLinks(links).Some?
    ensures DecodeLinks(registry, EncodeLinks(links).value) == Some(CanonicalLinks(links))
      <==> ConformsLinks(registry, Some(links))
  {
    var all := EncodeLinks(links).value.members;
    forall name | name in links
      ensures name in all && all[name] == EncodeLink(links[name]).value
      ensures DecodeLinksMember(registry, name, all[name]) == Some(CanonicalLink(links[name]))
        <==> ConformsLinksMember(registry, name, links[name])
    {
      LinksMemberReadsBack(registry, name, links[name]);
    }
    assert all.Keys == links.Keys;
    if ConformsLinks(registry, Some(links)) {
      assert DecodeLinks(registry, Object(all)).value == CanonicalLinks(links);
    } else {
      var name :| name in links && !IsAtName(name) && !ConformsLinksMember(registry, name, links[name]);
      assert name in CanonicalLinks(links);
      assert DecodeLinksMember(registry, name, all[name]) != Some(CanonicalLink(links[name]));
    }
  }

  lemma OptionalLinksReadBack(registry: Registry, links: Option<Links>)
    requires registry.WellFormed() && Lift(EncodeLinks, links).Some?
    ensures DecodeOptionalLinks(registry, Lift(EncodeLinks, links).value) == Some(CanonicalOptionalLinks(links))
      <==> ConformsLinks(registry, links)
  {
    if links.Some? {
      LinksReadBack(registry, links.value);
    }
  }

  lemma RelationshipDataReadsBack(registry: Registry, data: RelationshipData)
    requires registry.WellFormed() && EncodeRelationshipData(data).Some?
    ensures DecodeRelationshipData(registry, EncodeRelationshipData(data).value)
        == Some(CanonicalRelationshipData(data))
      <==> ConformsRelationshipData(registry, data)
  {
    match data
    case NullRelationship =>
    case ToOne(one) =>
      IdentifierReadsBack(registry, one);
    case ToMany(many) =>
      var items := EncodeRelationshipData(data).value.items;
      forall i | 0 <= i < |many|
        ensures DecodeIdentifier(registry, items[i]) == Some(CanonicalIdentifier(many[i]))
          <==> ConformsIdentifier(registry, many[i])
      {
        IdentifierReadsBack(registry, many[i]);
      }
      var decoded := DecodeRelationshipData(registry, Array(items));
      if ConformsRelationshipData(registry, data) {
        assert decoded.value.many == CanonicalRelationshipData(data).many;
      } else {
        var i :| 0 <= i < |many| && !ConformsIdentifier(registry, many[i]);
        assert decoded.Some? ==> decoded.value.many[i] != CanonicalRelationshipData(data).many[i];
      }
  }

  lemma OptionalRelationshipDataReadsBack(registry: Registry, data: Option<RelationshipData>)
    requires registry.WellFormed() && Lift(EncodeRelationshipData, data).Some?
    ensures DecodeOptionalRelationshipData(registry, Lift(EncodeRelationshipData, data).value)
      == Some(if data.Some? then Some(CanonicalRelationshipData(data.value)) else None)
      <==> (data.Some? ==> ConformsRelationshipData(registry, data.value))
  {
    if data.Some? {
      RelationshipDataReadsBack(registry, data.value);
    }
  }

  lemma RelationshipCoreMembers(relationship: Relationship, links: Option<Tree>, data: Option<Tree>)
    ensures var core := RelationshipCore(relationship, links, data);
      && CoreNames(core)
      && Get(core, "links") == links
      && Get(core, "data") == data
      && Get(core, "meta") == OptionalObject(relationship.meta)
  {
  }

  lemma RelationshipMembers(
    registry: Registry, relationship: Relationship, links: Option<Tree>, data: Option<Tree>, all: Members)
    requires registry.WellFormed()
    requires ObjectWithMembers(RelationshipCore(relationship, links, data), relationship.additional) == Some(Object(all))
    ensures ExtractMembers(registry, RelationshipScope, all) == Some(StripMembers(relationship.additional))
      <==> ConformsMembers(registry, RelationshipScope, relationship.additional)
    ensures ConformsMembers(registry, RelationshipScope, relationship.additional) ==>
      && Get(all, "links") == links
      && Get(all, "data") == data
      && Get(all, "meta") == OptionalObject(relationship.meta)
  {
    var core := RelationshipCore(relationship, links, data);
    RelationshipCoreMembers(relationship, links, data);
    AdditionalReadBack(registry, RelationshipScope, core, relationship.additional);
    if ConformsMembers(registry, RelationshipScope, relationship.additional) {
      CoreNamesOfResources();
      CoreMembersKept(registry, RelationshipScope, core, relationship.additional);
    }
  }

  lemma RelationshipReadsBack(registry: Registry, relationship: Relationship)
    requires registry.WellFormed() && EncodeRelationship(relationship).Some?
    ensures DecodeRelationship(registry, EncodeRelationship(relationship).value)
        == Some(CanonicalRelationship(relationship))
      <==> ConformsRelationship(registry, relationship)
  {
    var links := Lift(EncodeLinks, relationship.links).value;
    var data := Lift(EncodeRelationshipData, relationship.data).value;
    var all := EncodeRelationship(relationship).value.members;
    RelationshipMembers(registry, relationship, links, data, all);
    if ConformsMembers(registry, RelationshipScope, relationship.additional) {
      OptionalLinksReadBack(registry, relationship.links);
      OptionalRelationshipDataReadsBack(registry, relationship.data);
      MembersReadBack(relationship.meta);
      assert Get(all, "links") == links && Get(all, "data") == data;
      assert Lift(DecodeMembers, Get(all, "meta")) == Some(CanonicalMembers(relationship.meta));
    }
  }

  lemma RelationshipsReadBack(registry: Registry, relationships: Relationships)
    requires registry.WellFormed() && EncodeRelationships(relationships).Some?
    ensures DecodeRelationships(registry, EncodeRelationships(relationships).value)
        == Some(CanonicalRelationships(relationships))
      <==> ConformsRelationships(registry, relationships)
  {
    var all := EncodeRelationships(relationships).value.members;
    forall name | name in relationships
      ensures name in all && all[name] == EncodeRelationship(relationships[name]).value
      ensures DecodeRelationship(registry, all[name]) == Some(CanonicalRelationship(relationships[name]))
        <==> ConformsRelationship(registry, relationships[name])
    {
      RelationshipReadsBack(registry, relationships[name]);
    }
    assert all.Keys == relationships.Keys;
    if ConformsRelationships(registry, relationships) {
      assert DecodeRelationships(registry, Object(all)).value == CanonicalRelationships(relationships);
    } else {
      var name :| name in relationships && !IsAtName(name) && !ConformsRelationship(registry, relationships[name]);
      assert name in CanonicalRelationships(relationships);
      assert DecodeRelationship(registry, all[name]) != Some(CanonicalRelationship(relationships[name]));
    }
  }

  lemma OptionalRelationshipsReadBack(registry: Registry, relationships: Option<Relationships>)
    requires registry.WellFormed() && Lift(EncodeRelationships, relationships).Some?
    ensures DecodeOptionalRelationships(registry, Lift(EncodeRelationships, relationships).value)
      == Some(if relationships.Some? then Some(CanonicalRelationships(relationships.value)) else None)
      <==> (relationships.Some? ==> ConformsRelationships(registry, relationships.value))
  {
    if relationships.Some? {
      RelationshipsReadBack(registry, relationships.value);
    }
  }

  lemma ResourceCoreNames(resource: Resource, relationships: Option<Tree>, links: Option<Tree>)
    ensures CoreNames(ResourceCore(resource, relationships, links))
  {
    CoreNamesOfResources();
  }

  lemma ResourceCoreMembers(resource: Resource, relationships: Option<Tree>, links: Option<Tree>)
    ensures var core := ResourceCore(resource, relationships, links);
      && Get(core, "type") == Some(String(resource.resourceType))
      && Get(core, "id") == OptionalString(resource.id)
      && Get(core, "lid") == OptionalString(resource.lid)
      && Get(core, "attributes") == OptionalObject(resource.attributes)
      && Get(core, "relationships") == relationships
      && Get(core, "links") == links
      && Get(core, "meta") == OptionalObject(resource.meta)
  {
  }

  lemma ResourceMembers(
    registry: Registry, resource: Resource, relationships: Option<Tree>, links: Option<Tree>, all: Members)
    requires registry.WellFormed()
    requires ObjectWithMembers(ResourceCore(resource, relationships, links), resource.additional) == Some(Object(all))
    ensures ExtractMembers(registry, ResourceScope, all) == Some(StripMembers(resource.additional))
      <==> ConformsMembers(registry, ResourceScope, resource.additional)
    ensures ConformsMembers(registry, ResourceScope, resource.additional) ==>
      && Get(all, "type") == Some(String(resource.resourceType))
      && Get(all, "id") == OptionalString(resource.id)
      && Get(all, "lid") == OptionalString(resource.lid)
      && Get(all, "attributes") == OptionalObject(resource.attributes)
      && Get(all, "relationships") == relationships
      && Get(all, "links") == links
      && Get(all, "meta") == OptionalObject(resource.meta)
  {
    var core := ResourceCore(resource, relationships, links);
    ResourceCoreNames(resource, relationships, links);
    ResourceCoreMembers(resource, relationships, links);
    AdditionalReadBack(registry, ResourceScope, core, resource.additional);
    if ConformsMembers(registry, ResourceScope, resource.additional) {
      CoreNamesOfResources();
      CoreMembersKept(registry, ResourceScope, core, resource.additional);
    }
  }

  /** All members of a decoded resource object except its links and relationships. */
  lemma ResourceLeavesReadBack(
    registry: Registry, resource: Resource, relationships: Option<Tree>, links: Option<Tree>, all: Members)
    requires registry.WellFormed() && ConformsMembers(registry, ResourceScope, resource.additional)
    requires ObjectWithMembers(ResourceCore(resource, relationships, links), resource.additional) == Some(Object(all))
    ensures ExtractMembers(registry, ResourceScope, all) == Some(StripMembers(resource.additional))
    ensures DecodeString(Get(all, "type")) == Some(Field(resource.resourceType, true))
    ensures DecodeString(Get(all, "id")) == Some(CanonicalField(resource.id))
    ensures DecodeString(Get(all, "lid")) == Some(CanonicalField(resource.lid))
    ensures Lift(DecodeMembers, Get(all, "attributes")) == Some(CanonicalMembers(resource.attributes))
    ensures Lift(DecodeMembers, Get(all, "meta")) == Some(CanonicalMembers(resource.meta))
    ensures Get(all, "relationships") == relationships
    ensures Get(all, "links") == links
  {
    ResourceMembers(registry, resource, relationships, links, all);
    FieldReadsBack(resource.id);
    FieldReadsBack(resource.lid);
    MembersReadBack(resource.attributes);
    MembersReadBack(resource.meta);
  }

  lemma ResourceReadsBack(registry: Registry, resource: Resource)
    requires registry.WellFormed() && EncodeResource(resource).Some?
    ensures DecodeResource(registry, EncodeResource(resource).value) == Some(CanonicalResource(resource))
      <==> ConformsResource(registry, resource)
  {
    var relationships := Lift(EncodeRelationships, resource.relationships).value;
    var links := Lift(EncodeLinks, resource.links).value;
    var all := EncodeResource(resource).value.members;
    if ConformsMembers(registry, ResourceScope, resource.additional) {
      ResourceBodyReadsBack(registry, resource, relationships, links, all);
    } else {
      ResourceMembers(registry, resource, relationships, links, all);
      ResourceKeepsExtracted(registry, all);
    }
  }

  lemma ResourceKeepsExtracted(registry: Registry, all: Members)
    ensures var decoded := DecodeResource(registry, Object(all));
      decoded.Some? ==> ExtractMembers(registry, ResourceScope, all) == Some(decoded.value.additional)
  {
  }

  lemma ResourceBodyReadsBack(
    registry: Registry, resource: Resource, relationships: Option<Tree>, links: Option<Tree>, all: Members)
    requires registry.WellFormed() && ConformsMembers(registry, ResourceScope, resource.additional)
    requires Lift(EncodeRelationships, resource.relationships) == Some(relationships)
    requires Lift(EncodeLinks, resource.links) == Some(links)
    requires ObjectWithMembers(ResourceCore(resource, relationships, links), resource.additional) == Some(Object(all))
    ensures DecodeResource(registry, Object(all)) == Some(CanonicalResource(resource)) <==> ConformsResource(registry, resource)
  {
    ResourceLeavesReadBack(registry, resource, relationships, links, all);
    ResourceAssembles(registry, resource, all);
    OptionalRelationshipsReadBack(registry, resource.relationships);
    OptionalLinksReadBack(registry, resource.links);
  }

  lemma ResourceAssembles(registry: Registry, resource: Resource, all: Members)
    requires ExtractMembers(registry, ResourceScope, all) == Some(StripMembers(resource.additional))
    requires DecodeString(Get(all, "type")) == Some(Field(resource.resourceType, true))
    requires DecodeString(Get(all, "id")) == Some(CanonicalField(resource.id))
    requires DecodeString(Get(all, "lid")) == Some(CanonicalField(resource.lid))
    requires Lift(DecodeMembers, Get(all, "attributes")) == Some(CanonicalMembers(resource.attributes))
    requires Lift(DecodeMembers, Get(all, "meta")) == Some(CanonicalMembers(resource.meta))
    ensures DecodeResource(registry, Object(all)) == Some(CanonicalResource(resource)) <==>
      && DecodeOptionalRelationships(registry, Get(all, "relationships")) == Some(CanonicalResource(resource).relationships)
      && DecodeOptionalLinks(registry, Get(all, "links")) == Some(CanonicalOptionalLinks(resource.links))
  {
  }

  lemma ResourcesReadBack(registry: Registry, resources: seq<Resource>)
    requires registry.WellFormed() && EncodeResources(resources).Some?
    ensures DecodeResources(registry, EncodeResources(resources).value) == Some(CanonicalResources(resources))
      <==> ConformsResources(registry, resources)
  {
    var items := EncodeResources(resources).value.items;
    forall i | 0 <= i < |resources|
      ensures DecodeResource(registry, items[i]) == Some(CanonicalResource(resources[i]))
        <==> ConformsResource(registry, resources[i])
    {
      ResourceReadsBack(registry, resources[i]);
    }
    var decoded := DecodeResources(registry, Array(items));
    if ConformsResources(registry, resources) {
      assert decoded.value == CanonicalResources(resources);
    } else {
      var i :| 0 <= i < |resources| && !ConformsResource(registry, resources[i]);
      assert decoded.Some? ==> decoded.value[i] != CanonicalResources(resources)[i];
    }
  }

  lemma OptionalResourcesReadBack(registry: Registry, resources: Option<seq<Resource>>)
    requires registry.WellFormed() && Lift(EncodeResources, resources).Some?
    ensures DecodeOptionalResources(registry, Lift(EncodeResources, resources).value)
      == Some(if resources.Some? then Some(CanonicalResources(resources.value)) else None)
      <==> (resources.Some? ==> ConformsResources(registry, resources.value))
  {
    if resources.Some? {
      ResourcesReadBack(registry, resources.value);
    }
  }

  lemma PrimaryDataReadsBack(registry: Registry, data: PrimaryData)
    requires registry.WellFormed() && EncodePrimaryData(data).Some?
    ensures DecodePrimaryData(registry, EncodePrimaryData(data).value) == Some(CanonicalPrimaryData(data))
      <==> ConformsPrimaryData(registry, data)
  {
    match data
    case NullData =>
    case ResourceData(one) =>
      ResourceReadsBack(registry, one);
    case ResourceCollection(many) =>
      ResourcesReadBack(registry, many);
  }

  lemma OptionalPrimaryDataReadsBack(registry: Registry, data: Option<PrimaryData>)
    requires registry.WellFormed() && Lift(EncodePrimaryData, data).Some?
    ensures DecodeOptionalPrimaryData(registry, Lift(EncodePrimaryData, data).value)
      == Some(if data.Some? then Some(CanonicalPrimaryData(data.value)) else None)
      <==> (data.Some? ==> ConformsPrimaryData(registry, data.value))
  {
    if data.Some? {
      PrimaryDataReadsBack(registry, data.value);
    }
  }

  lemma ErrorSourceCoreMembers(source: ErrorSource)
    ensures var core := ErrorSourceCore(source);
      && CoreNames(core)
      && Get(core, "pointer") == OptionalString(source.pointer)
      && Get(core, "parameter") == OptionalString(source.parameter)
      && Get(core, "header") == OptionalString(source.header)
  {
  }

  lemma ErrorSourceReadsBack(registry: Registry, source: ErrorSource)
    requires registry.WellFormed() && EncodeErrorSource(source).Some?
    ensures DecodeErrorSource(registry, EncodeErrorSource(source).value) == Some(CanonicalErrorSource(source))
      <==> ConformsMembers(registry, ErrorSourceScope, source.additional)
  {
    var core := ErrorSourceCore(source);
    var all := core + source.additional;
    ErrorSourceCoreMembers(source);
    AdditionalReadBack(registry, ErrorSourceScope, core, source.additional);
    if ConformsMembers(registry, ErrorSourceScope, source.additional) {
      CoreNamesOfErrors();
      CoreMembersKept(registry, ErrorSourceScope, core, source.additional);
      FieldReadsBack(source.pointer);
      FieldReadsBack(source.parameter);
      FieldReadsBack(source.header);
      assert DecodeString(Get(all, "pointer")) == Some(CanonicalField(source.pointer));
      assert DecodeString(Get(all, "parameter")) == Some(CanonicalField(source.parameter));
      assert DecodeString(Get(all, "header")) == Some(CanonicalField(source.header));
    }
  }

  lemma OptionalErrorSourceReadsBack(registry: Registry, source: Option<ErrorSource>)
    requires registry.WellFormed() && Lift(EncodeErrorSource, source).Some?
    ensures DecodeOptionalErrorSource(registry, Lift(EncodeErrorSource, source).value)
      == Some(if source.Some? then Some(CanonicalErrorSource(source.value)) else None)
      <==> (source.Some? ==> ConformsMembers(registry, ErrorSourceScope, source.value.additional))
  {
    if source.Some? {
      ErrorSourceReadsBack(registry, source.value);
    }
  }

  lemma ErrorCoreNames(error: ErrorObject, links: Option<Tree>, source: Option<Tree>)
    ensures CoreNames(ErrorCore(error, links, source))
  {
    CoreNamesOfErrors();
  }

  lemma ErrorCoreMembers(error: ErrorObject, links: Option<Tree>, source: Option<Tree>)
    ensures var core := ErrorCore(error, links, source);
      && Get(core, "id") == OptionalString(error.id)
      && Get(core, "links") == links
      && Get(core, "status") == OptionalString(error.status)
      && Get(core, "code") == OptionalString(error.code)
      && Get(core, "title") == OptionalString(error.title)
      && Get(core, "detail") == OptionalString(error.detail)
      && Get(core, "source") == source
      && Get(core, "meta") == OptionalObject(error.meta)
  {
    hide Get, Put, OptionalString, OptionalObject;
    var first := Put(map[], "id", OptionalString(error.id));
    PutMember(map[], "id", OptionalString(error.id));
    var second := Put(first, "links", links);
    PutMember(first, "links", links);
    var third := Put(second, "status", OptionalString(error.status));
    PutMember(second, "status", OptionalString(error.status));
    var fourth := Put(third, "code", OptionalString(error.code));
    PutMember(third, "code", OptionalString(error.code));
    var fifth := Put(fourth, "title", OptionalString(error.title));
    PutMember(fourth, "title", OptionalString(error.title));
    var sixth := Put(fifth, "detail", OptionalString(error.detail));
    PutMember(fifth, "detail", OptionalString(error.detail));
    PutMember(sixth, "source", source);
    PutMember(Put(sixth, "source", source), "meta", OptionalObject(error.meta));
  }

  lemma PutMember(members: Members, name: string, value: Option<Tree>)
    ensures Get(Put(members, name, value), name) == if value.Some? then value else Get(members, name)
    ensures forall other {:trigger Get(Put(members, name, value), other)} ::
      other != name ==> Get(Put(members, name, value), other) == Get(members, other)
    ensures forall other {:trigger Get(map[], other)} :: Get(map[], other) == None
  {
  }

  lemma ErrorMembers(
    registry: Registry, error: ErrorObject, links: Option<Tree>, source: Option<Tree>, all: Members)
    requires registry.WellFormed()
    requires ObjectWithMembers(ErrorCore(error, links, source), error.additional) == Some(Object(all))
    ensures ExtractMembers(registry, ErrorScope, all) == Some(StripMembers(error.additional))
      <==> ConformsMembers(registry, ErrorScope, error.additional)
    ensures ConformsMembers(registry, ErrorScope, error.additional) ==>
      && Get(all, "id") == OptionalString(error.id)
      && Get(all, "links") == links
      && Get(all, "status") == OptionalString(error.status)
      && Get(all, "code") == OptionalString(error.code)
      && Get(all, "title") == OptionalString(error.title)
      && Get(all, "detail") == OptionalString(error.detail)
      && Get(all, "source") == source
      && Get(all, "meta") == OptionalObject(error.meta)
  {
    var core := ErrorCore(error, links, source);
    ErrorCoreNames(error, links, source);
    ErrorCoreMembers(error, links, source);
    AdditionalReadBack(registry, ErrorScope, core, error.additional);
    if ConformsMembers(registry, ErrorScope, error.additional) {
      CoreNamesOfErrors();
      CoreMembersKept(registry, ErrorScope, core, error.additional);
    }
  }

  lemma ErrorLeavesReadBack(
    registry: Registry, error: ErrorObject, links: Option<Tree>, source: Option<Tree>, all: Members)
    requires registry.WellFormed() && ConformsMembers(registry, ErrorScope, error.additional)
    requires ObjectWithMembers(ErrorCore(error, links, source), error.additional) == Some(Object(all))
    ensures ExtractMembers(registry, ErrorScope, all) == Some(StripMembers(error.additional))
    ensures DecodeString(Get(all, "id")) == Some(CanonicalField(error.id))
    ensures DecodeString(Get(all, "status")) == Some(CanonicalField(error.status))
    ensures DecodeString(Get(all, "code")) == Some(CanonicalField(error.code))
    ensures DecodeString(Get(all, "title")) == Some(CanonicalField(error.title))
    ensures DecodeString(Get(all, "detail")) == Some(CanonicalField(error.detail))
    ensures Lift(DecodeMembers, Get(all, "meta")) == Some(CanonicalMembers(error.meta))
    ensures Get(all, "links") == links
    ensures Get(all, "source") == source
  {
    ErrorMembers(registry, error, links, source, all);
    FieldReadsBack(error.id);
    FieldReadsBack(error.status);
    FieldReadsBack(error.code);
    FieldReadsBack(error.title);
    FieldReadsBack(error.detail);
    MembersReadBack(error.meta);
  }

  lemma ErrorReadsBack(registry: Registry, error: ErrorObject)
    requires registry.WellFormed() && EncodeError(error).Some?
    ensures DecodeError(registry, EncodeError(error).value) == Some(CanonicalError(error))
      <==> ConformsError(registry, error)
  {
    var links := Lift(EncodeLinks, error.links).value;
    var source := Lift(EncodeErrorSource, error.source).value;
    var all := EncodeError(error).value.members;
    if ConformsMembers(registry, ErrorScope, error.additional) {
      ErrorBodyReadsBack(registry, error, links, source, all);
    } else {
      ErrorMembers(registry, error, links, source, all);
      ErrorKeepsExtracted(registry, all);
    }
  }

  lemma ErrorKeepsExtracted(registry: Registry, all: Members)
    ensures var decoded := DecodeError(registry, Object(all));
      decoded.Some? ==> ExtractMembers(registry, ErrorScope, all) == Some(decoded.value.additional)
  {
  }

  lemma ErrorBodyReadsBack(
    registry: Registry, error: ErrorObject, links: Option<Tree>, source: Option<Tree>, all: Members)
    requires registry.WellFormed() && ConformsMembers(registry, ErrorScope, error.additional)
    requires Lift(EncodeLinks, error.links) == Some(links)
    requires Lift(EncodeErrorSource, error.source) == Some(source)
    requires ObjectWithMembers(ErrorCore(error, links, source), error.additional) == Some(Object(all))
    ensures DecodeError(registry, Object(all)) == Some(CanonicalError(error)) <==> ConformsError(registry, error)
  {
    ErrorLeavesReadBack(registry, error, links, source, all);
    ErrorAssembles(registry, error, all);
    OptionalLinksReadBack(registry, error.links);
    OptionalErrorSourceReadsBack(registry, error.source);
  }

  lemma ErrorAssembles(registry: Registry, error: ErrorObject, all: Members)
    requires ExtractMembers(registry, ErrorScope, all) == Some(StripMembers(error.additional))
    requires DecodeString(Get(all, "id")) == Some(CanonicalField(error.id))
    requires DecodeString(Get(all, "status")) == Some(CanonicalField(error.status))
    requires DecodeString(Get(all, "code")) == Some(CanonicalField(error.code))
    requires DecodeString(Get(all, "title")) == Some(CanonicalField(error.title))
    requires DecodeString(Get(all, "detail")) == Some(CanonicalField(error.detail))
    requires Lift(DecodeMembers, Get(all, "meta")) == Some(CanonicalMembers(error.meta))
    ensures DecodeError(registry, Object(all)) == Some(CanonicalError(error)) <==>
      && DecodeOptionalLinks(registry, Get(all, "links")) == Some(CanonicalOptionalLinks(error.links))
      && DecodeOptionalErrorSource(registry, Get(all, "source")) == Some(CanonicalError(error).source)
  {
  }

  predicate ConformsErrors(registry: Registry, errors: seq<ErrorObject>) {
    forall i | 0 <= i < |errors| :: ConformsError(registry, errors[i])
  }

  lemma ErrorsReadBack(registry: Registry, errors: seq<ErrorObject>)
    requires registry.WellFormed() && EncodeErrors(errors).Some?
    ensures DecodeErrors(registry, EncodeErrors(errors).value) == Some(CanonicalErrors(errors))
      <==> ConformsErrors(registry, errors)
  {
    var items := EncodeErrors(errors).value.items;
    forall i | 0 <= i < |errors|
      ensures DecodeError(registry, items[i]) == Some(CanonicalError(errors[i])) <==> ConformsError(registry, errors[i])
    {
      ErrorReadsBack(registry, errors[i]);
    }
    var decoded := DecodeErrors(registry, Array(items));
    if ConformsErrors(registry, errors) {
      assert decoded.value == CanonicalErrors(errors);
    } else {
      var i :| 0 <= i < |errors| && !ConformsError(registry, errors[i]);
      assert decoded.Some? ==> decoded.value[i] != CanonicalErrors(errors)[i];
    }
  }

  lemma OptionalErrorsReadBack(registry: Registry, errors: Option<seq<ErrorObject>>)
    requires registry.WellFormed() && Lift(EncodeErrors, errors).Some?
    ensures DecodeOptionalErrors(registry, Lift(EncodeErrors, errors).value)
      == Some(if errors.Some? then Some(CanonicalErrors(errors.value)) else None)
      <==> (errors.Some? ==> ConformsErrors(registry, errors.value))
  {
    if errors.Some? {
      ErrorsReadBack(registry, errors.value);
    }
  }

  lemma OptionalJSONAPIReadsBack(registry: Registry, jsonapi: Option<JSONAPI>)
    requires registry.WellFormed() && Lift(EncodeJSONAPI, jsonapi).Some?
    ensures DecodeOptionalJSONAPI(registry, Lift(EncodeJSONAPI, jsonapi).value)
      == Some(if jsonapi.Some? then Some(CanonicalJSONAPI(jsonapi.value)) else None)
      <==> (jsonapi.Some? ==> ConformsMembers(registry, JSONAPIScope, jsonapi.value.additional))
  {
    if jsonapi.Some? {
      JSONAPIReadsBack(registry, jsonapi.value);
    }
  }

  lemma DocumentCoreMembers(
    jsonapi: Option<Tree>, links: Option<Tree>, data: Option<Tree>,
    included: Option<Tree>, errors: Option<Tree>, meta: Option<Tree>)
    ensures var core := DocumentCore(jsonapi, links, data, included, errors, meta);
      && CoreNames(core)
      && Get(core, "jsonapi") == jsonapi
      && Get(core, "links") == links
      && Get(core, "data") == data
      && Get(core, "included") == included
      && Get(core, "errors") == errors
      && Get(core, "meta") == meta
  {
    hide CoreName;
    CoreNamesOfDocuments();
  }

  lemma DocumentMembers(
    registry: Registry, additional: Members,
    jsonapi: Option<Tree>, links: Option<Tree>, data: Option<Tree>,
    included: Option<Tree>, errors: Option<Tree>, meta: Option<Tree>, all: Members)
    requires registry.WellFormed()
    requires ObjectWithMembers(DocumentCore(jsonapi, links, data, included, errors, meta), additional) == Some(Object(all))
    ensures ExtractMembers(registry, TopLevelScope, all) == Some(StripMembers(additional))
      <==> ConformsMembers(registry, TopLevelScope, additional)
    ensures ConformsMembers(registry, TopLevelScope, additional) ==>
      && Get(all, "jsonapi") == jsonapi
      && Get(all, "links") == links
      && Get(all, "data") == data
      && Get(all, "included") == included
      && Get(all, "errors") == errors
      && Get(all, "meta") == meta
  {
    var core := DocumentCore(jsonapi, links, data, included, errors, meta);
    DocumentCoreMembers(jsonapi, links, data, included, errors, meta);
    AdditionalReadBack(registry, TopLevelScope, core, additional);
    if ConformsMembers(registry, TopLevelScope, additional) {
      CoreNamesOfDocuments();
      CoreMembersKept(registry, TopLevelScope, core, additional);
    }
  }

  /**
    Encoding and then decoding yields the canonical document if and only if the document conforms
    to the registry; any other document is read back as something else, or refused.
   */
  lemma DocumentReadsBack(registry: Registry, document: Document)
    requires registry.WellFormed() && EncodeDocument(document).Some?
    ensures DecodeDocument(registry, EncodeDocument(document).value) == Some(CanonicalDocument(document))
      <==> ConformsDocument(registry, document)
  {
    var jsonapi := Lift(EncodeJSONAPI, document.jsonapi).value;
    var links := Lift(EncodeLinks, document.links).value;
    var data := Lift(EncodePrimaryData, document.data).value;
    var included := Lift(EncodeResources, document.included).value;
    var errors := Lift(EncodeErrors, document.errors).value;
    var all := EncodeDocument(document).value.members;
    DocumentMembers(registry, document.additional, jsonapi, links, data, included, errors,
      OptionalObject(document.meta), all);
    if ConformsMembers(registry, TopLevelScope, document.additional) {
      OptionalJSONAPIReadsBack(registry, document.jsonapi);
      OptionalLinksReadBack(registry, document.links);
      OptionalPrimaryDataReadsBack(registry, document.data);
      OptionalResourcesReadBack(registry, document.included);
      OptionalErrorsReadBack(registry, document.errors);
      MembersReadBack(document.meta);
      assert Lift(DecodeMembers, Get(all, "meta")) == Some(CanonicalMembers(document.meta));
    }
  }
}
