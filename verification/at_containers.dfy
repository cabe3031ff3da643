/**
  Links and relationships with a leading `@` on the way through the configured codec. They are
  written and then ignored by decoding, but the sanitizers enter them. The predicates here say, of
  the document before it is written, when they get through.
 */
module AtContainers {
  import opened Documents
  import opened Registries
  import opened Encoder
  import opened Decoder
  import opened RoundTrip
  import opened Containers
  import opened TwoPass

  /** A core member where there is one, otherwise an additional member of that name. */
  predicate LinkPasses(registry: Registry, link: Link) {
    if link.extension.Some? then CleanLink(registry, link.extension.value)
    else if link.isNull || !link.isObject then true
    else
      && ScopeAccepts(registry, LinkObjectScope, link.additional)
      && (match link.describedBy
          case Some(target) => LinkPasses(registry, target)
          case None =>
            "describedby" in link.additional ==> CleanLink(registry, link.additional["describedby"]))
  }

  /** A link under a registered name is read as an extension value, whatever it is. */
  predicate LinksPass(registry: Registry, links: Links) {
    forall name | name in links ::
      if registry.Registered(LinksObjectScope, name) then WrittenIsAccepted(registry, name, links[name])
      else LinkPasses(registry, links[name])
  }

  predicate WrittenIsAccepted(registry: Registry, name: string, link: Link)
    requires registry.Registered(LinksObjectScope, name)
  {
    EncodeLink(link).Some? ==> registry.Accepts(LinksObjectScope, name, StripAtMembers(EncodeLink(link).value))
  }

  predicate LinkagePasses(registry: Registry, data: RelationshipData) {
    match data
    case NullRelationship => true
    case ToOne(one) => ScopeAccepts(registry, IdentifierScope, one.additional)
    case ToMany(many) => forall i | 0 <= i < |many| :: ScopeAccepts(registry, IdentifierScope, many[i].additional)
  }

  predicate RelationshipPasses(registry: Registry, relationship: Relationship) {
    var additional := relationship.additional;
    && ScopeAccepts(registry, RelationshipScope, additional)
    && (match relationship.links
        case Some(links) => LinksPass(registry, links)
        case None => "links" in additional ==> CleanLinks(registry, additional["links"]))
    && (match relationship.data
        case Some(data) => LinkagePasses(registry, data)
        case None => "data" in additional ==> CleanLinkage(registry, additional["data"]))
  }

  // The places where such containers occur.

  predicate AtLinksPass(registry: Registry, links: Option<Links>) {
    links.Some? ==> forall name | name in links.value && IsAtName(name) :: LinkPasses(registry, links.value[name])
  }

  predicate AtRelationshipsPass(registry: Registry, relationships: Option<Relationships>) {
    relationships.Some? ==> forall name | name in relationships.value ::
      if IsAtName(name) then RelationshipPasses(registry, relationships.value[name])
      else AtLinksPass(registry, relationships.value[name].links)
  }

  predicate AtResourcePasses(registry: Registry, resource: Resource) {
    AtLinksPass(registry, resource.links) && AtRelationshipsPass(registry, resource.relationships)
  }

  predicate AtDataPasses(registry: Registry, data: Option<PrimaryData>) {
    match data
    case Some(ResourceData(one)) => AtResourcePasses(registry, one)
    case Some(ResourceCollection(many)) => forall i | 0 <= i < |many| :: AtResourcePasses(registry, many[i])
    case _ => true
  }

  predicate AtContainersPass(registry: Registry, document: Document) {
    && AtLinksPass(registry, document.links)
    && AtDataPasses(registry, document.data)
    && (document.included.Some? ==>
          forall i | 0 <= i < |document.included.value| :: AtResourcePasses(registry, document.included.value[i]))
    && (document.errors.Some? ==>
          forall i | 0 <= i < |document.errors.value| :: AtLinksPass(registry, document.errors.value[i].links))
  }

  // Each of them against the tree that is written.

  /** Core names are never registered, so only the additional members matter. */
  lemma OnlyAdditionalMatter(registry: Registry, scope: Scope, core: Members, additional: Members)
    requires registry.WellFormed() && CoreNames(core) && core.Keys !! additional.Keys
    ensures ScopeAccepts(registry, scope, core + additional) <==> ScopeAccepts(registry, scope, additional)
  {
    hide StripAtMembers;
    var all := core + additional;
    RegisteredAreAdditional(registry, scope, core, additional);
    assert forall name :: name in additional ==> all[name] == additional[name];
  }

  lemma {:induction false} CleanLinkIsPassing(registry: Registry, link: Link)
    requires registry.WellFormed() && EncodeLink(link).Some?
    ensures CleanLink(registry, EncodeLink(link).value) <==> LinkPasses(registry, link)
  {
    hide StripAtMembers, ScopeAccepts;
    if ObjectForm(link) {
      var describedBy := EncodeDescribedBy(link).value;
      var core := LinkCore(link, describedBy);
      LinkCoreNames(link, describedBy);
      LinkCoreMembers(link, describedBy);
      OnlyAdditionalMatter(registry, LinkObjectScope, core, link.additional);
      MergedMember(core, link.additional, "describedby");
      if link.describedBy.Some? {
        CleanLinkIsPassing(registry, link.describedBy.value);
      }
    }
  }

  lemma MergedMember(core: Members, additional: Members, name: string)
    requires core.Keys !! additional.Keys
    ensures Get(core + additional, name) == if name in core then Get(core, name) else Get(additional, name)
  {
  }

  lemma CleanLinksArePassing(registry: Registry, links: Links)
    requires registry.WellFormed() && EncodeLinks(links).Some?
    ensures CleanLinks(registry, EncodeLinks(links).value) <==> LinksPass(registry, links)
  {
    hide EncodeLink, CleanLink, LinkPasses, StripAtMembers;
    var members := EncodeLinks(links).value.members;
    forall name | name in members
      ensures members[name] == EncodeLink(links[name]).value
      ensures CleanLink(registry, members[name]) <==> LinkPasses(registry, links[name])
    {
      CleanLinkIsPassing(registry, links[name]);
    }
    assert members.Keys == links.Keys;
  }

  lemma CleanIdentifierIsPassing(registry: Registry, identifier: Identifier)
    requires registry.WellFormed() && EncodeIdentifier(identifier).Some?
    ensures EncodeIdentifier(identifier).value.Object?
    ensures CleanIdentifier(registry, EncodeIdentifier(identifier).value)
      <==> ScopeAccepts(registry, IdentifierScope, identifier.additional)
  {
    hide StripAtMembers, ScopeAccepts;
    IdentifierCoreMembers(identifier);
    OnlyAdditionalMatter(registry, IdentifierScope, IdentifierCore(identifier), identifier.additional);
  }

  lemma CleanLinkageIsPassing(registry: Registry, data: RelationshipData)
    requires registry.WellFormed() && EncodeRelationshipData(data).Some?
    ensures CleanLinkage(registry, EncodeRelationshipData(data).value) <==> LinkagePasses(registry, data)
  {
    hide EncodeIdentifier, CleanIdentifier, ScopeAccepts;
    match data
    case NullRelationship =>
    case ToOne(one) => CleanIdentifierIsPassing(registry, one);
    case ToMany(many) =>
      var items := EncodeIdentifiers(many).value.items;
      forall i | 0 <= i < |many|
        ensures CleanIdentifier(registry, items[i]) <==> ScopeAccepts(registry, IdentifierScope, many[i].additional)
      {
        CleanIdentifierIsPassing(registry, many[i]);
      }
  }

  lemma CleanRelationshipIsPassing(registry: Registry, relationship: Relationship)
    requires registry.WellFormed() && EncodeRelationship(relationship).Some?
    ensures CleanRelationship(registry, EncodeRelationship(relationship).value)
      <==> RelationshipPasses(registry, relationship)
  {
    hide EncodeLinks, EncodeRelationshipData, CleanLinks, CleanLinkage, LinksPass, LinkagePasses, ScopeAccepts;
    var links := Lift(EncodeLinks, relationship.links).value;
    var data := Lift(EncodeRelationshipData, relationship.data).value;
    var core := RelationshipCore(relationship, links, data);
    RelationshipCoreMembers(relationship, links, data);
    OnlyAdditionalMatter(registry, RelationshipScope, core, relationship.additional);
    MergedMember(core, relationship.additional, "links");
    MergedMember(core, relationship.additional, "data");
    if relationship.links.Some? {
      CleanLinksArePassing(registry, relationship.links.value);
    }
    if relationship.data.Some? {
      CleanLinkageIsPassing(registry, relationship.data.value);
    }
  }

  lemma SaneLinksArePassing(registry: Registry, links: Option<Links>)
    requires registry.WellFormed() && Lift(EncodeLinks, links).Some?
    ensures SaneLinks(registry, Lift(EncodeLinks, links).value) <==> AtLinksPass(registry, links)
  {
    hide EncodeLink, CleanLink, LinkPasses;
    if links.Some? {
      var members := EncodeLinks(links.value).value.members;
      forall name | name in members
        ensures CleanLink(registry, members[name]) <==> LinkPasses(registry, links.value[name])
      {
        CleanLinkIsPassing(registry, links.value[name]);
      }
      assert members.Keys == links.value.Keys;
    }
  }

  lemma SaneRelationshipIsPassing(registry: Registry, relationship: Relationship)
    requires registry.WellFormed() && EncodeRelationship(relationship).Some?
    requires ConformsRelationship(registry, relationship)
    ensures SaneRelationship(registry, EncodeRelationship(relationship).value)
      <==> AtLinksPass(registry, relationship.links)
  {
    hide SaneLinks, EncodeLinks, EncodeRelationshipData, ConformsLinks, ConformsMembers, ConformsRelationshipData;
    hide AtLinksPass;
    var links := Lift(EncodeLinks, relationship.links).value;
    var data := Lift(EncodeRelationshipData, relationship.data).value;
    RelationshipMembers(registry, relationship, links, data, EncodeRelationship(relationship).value.members);
    SaneLinksArePassing(registry, relationship.links);
  }

  lemma SaneRelationshipsArePassing(registry: Registry, relationships: Option<Relationships>)
    requires registry.WellFormed() && Lift(EncodeRelationships, relationships).Some?
    requires relationships.Some? ==> ConformsRelationships(registry, relationships.value)
    ensures SaneRelationships(registry, Lift(EncodeRelationships, relationships).value)
      <==> AtRelationshipsPass(registry, relationships)
  {
    hide CleanRelationship, SaneRelationship, EncodeRelationship, ConformsRelationship, AtLinksPass, RelationshipPasses;
    if relationships.Some? {
      var members := EncodeRelationships(relationships.value).value.members;
      forall name | name in members
        ensures CleanRelationship(registry, members[name]) <==> RelationshipPasses(registry, relationships.value[name])
        ensures !IsAtName(name) ==>
          (SaneRelationship(registry, members[name]) <==> AtLinksPass(registry, relationships.value[name].links))
      {
        CleanRelationshipIsPassing(registry, relationships.value[name]);
        if !IsAtName(name) {
          SaneRelationshipIsPassing(registry, relationships.value[name]);
        }
      }
      assert members.Keys == relationships.value.Keys;
    }
  }

  lemma SaneResourceIsPassing(registry: Registry, resource: Resource)
    requires registry.WellFormed() && EncodeResource(resource).Some? && ConformsResource(registry, resource)
    ensures EncodeResource(resource).value.Object?
    ensures SaneResource(registry, EncodeResource(resource).value) <==> AtResourcePasses(registry, resource)
  {
    hide SaneLinks, SaneRelationships, EncodeLinks, EncodeRelationships, ConformsLinks, ConformsMembers;
    hide ConformsRelationships, AtLinksPass, AtRelationshipsPass;
    var relationships := Lift(EncodeRelationships, resource.relationships).value;
    var links := Lift(EncodeLinks, resource.links).value;
    ResourceMembers(registry, resource, relationships, links, EncodeResource(resource).value.members);
    SaneLinksArePassing(registry, resource.links);
    SaneRelationshipsArePassing(registry, resource.relationships);
  }

  lemma SaneResourcesArePassing(registry: Registry, resources: seq<Resource>)
    requires registry.WellFormed() && EncodeResources(resources).Some? && ConformsResources(registry, resources)
    ensures EncodeResources(resources).value.Array?
    ensures SaneResources(registry, EncodeResources(resources).value) <==>
      forall i :: 0 <= i < |resources| ==> AtResourcePasses(registry, resources[i])
  {
    hide SaneResource, EncodeResource, ConformsResource, AtResourcePasses;
    var items := EncodeResources(resources).value.items;
    forall i | 0 <= i < |items|
      ensures SaneResource(registry, items[i]) <==> AtResourcePasses(registry, resources[i])
    {
      assert items[i] == EncodeResource(resources[i]).value;
      SaneResourceIsPassing(registry, resources[i]);
    }
    assert |items| == |resources|;
  }

  lemma SaneDataIsPassing(registry: Registry, data: Option<PrimaryData>)
    requires registry.WellFormed() && Lift(EncodePrimaryData, data).Some?
    requires data.Some? ==> ConformsPrimaryData(registry, data.value)
    ensures SanePrimaryData(registry, Lift(EncodePrimaryData, data).value) <==> AtDataPasses(registry, data)
  {
    hide EncodeResource, EncodeResources, ConformsResource, AtResourcePasses, SaneLinks, SaneRelationships;
    match data
    case Some(ResourceData(one)) => SaneResourceIsPassing(registry, one);
    case Some(ResourceCollection(many)) => SaneResourcesArePassing(registry, many);
    case _ =>
  }

  lemma SaneErrorIsPassing(registry: Registry, error: ErrorObject)
    requires registry.WellFormed() && EncodeError(error).Some? && ConformsError(registry, error)
    ensures SaneError(registry, EncodeError(error).value) <==> AtLinksPass(registry, error.links)
  {
    hide SaneLinks, EncodeLinks, EncodeErrorSource, ConformsLinks, ConformsMembers, AtLinksPass;
    var links := Lift(EncodeLinks, error.links).value;
    var source := Lift(EncodeErrorSource, error.source).value;
    ErrorMembers(registry, error, links, source, EncodeError(error).value.members);
    SaneLinksArePassing(registry, error.links);
  }

  lemma SaneErrorsArePassing(registry: Registry, errors: seq<ErrorObject>)
    requires registry.WellFormed() && EncodeErrors(errors).Some? && ConformsErrors(registry, errors)
    ensures SaneErrors(registry, EncodeErrors(errors).value) <==>
      forall i :: 0 <= i < |errors| ==> AtLinksPass(registry, errors[i].links)
  {
    hide SaneError, EncodeError, ConformsError, AtLinksPass;
    var items := EncodeErrors(errors).value.items;
    forall i | 0 <= i < |items|
      ensures SaneError(registry, items[i]) <==> AtLinksPass(registry, errors[i].links)
    {
      assert items[i] == EncodeError(errors[i]).value;
      SaneErrorIsPassing(registry, errors[i]);
    }
    assert |items| == |errors|;
  }

  /** What the sanitizers demand of an encoding, said about the document that was encoded. */
  lemma SaneDocumentIsPassing(registry: Registry, document: Document)
    requires registry.WellFormed() && EncodeDocument(document).Some? && ConformsDocument(registry, document)
    ensures SaneDocument(registry, EncodeDocument(document).value) <==> AtContainersPass(registry, document)
  {
    hide EncodeJSONAPI, EncodeLinks, EncodePrimaryData, EncodeResources, EncodeErrors;
    hide SaneLinks, SanePrimaryData, SaneResources, SaneErrors, ConformsMembers, ConformsLinks, ConformsPrimaryData;
    hide ConformsResources, ConformsErrors, AtLinksPass, AtDataPasses, AtResourcePasses;
    var jsonapi := Lift(EncodeJSONAPI, document.jsonapi).value;
    var links := Lift(EncodeLinks, document.links).value;
    var data := Lift(EncodePrimaryData, document.data).value;
    var included := Lift(EncodeResources, document.included).value;
    var errors := Lift(EncodeErrors, document.errors).value;
    DocumentMembers(registry, document.additional, jsonapi, links, data, included, errors,
      OptionalObject(document.meta), EncodeDocument(document).value.members);
    SaneLinksArePassing(registry, document.links);
    SaneDataIsPassing(registry, document.data);
    if document.included.Some? {
      SaneResourcesArePassing(registry, document.included.value);
    }
    if document.errors.Some? {
      SaneErrorsArePassing(registry, document.errors.value);
    }
  }
}
