/**
  The member checks of `Marshal`: they look at every link and relationship, those with a leading `@`
  included. What they let through can be written, and it conforms wherever extension values stand
  only in their place.
 */
module Acceptance {
  import opened Documents
  import opened Registries
  import opened MemberNames
  import opened Encoder
  import opened RoundTrip
  import opened Containers
  import opened AtContainers
  import opened LinkWalk

  // What Marshal checks.

  /** `validateScopedMembers` reports nothing. */
  predicate MembersAccepted(registry: Registry, scope: Scope, members: Members) {
    forall name | name in members ::
      if IsAtName(name) then ValidMemberName(name)
      else registry.Registered(scope, name) && registry.Accepts(scope, name, members[name])
  }

  function Hops(link: Link): nat {
    if link.describedBy.Some? then 1 + Hops(link.describedBy.value) else 0
  }

  predicate ChainAccepted(registry: Registry, link: Link) {
    && MembersAccepted(registry, LinkObjectScope, link.additional)
    && (link.describedBy.Some? ==> ChainAccepted(registry, link.describedBy.value))
  }

  /** `validateLinkStateMembers` reports nothing. */
  predicate LinkAccepted(registry: Registry, link: Link) {
    Hops(link) <= MAX_NESTING_DEPTH && ChainAccepted(registry, link)
  }

  /** `validateLinkDocumentMembers` reports nothing. */
  predicate LinksAccepted(registry: Registry, links: Option<Links>) {
    links.Some? ==> forall name | name in links.value ::
      if links.value[name].extension.Some?
      then MembersAccepted(registry, LinksObjectScope, map[name := links.value[name].extension.value])
      else LinkAccepted(registry, links.value[name])
  }

  predicate RelationshipAccepted(registry: Registry, relationship: Relationship) {
    && LinksAccepted(registry, relationship.links)
    && MembersAccepted(registry, RelationshipScope, relationship.additional)
    && (match relationship.data
        case Some(ToOne(one)) => MembersAccepted(registry, IdentifierScope, one.additional)
        case Some(ToMany(many)) =>
          forall i | 0 <= i < |many| :: MembersAccepted(registry, IdentifierScope, many[i].additional)
        case _ => true)
  }

  predicate ResourceAccepted(registry: Registry, resource: Resource) {
    && LinksAccepted(registry, resource.links)
    && MembersAccepted(registry, ResourceScope, resource.additional)
    && (resource.relationships.Some? ==> forall name | name in resource.relationships.value ::
          RelationshipAccepted(registry, resource.relationships.value[name]))
  }

  predicate ErrorAccepted(registry: Registry, error: ErrorObject) {
    && MembersAccepted(registry, ErrorScope, error.additional)
    && LinksAccepted(registry, error.links)
    && (error.source.Some? ==> MembersAccepted(registry, ErrorSourceScope, error.source.value.additional))
  }

  predicate DataAccepted(registry: Registry, data: Option<PrimaryData>) {
    match data
    case Some(ResourceData(one)) => ResourceAccepted(registry, one)
    case Some(ResourceCollection(many)) => forall i | 0 <= i < |many| :: ResourceAccepted(registry, many[i])
    case _ => true
  }

  /** `validateDocumentMembers` reports nothing. */
  predicate DocumentAccepted(registry: Registry, document: Document) {
    && MembersAccepted(registry, TopLevelScope, document.additional)
    && (document.jsonapi.Some? ==> MembersAccepted(registry, JSONAPIScope, document.jsonapi.value.additional))
    && LinksAccepted(registry, document.links)
    && (document.errors.Some? ==>
          forall i | 0 <= i < |document.errors.value| :: ErrorAccepted(registry, document.errors.value[i]))
    && DataAccepted(registry, document.data)
    && (document.included.Some? ==>
          forall i | 0 <= i < |document.included.value| :: ResourceAccepted(registry, document.included.value[i]))
  }

  /** The value validators do not look at `@` members, which decoding will have removed. */
  ghost predicate IgnoresAtMembers(registry: Registry) {
    forall scope, name, value :: registry.Registered(scope, name) && registry.Accepts(scope, name, value) ==>
      registry.Accepts(scope, name, StripAtMembers(value))
  }

  /** No extension value stands where the decoder expects a link. */
  predicate PlainChain(link: Link) {
    link.extension.None? && (link.describedBy.Some? ==> PlainChain(link.describedBy.value))
  }

  /**
    Extension values are used only as members with a name that is not an ordinary one. Document
    validation checks the names; it does not look behind `describedby` or under `@` names.
   */
  predicate LinksOrdinary(links: Option<Links>) {
    links.Some? ==> forall name | name in links.value ::
      if links.value[name].extension.Some? then !IsAtName(name)
      else ValidMemberName(name) && PlainChain(links.value[name])
  }

  predicate ResourceOrdinary(resource: Resource) {
    && LinksOrdinary(resource.links)
    && (resource.relationships.Some? ==> forall name | name in resource.relationships.value ::
          LinksOrdinary(resource.relationships.value[name].links))
  }

  predicate DataOrdinary(data: Option<PrimaryData>) {
    match data
    case Some(ResourceData(one)) => ResourceOrdinary(one)
    case Some(ResourceCollection(many)) => forall i | 0 <= i < |many| :: ResourceOrdinary(many[i])
    case _ => true
  }

  predicate DocumentOrdinary(document: Document) {
    && LinksOrdinary(document.links)
    && DataOrdinary(document.data)
    && (document.included.Some? ==>
          forall i | 0 <= i < |document.included.value| :: ResourceOrdinary(document.included.value[i]))
    && (document.errors.Some? ==>
          forall i | 0 <= i < |document.errors.value| :: LinksOrdinary(document.errors.value[i].links))
  }

  lemma AcceptedMembersConform(registry: Registry, scope: Scope, members: Members)
    requires IgnoresAtMembers(registry) && MembersAccepted(registry, scope, members)
    ensures ConformsMembers(registry, scope, members)
  {
    hide StripAtMembers, ValidMemberName;
  }

  /** Accepted names hold a colon or a leading `@`, so they never collide with a core member. */
  lemma AcceptedNamesAreNotCore(registry: Registry, scope: Scope, members: Members)
    requires registry.WellFormed() && MembersAccepted(registry, scope, members)
    ensures forall name :: CoreName(name) ==> name !in members
    ensures forall core: Members {:trigger CoreNames(core)} :: CoreNames(core) ==> core.Keys !! members.Keys
  {
    hide ValidMemberName;
    assert forall name :: registry.Registered(scope, name) ==> ':' in name;
  }

  lemma AcceptedMembersPass(registry: Registry, scope: Scope, members: Members)
    requires registry.WellFormed() && IgnoresAtMembers(registry) && MembersAccepted(registry, scope, members)
    ensures ScopeAccepts(registry, scope, members)
    ensures forall name :: CoreName(name) ==> name !in members
  {
    hide StripAtMembers, ValidMemberName;
    AcceptedNamesAreNotCore(registry, scope, members);
  }

  lemma {:induction false} AcceptedLinkConforms(registry: Registry, link: Link)
    requires registry.WellFormed() && IgnoresAtMembers(registry)
    requires ChainAccepted(registry, link) && PlainChain(link)
    ensures ConformsLink(registry, link) && LinkPasses(registry, link)
  {
    hide MembersAccepted, ConformsMembers, IgnoresAtMembers, ScopeAccepts;
    AcceptedMembersConform(registry, LinkObjectScope, link.additional);
    AcceptedMembersPass(registry, LinkObjectScope, link.additional);
    CoreNamesOfLinks();
    if link.describedBy.Some? {
      AcceptedLinkConforms(registry, link.describedBy.value);
    }
  }

  /** Registered names carry a colon, so no valid member name is registered. */
  lemma ValidNamesAreNotRegistered(registry: Registry, scope: Scope, name: string)
    requires registry.WellFormed() && ValidMemberName(name)
    ensures !registry.Registered(scope, name)
  {
    hide ValidUtf8;
    var bare := if name != "" && name[0] == '@' then name[1..] else name;
    assert ':' in name <==> ':' in bare;
    assert !AllowedInside(':');
  }

  lemma AcceptedLinksConform(registry: Registry, links: Option<Links>)
    requires registry.WellFormed() && IgnoresAtMembers(registry)
    requires LinksAccepted(registry, links) && LinksOrdinary(links)
    ensures ConformsLinks(registry, links) && AtLinksPass(registry, links)
    ensures links.Some? ==> LinksPass(registry, links.value)
  {
    hide ValidMemberName, ConformsLink, ChainAccepted, PlainChain, StripAtMembers, LinkPasses;
    if links.Some? {
      forall name | name in links.value
        ensures !IsAtName(name) ==> ConformsLinksMember(registry, name, links.value[name])
        ensures if registry.Registered(LinksObjectScope, name)
                then !IsAtName(name) && WrittenIsAccepted(registry, name, links.value[name])
                else LinkPasses(registry, links.value[name])
      {
        AcceptedLinkUnderName(registry, name, links.value[name]);
      }
    }
  }

  lemma AcceptedLinkUnderName(registry: Registry, name: string, link: Link)
    requires registry.WellFormed() && IgnoresAtMembers(registry)
    requires LinksAccepted(registry, Some(map[name := link])) && LinksOrdinary(Some(map[name := link]))
    ensures !IsAtName(name) ==> ConformsLinksMember(registry, name, link)
    ensures if registry.Registered(LinksObjectScope, name) then !IsAtName(name) && WrittenIsAccepted(registry, name, link)
            else LinkPasses(registry, link)
  {
    hide ValidMemberName, ConformsLink, ChainAccepted, PlainChain, StripAtMembers, LinkPasses;
    var links: Links := map[name := link];
    assert name in links && links[name] == link;
    if link.extension.Some? {
      var members: Members := map[name := link.extension.value];
      assert name in members && members[name] == link.extension.value;
    } else {
      AcceptedLinkConforms(registry, link);
      ValidNamesAreNotRegistered(registry, LinksObjectScope, name);
    }
  }

  lemma AcceptedRelationshipConforms(registry: Registry, relationship: Relationship)
    requires registry.WellFormed() && IgnoresAtMembers(registry)
    requires RelationshipAccepted(registry, relationship) && LinksOrdinary(relationship.links)
    ensures ConformsRelationship(registry, relationship)
    ensures RelationshipPasses(registry, relationship) && AtLinksPass(registry, relationship.links)
  {
    hide MembersAccepted, ConformsMembers, IgnoresAtMembers, LinksAccepted, LinksOrdinary, ConformsLinks, AtLinksPass;
    hide LinksPass, ScopeAccepts;
    AcceptedLinksConform(registry, relationship.links);
    AcceptedMembersConform(registry, RelationshipScope, relationship.additional);
    AcceptedMembersPass(registry, RelationshipScope, relationship.additional);
    CoreNamesOfResources();
    match relationship.data
    case Some(ToOne(one)) =>
      AcceptedIdentifierConforms(registry, one);
    case Some(ToMany(many)) =>
      forall i | 0 <= i < |many|
        ensures ConformsIdentifier(registry, many[i]) && ScopeAccepts(registry, IdentifierScope, many[i].additional)
      {
        AcceptedIdentifierConforms(registry, many[i]);
      }
    case _ =>
  }

  lemma AcceptedIdentifierConforms(registry: Registry, identifier: Identifier)
    requires registry.WellFormed() && IgnoresAtMembers(registry)
    requires MembersAccepted(registry, IdentifierScope, identifier.additional)
    ensures ConformsIdentifier(registry, identifier) && ScopeAccepts(registry, IdentifierScope, identifier.additional)
  {
    hide MembersAccepted, ConformsMembers, IgnoresAtMembers, ScopeAccepts;
    AcceptedMembersConform(registry, IdentifierScope, identifier.additional);
    AcceptedMembersPass(registry, IdentifierScope, identifier.additional);
  }

  lemma AcceptedResourceConforms(registry: Registry, resource: Resource)
    requires registry.WellFormed() && IgnoresAtMembers(registry)
    requires ResourceAccepted(registry, resource) && ResourceOrdinary(resource)
    ensures ConformsResource(registry, resource) && AtResourcePasses(registry, resource)
  {
    hide MembersAccepted, ConformsMembers, IgnoresAtMembers, LinksAccepted, LinksOrdinary, ConformsLinks, AtLinksPass;
    hide RelationshipAccepted, ConformsRelationship, RelationshipPasses, LinksPass;
    AcceptedLinksConform(registry, resource.links);
    AcceptedMembersConform(registry, ResourceScope, resource.additional);
    if resource.relationships.Some? {
      forall name | name in resource.relationships.value
        ensures ConformsRelationship(registry, resource.relationships.value[name])
        ensures RelationshipPasses(registry, resource.relationships.value[name])
        ensures AtLinksPass(registry, resource.relationships.value[name].links)
      {
        AcceptedRelationshipConforms(registry, resource.relationships.value[name]);
      }
    }
  }

  lemma AcceptedResourcesConform(registry: Registry, resources: seq<Resource>)
    requires registry.WellFormed() && IgnoresAtMembers(registry)
    requires forall i :: 0 <= i < |resources| ==>
      ResourceAccepted(registry, resources[i]) && ResourceOrdinary(resources[i])
    ensures ConformsResources(registry, resources)
    ensures forall i :: 0 <= i < |resources| ==> AtResourcePasses(registry, resources[i])
  {
    hide ResourceAccepted, ResourceOrdinary, ConformsResource, AtResourcePasses, IgnoresAtMembers;
    forall i | 0 <= i < |resources|
      ensures ConformsResource(registry, resources[i]) && AtResourcePasses(registry, resources[i])
    {
      AcceptedResourceConforms(registry, resources[i]);
    }
  }

  lemma AcceptedErrorsConform(registry: Registry, errors: seq<ErrorObject>)
    requires registry.WellFormed() && IgnoresAtMembers(registry)
    requires forall i :: 0 <= i < |errors| ==> ErrorAccepted(registry, errors[i]) && LinksOrdinary(errors[i].links)
    ensures ConformsErrors(registry, errors)
    ensures forall i :: 0 <= i < |errors| ==> AtLinksPass(registry, errors[i].links)
  {
    hide MembersAccepted, ConformsMembers, IgnoresAtMembers, LinksAccepted, LinksOrdinary, ConformsLinks, AtLinksPass;
    forall i | 0 <= i < |errors|
      ensures ConformsError(registry, errors[i]) && AtLinksPass(registry, errors[i].links)
    {
      AcceptedMembersConform(registry, ErrorScope, errors[i].additional);
      AcceptedLinksConform(registry, errors[i].links);
      if errors[i].source.Some? {
        AcceptedMembersConform(registry, ErrorSourceScope, errors[i].source.value.additional);
      }
    }
  }

  /** Whatever the checks of `Marshal` let through conforms, and so do its `@` containers. */
  lemma AcceptedDocumentConforms(registry: Registry, document: Document)
    requires registry.WellFormed() && IgnoresAtMembers(registry)
    requires DocumentAccepted(registry, document) && DocumentOrdinary(document)
    ensures ConformsDocument(registry, document) && AtContainersPass(registry, document)
  {
    hide MembersAccepted, ConformsMembers, IgnoresAtMembers, LinksAccepted, LinksOrdinary, ConformsLinks, AtLinksPass;
    hide ResourceAccepted, ResourceOrdinary, ConformsResource, AtResourcePasses, ErrorAccepted, ConformsError;
    AcceptedMembersConform(registry, TopLevelScope, document.additional);
    if document.jsonapi.Some? {
      AcceptedMembersConform(registry, JSONAPIScope, document.jsonapi.value.additional);
    }
    AcceptedLinksConform(registry, document.links);
    match document.data {
      case Some(ResourceData(one)) => AcceptedResourceConforms(registry, one);
      case Some(ResourceCollection(many)) => AcceptedResourcesConform(registry, many);
      case _ =>
    }
    if document.included.Some? {
      AcceptedResourcesConform(registry, document.included.value);
    }
    if document.errors.Some? {
      AcceptedErrorsConform(registry, document.errors.value);
    }
  }

  // Accepted documents can be written.

  lemma {:induction false} AcceptedLinkIsWritten(registry: Registry, link: Link)
    requires registry.WellFormed() && ChainAccepted(registry, link)
    ensures EncodeLink(link).Some?
  {
    hide MembersAccepted, LinkCore;
    if link.describedBy.Some? {
      AcceptedLinkIsWritten(registry, link.describedBy.value);
    }
    if ObjectForm(link) {
      LinkCoreNames(link, EncodeDescribedBy(link).value);
      AcceptedNamesAreNotCore(registry, LinkObjectScope, link.additional);
    }
  }

  lemma AcceptedLinksAreWritten(registry: Registry, links: Option<Links>)
    requires registry.WellFormed() && LinksAccepted(registry, links)
    ensures Lift(EncodeLinks, links).Some?
  {
    hide EncodeLink, ChainAccepted, MembersAccepted;
    if links.Some? {
      forall name | name in links.value ensures EncodeLink(links.value[name]).Some? {
        if links.value[name].extension.Some? {
          ExtensionIsWritten(links.value[name]);
        } else {
          AcceptedLinkIsWritten(registry, links.value[name]);
        }
      }
    }
  }

  lemma ExtensionIsWritten(link: Link)
    requires link.extension.Some?
    ensures EncodeLink(link).Some?
  {
  }

  lemma AcceptedIdentifierIsWritten(registry: Registry, identifier: Identifier)
    requires registry.WellFormed() && MembersAccepted(registry, IdentifierScope, identifier.additional)
    ensures EncodeIdentifier(identifier).Some?
  {
    hide MembersAccepted, IdentifierCore;
    IdentifierCoreMembers(identifier);
    AcceptedNamesAreNotCore(registry, IdentifierScope, identifier.additional);
  }

  lemma AcceptedRelationshipIsWritten(registry: Registry, relationship: Relationship)
    requires registry.WellFormed() && RelationshipAccepted(registry, relationship)
    ensures EncodeRelationship(relationship).Some?
  {
    hide MembersAccepted, LinksAccepted, EncodeLinks, EncodeIdentifier, RelationshipCore;
    AcceptedLinksAreWritten(registry, relationship.links);
    match relationship.data {
      case Some(ToOne(one)) => AcceptedIdentifierIsWritten(registry, one);
      case Some(ToMany(many)) =>
        forall i | 0 <= i < |many| ensures EncodeIdentifier(many[i]).Some? {
          AcceptedIdentifierIsWritten(registry, many[i]);
        }
      case _ =>
    }
    assert Lift(EncodeRelationshipData, relationship.data).Some?;
    RelationshipCoreMembers(
      relationship, Lift(EncodeLinks, relationship.links).value, Lift(EncodeRelationshipData, relationship.data).value);
    AcceptedNamesAreNotCore(registry, RelationshipScope, relationship.additional);
  }

  lemma AcceptedResourceIsWritten(registry: Registry, resource: Resource)
    requires registry.WellFormed() && ResourceAccepted(registry, resource)
    ensures EncodeResource(resource).Some?
  {
    hide MembersAccepted, LinksAccepted, RelationshipAccepted, EncodeLinks, EncodeRelationship, ResourceCore;
    AcceptedLinksAreWritten(registry, resource.links);
    if resource.relationships.Some? {
      var relationships := resource.relationships.value;
      forall name | name in relationships ensures EncodeRelationship(relationships[name]).Some? {
        AcceptedRelationshipIsWritten(registry, relationships[name]);
      }
    }
    assert Lift(EncodeRelationships, resource.relationships).Some?;
    ResourceCoreNames(
      resource, Lift(EncodeRelationships, resource.relationships).value, Lift(EncodeLinks, resource.links).value);
    AcceptedNamesAreNotCore(registry, ResourceScope, resource.additional);
  }

  lemma AcceptedResourcesAreWritten(registry: Registry, resources: seq<Resource>)
    requires registry.WellFormed() && forall i :: 0 <= i < |resources| ==> ResourceAccepted(registry, resources[i])
    ensures EncodeResources(resources).Some?
  {
    hide ResourceAccepted, EncodeResource;
    forall i | 0 <= i < |resources| ensures EncodeResource(resources[i]).Some? {
      AcceptedResourceIsWritten(registry, resources[i]);
    }
  }

  lemma AcceptedErrorIsWritten(registry: Registry, error: ErrorObject)
    requires registry.WellFormed() && ErrorAccepted(registry, error)
    ensures EncodeError(error).Some?
  {
    hide MembersAccepted, LinksAccepted, EncodeLinks, ErrorCore, ErrorSourceCore;
    AcceptedLinksAreWritten(registry, error.links);
    if error.source.Some? {
      ErrorSourceCoreMembers(error.source.value);
      AcceptedNamesAreNotCore(registry, ErrorSourceScope, error.source.value.additional);
    }
    assert Lift(EncodeErrorSource, error.source).Some?;
    ErrorCoreNames(error, Lift(EncodeLinks, error.links).value, Lift(EncodeErrorSource, error.source).value);
    AcceptedNamesAreNotCore(registry, ErrorScope, error.additional);
  }

  lemma AcceptedErrorsAreWritten(registry: Registry, errors: seq<ErrorObject>)
    requires registry.WellFormed() && forall i :: 0 <= i < |errors| ==> ErrorAccepted(registry, errors[i])
    ensures EncodeErrors(errors).Some?
  {
    hide ErrorAccepted, EncodeError;
    forall i | 0 <= i < |errors| ensures EncodeError(errors[i]).Some? {
      AcceptedErrorIsWritten(registry, errors[i]);
    }
  }

  lemma AcceptedDataIsWritten(registry: Registry, data: Option<PrimaryData>)
    requires registry.WellFormed() && DataAccepted(registry, data)
    ensures Lift(EncodePrimaryData, data).Some?
  {
    hide ResourceAccepted, EncodeResource;
    match data
    case Some(ResourceData(one)) => AcceptedResourceIsWritten(registry, one);
    case Some(ResourceCollection(many)) => AcceptedResourcesAreWritten(registry, many);
    case _ =>
  }

  lemma AcceptedJSONAPIIsWritten(registry: Registry, jsonapi: JSONAPI)
    requires registry.WellFormed() && MembersAccepted(registry, JSONAPIScope, jsonapi.additional)
    ensures EncodeJSONAPI(jsonapi).Some?
  {
    hide MembersAccepted, JSONAPICore;
    JSONAPICoreMembers(jsonapi);
    AcceptedNamesAreNotCore(registry, JSONAPIScope, jsonapi.additional);
  }

  /** No accepted document makes `marshalObjectWithMembers` report a collision, at any depth. */
  lemma AcceptedDocumentIsWritten(registry: Registry, document: Document)
    requires registry.WellFormed() && DocumentAccepted(registry, document)
    ensures EncodeDocument(document).Some?
  {
    hide MembersAccepted, LinksAccepted, DataAccepted, ResourceAccepted, ErrorAccepted;
    hide EncodeJSONAPI, EncodeLinks, EncodePrimaryData, EncodeResources, EncodeErrors, DocumentCore;
    AcceptedLinksAreWritten(registry, document.links);
    AcceptedDataIsWritten(registry, document.data);
    if document.jsonapi.Some? {
      AcceptedJSONAPIIsWritten(registry, document.jsonapi.value);
    }
    if document.included.Some? {
      AcceptedResourcesAreWritten(registry, document.included.value);
    }
    if document.errors.Some? {
      AcceptedErrorsAreWritten(registry, document.errors.value);
    }
    DocumentCoreMembers(
      Lift(EncodeJSONAPI, document.jsonapi).value, Lift(EncodeLinks, document.links).value,
      Lift(EncodePrimaryData, document.data).value, Lift(EncodeResources, document.included).value,
      Lift(EncodeErrors, document.errors).value, OptionalObject(document.meta));
    AcceptedNamesAreNotCore(registry, TopLevelScope, document.additional);
  }
}
