/**
  The round trip against the document itself. `Normalised*` changes nothing but what the wire format
  cannot express: members named with a leading `@` are gone at every depth, and presence bits are set
  exactly where a member is written. Every other field is kept.

  The encoding of a link does not write every field that the `With*` methods can set, so a link comes
  back normalised only when it carries no more than the form it is written in.
 */
module Normalisation {
  import opened Documents
  import opened Registries
  import opened Encoder
  import opened Decoder
  import opened RoundTrip
  import opened Retraction

  function NormalisedLink(link: Link): Link {
    Link(
      Field(link.href.value, link.isObject),
      CanonicalField(link.rel),
      if link.describedBy.Some? then Some(NormalisedLink(link.describedBy.value)) else None,
      CanonicalField(link.title),
      CanonicalField(link.targetType),
      link.hreflang,
      CanonicalMembers(link.meta),
      StripMembers(link.additional),
      link.isObject,
      link.isNull,
      if link.extension.Some? then Some(StripAtMembers(link.extension.value)) else None)
  }

  function NormalisedLinks(links: Links): Links {
    map name | name in links && !IsAtName(name) :: NormalisedLink(links[name])
  }

  function NormalisedOptionalLinks(links: Option<Links>): Option<Links> {
    if links.Some? then Some(NormalisedLinks(links.value)) else None
  }

  function NormalisedRelationship(relationship: Relationship): Relationship {
    CanonicalRelationship(relationship).(links := NormalisedOptionalLinks(relationship.links))
  }

  function NormalisedRelationships(relationships: Option<Relationships>): Option<Relationships> {
    if relationships.None? then None
    else
      var all := relationships.value;
      Some(map name | name in all && !IsAtName(name) :: NormalisedRelationship(all[name]))
  }

  function NormalisedResource(resource: Resource): Resource {
    CanonicalResource(resource).(
      relationships := NormalisedRelationships(resource.relationships), links := NormalisedOptionalLinks(resource.links))
  }

  function NormalisedResources(resources: seq<Resource>): seq<Resource> {
    seq(|resources|, i requires 0 <= i < |resources| => NormalisedResource(resources[i]))
  }

  function NormalisedPrimaryData(data: PrimaryData): PrimaryData {
    match data
    case NullData => NullData
    case ResourceData(one) => ResourceData(NormalisedResource(one))
    case ResourceCollection(many) => ResourceCollection(NormalisedResources(many))
  }

  function NormalisedError(error: ErrorObject): ErrorObject {
    CanonicalError(error).(links := NormalisedOptionalLinks(error.links))
  }

  function NormalisedErrors(errors: seq<ErrorObject>): seq<ErrorObject> {
    seq(|errors|, i requires 0 <= i < |errors| => NormalisedError(errors[i]))
  }

  function NormalisedDocument(document: Document): Document {
    CanonicalDocument(document).(
      links := NormalisedOptionalLinks(document.links),
      data := if document.data.Some? then Some(NormalisedPrimaryData(document.data.value)) else None,
      included := if document.included.Some? then Some(NormalisedResources(document.included.value)) else None,
      errors := if document.errors.Some? then Some(NormalisedErrors(document.errors.value)) else None)
  }

  // Links whose written form says everything about them.

  predicate OnlyAtNames(members: Members) {
    forall name | name in members :: IsAtName(name)
  }

  /** No field that only an object could carry is set. */
  predicate Bare(link: Link) {
    && !link.isObject && !link.rel.Has() && link.describedBy.None? && !link.title.Has() && !link.targetType.Has()
    && link.hreflang.None? && link.meta.None? && OnlyAtNames(link.additional)
  }

  /** A scalar hreflang holds one tag. */
  predicate KeepsHreflang(hreflang: Option<Hreflang>) {
    hreflang.Some? && !hreflang.value.many ==> |hreflang.value.values| == 1
  }

  /** A string link carries its href only, a null or extension link not even that. */
  predicate KeepsFields(link: Link) {
    if link.extension.Some? then Bare(link) && !link.isNull && link.href.value == ""
    else if link.isNull then Bare(link) && link.href.value == ""
    else if !link.isObject then Bare(link)
    else KeepsHreflang(link.hreflang) && (link.describedBy.Some? ==> KeepsFields(link.describedBy.value))
  }

  predicate LinksKeepFields(links: Option<Links>) {
    links.Some? ==> forall name | name in links.value && !IsAtName(name) :: KeepsFields(links.value[name])
  }

  predicate RelationshipsKeepFields(relationships: Option<Relationships>) {
    relationships.Some? ==> forall name | name in relationships.value && !IsAtName(name) ::
      LinksKeepFields(relationships.value[name].links)
  }

  predicate ResourceKeepsFields(resource: Resource) {
    LinksKeepFields(resource.links) && RelationshipsKeepFields(resource.relationships)
  }

  predicate ResourcesKeepFields(resources: seq<Resource>) {
    forall i | 0 <= i < |resources| :: ResourceKeepsFields(resources[i])
  }

  predicate DataKeepsFields(data: PrimaryData) {
    match data
    case NullData => true
    case ResourceData(one) => ResourceKeepsFields(one)
    case ResourceCollection(many) => ResourcesKeepFields(many)
  }

  predicate ErrorsKeepFields(errors: seq<ErrorObject>) {
    forall i | 0 <= i < |errors| :: LinksKeepFields(errors[i].links)
  }

  predicate DocumentKeepsFields(document: Document) {
    && LinksKeepFields(document.links)
    && (document.data.Some? ==> DataKeepsFields(document.data.value))
    && (document.included.Some? ==> ResourcesKeepFields(document.included.value))
    && (document.errors.Some? ==> ErrorsKeepFields(document.errors.value))
  }

  // The two forms differ exactly where a link does not keep its fields, and conform alike.

  lemma OnlyAtNamesStrip(members: Members)
    ensures StripMembers(members) == map[] <==> OnlyAtNames(members)
  {
    hide StripAtMembers;
    if StripMembers(members) == map[] {
      forall name | name in members ensures IsAtName(name) {
        assert name !in StripMembers(members);
      }
    }
  }

  lemma MembersConformStripped(registry: Registry, scope: Scope, members: Members)
    ensures ConformsMembers(registry, scope, StripMembers(members)) ==> ConformsMembers(registry, scope, members)
  {
    hide StripAtMembers;
    forall name | name in members && !IsAtName(name)
      ensures name in StripMembers(members)
      ensures StripAtMembers(StripMembers(members)[name]) == StripAtMembers(members[name])
    {
      StripRemovesEveryAtMember(members[name]);
      StripRemovesEveryAtMember(StripAtMembers(members[name]));
    }
  }

  lemma HreflangForms(hreflang: Option<Hreflang>)
    ensures CanonicalHreflang(hreflang) == hreflang <==> KeepsHreflang(hreflang)
  {
    if hreflang.Some? && |hreflang.value.values| == 1 {
      assert hreflang.value.values == [hreflang.value.values[0]];
    }
  }

  lemma {:induction false} LinkForms(registry: Registry, link: Link)
    ensures CanonicalLink(link) == NormalisedLink(link) <==> KeepsFields(link)
    ensures ConformsLink(registry, NormalisedLink(link)) ==> ConformsLink(registry, link)
  {
    hide StripMembers, StripAtMembers, ConformsMembers, OnlyAtNames, CanonicalHreflang, KeepsHreflang;
    OnlyAtNamesStrip(link.additional);
    HreflangForms(link.hreflang);
    MembersConformStripped(registry, LinkObjectScope, link.additional);
    if link.describedBy.Some? {
      LinkForms(registry, link.describedBy.value);
    }
    assert ExtensionLink(Null).additional == URI(link.href.value).additional == NullLink().additional == map[];
  }

  lemma LinksForms(registry: Registry, links: Option<Links>)
    ensures CanonicalOptionalLinks(links) == NormalisedOptionalLinks(links) <==> LinksKeepFields(links)
    ensures ConformsLinks(registry, NormalisedOptionalLinks(links)) ==> ConformsLinks(registry, links)
  {
    hide CanonicalLink, NormalisedLink, KeepsFields, ConformsLinksMember;
    if links.Some? {
      forall name | name in links.value && !IsAtName(name)
        ensures CanonicalLink(links.value[name]) == NormalisedLink(links.value[name]) <==> KeepsFields(links.value[name])
        ensures ConformsLinksMember(registry, name, NormalisedLink(links.value[name])) ==>
          ConformsLinksMember(registry, name, links.value[name])
      {
        LinkForms(registry, links.value[name]);
        LinksMemberForms(registry, name, links.value[name]);
      }
      var canonical, normalised := CanonicalLinks(links.value), NormalisedLinks(links.value);
      assert canonical.Keys == normalised.Keys;
      if canonical == normalised {
        forall name | name in links.value && !IsAtName(name) ensures KeepsFields(links.value[name]) {
          assert canonical[name] == normalised[name];
        }
      }
    }
  }

  lemma LinksMemberForms(registry: Registry, name: string, link: Link)
    ensures ConformsLinksMember(registry, name, NormalisedLink(link)) ==> ConformsLinksMember(registry, name, link)
  {
    hide StripMembers, StripAtMembers, ConformsLink;
    LinkForms(registry, link);
    if link.extension.Some? {
      StripRemovesEveryAtMember(link.extension.value);
      StripRemovesEveryAtMember(StripAtMembers(link.extension.value));
    }
  }

  lemma IdentifierForms(registry: Registry, data: RelationshipData)
    ensures ConformsRelationshipData(registry, CanonicalRelationshipData(data)) ==> ConformsRelationshipData(registry, data)
  {
    hide StripMembers, ConformsMembers;
    match data
    case NullRelationship =>
    case ToOne(one) =>
      MembersConformStripped(registry, IdentifierScope, one.additional);
    case ToMany(many) =>
      var canonical := CanonicalRelationshipData(data).many;
      forall i | 0 <= i < |many|
        ensures ConformsIdentifier(registry, canonical[i]) ==> ConformsIdentifier(registry, many[i])
      {
        MembersConformStripped(registry, IdentifierScope, many[i].additional);
      }
  }

  lemma RelationshipForms(registry: Registry, relationship: Relationship)
    ensures CanonicalRelationship(relationship) == NormalisedRelationship(relationship) <==>
      LinksKeepFields(relationship.links)
    ensures ConformsRelationship(registry, NormalisedRelationship(relationship)) ==>
      ConformsRelationship(registry, relationship)
  {
    hide StripMembers, ConformsMembers, CanonicalOptionalLinks, NormalisedOptionalLinks, LinksKeepFields, ConformsLinks;
    hide ConformsRelationshipData, CanonicalRelationshipData;
    LinksForms(registry, relationship.links);
    MembersConformStripped(registry, RelationshipScope, relationship.additional);
    if relationship.data.Some? {
      IdentifierForms(registry, relationship.data.value);
    }
  }

  function CanonicalOptionalRelationships(relationships: Option<Relationships>): Option<Relationships> {
    if relationships.Some? then Some(CanonicalRelationships(relationships.value)) else None
  }

  lemma RelationshipsForms(registry: Registry, relationships: Option<Relationships>)
    ensures CanonicalOptionalRelationships(relationships) == NormalisedRelationships(relationships) <==>
      RelationshipsKeepFields(relationships)
    ensures relationships.Some? && ConformsRelationships(registry, NormalisedRelationships(relationships).value) ==>
      ConformsRelationships(registry, relationships.value)
  {
    hide CanonicalRelationship, NormalisedRelationship, LinksKeepFields, ConformsRelationship;
    if relationships.Some? {
      var all := relationships.value;
      forall name | name in all && !IsAtName(name)
        ensures CanonicalRelationship(all[name]) == NormalisedRelationship(all[name]) <==> LinksKeepFields(all[name].links)
        ensures ConformsRelationship(registry, NormalisedRelationship(all[name])) ==>
          ConformsRelationship(registry, all[name])
      {
        RelationshipForms(registry, all[name]);
      }
      var canonical, normalised := CanonicalRelationships(all), NormalisedRelationships(relationships).value;
      assert canonical.Keys == normalised.Keys;
      if canonical == normalised {
        forall name | name in all && !IsAtName(name) ensures LinksKeepFields(all[name].links) {
          assert canonical[name] == normalised[name];
        }
      }
      forall name | name in all && !IsAtName(name) ensures name in normalised && !IsAtName(name) {
      }
    }
  }

  lemma ResourceForms(registry: Registry, resource: Resource)
    ensures CanonicalResource(resource) == NormalisedResource(resource) <==> ResourceKeepsFields(resource)
    ensures ConformsResource(registry, NormalisedResource(resource)) ==> ConformsResource(registry, resource)
  {
    hide StripMembers, ConformsMembers, CanonicalOptionalLinks, NormalisedOptionalLinks, LinksKeepFields, ConformsLinks;
    hide ConformsRelationships, CanonicalRelationships, NormalisedRelationships, RelationshipsKeepFields;
    LinksForms(registry, resource.links);
    RelationshipsForms(registry, resource.relationships);
    MembersConformStripped(registry, ResourceScope, resource.additional);
    assert CanonicalResource(resource).relationships == CanonicalOptionalRelationships(resource.relationships);
    assert NormalisedRelationships(resource.relationships).Some? <==> resource.relationships.Some? by {
      NormalisedPresence(resource.relationships);
    }
  }

  lemma NormalisedPresence(relationships: Option<Relationships>)
    ensures NormalisedRelationships(relationships).Some? <==> relationships.Some?
  {
  }

  lemma ResourcesForms(registry: Registry, resources: seq<Resource>)
    ensures CanonicalResources(resources) == NormalisedResources(resources) <==> ResourcesKeepFields(resources)
    ensures ConformsResources(registry, NormalisedResources(resources)) ==> ConformsResources(registry, resources)
  {
    hide CanonicalResource, NormalisedResource, ResourceKeepsFields, ConformsResource;
    var canonical, normalised := CanonicalResources(resources), NormalisedResources(resources);
    forall i | 0 <= i < |resources|
      ensures canonical[i] == normalised[i] <==> ResourceKeepsFields(resources[i])
      ensures ConformsResource(registry, normalised[i]) ==> ConformsResource(registry, resources[i])
    {
      ResourceForms(registry, resources[i]);
    }
    assert canonical == normalised <==> forall i :: 0 <= i < |resources| ==> canonical[i] == normalised[i];
  }

  lemma PrimaryDataForms(registry: Registry, data: PrimaryData)
    ensures CanonicalPrimaryData(data) == NormalisedPrimaryData(data) <==> DataKeepsFields(data)
    ensures ConformsPrimaryData(registry, NormalisedPrimaryData(data)) ==> ConformsPrimaryData(registry, data)
  {
    hide CanonicalResource, NormalisedResource, ResourceKeepsFields, ConformsResource;
    hide CanonicalResources, NormalisedResources, ResourcesKeepFields, ConformsResources;
    match data
    case NullData =>
    case ResourceData(one) => ResourceForms(registry, one);
    case ResourceCollection(many) => ResourcesForms(registry, many);
  }

  lemma ErrorForms(registry: Registry, error: ErrorObject)
    ensures CanonicalError(error) == NormalisedError(error) <==> LinksKeepFields(error.links)
    ensures ConformsError(registry, NormalisedError(error)) ==> ConformsError(registry, error)
  {
    hide StripMembers, ConformsMembers, CanonicalOptionalLinks, NormalisedOptionalLinks, LinksKeepFields, ConformsLinks;
    LinksForms(registry, error.links);
    MembersConformStripped(registry, ErrorScope, error.additional);
    if error.source.Some? {
      MembersConformStripped(registry, ErrorSourceScope, error.source.value.additional);
    }
  }

  lemma ErrorsForms(registry: Registry, errors: seq<ErrorObject>)
    ensures CanonicalErrors(errors) == NormalisedErrors(errors) <==> ErrorsKeepFields(errors)
    ensures ConformsErrors(registry, NormalisedErrors(errors)) ==> ConformsErrors(registry, errors)
  {
    hide CanonicalError, NormalisedError, LinksKeepFields, ConformsError;
    var canonical, normalised := CanonicalErrors(errors), NormalisedErrors(errors);
    forall i | 0 <= i < |errors|
      ensures canonical[i] == normalised[i] <==> LinksKeepFields(errors[i].links)
      ensures ConformsError(registry, normalised[i]) ==> ConformsError(registry, errors[i])
    {
      ErrorForms(registry, errors[i]);
    }
    assert canonical == normalised <==> forall i :: 0 <= i < |errors| ==> canonical[i] == normalised[i];
  }

  lemma DocumentForms(registry: Registry, document: Document)
    ensures CanonicalDocument(document) == NormalisedDocument(document) <==> DocumentKeepsFields(document)
    ensures ConformsDocument(registry, NormalisedDocument(document)) ==> ConformsDocument(registry, document)
  {
    hide StripMembers, ConformsMembers, CanonicalOptionalLinks, NormalisedOptionalLinks, LinksKeepFields, ConformsLinks;
    hide CanonicalPrimaryData, NormalisedPrimaryData, DataKeepsFields, ConformsPrimaryData;
    hide CanonicalResources, NormalisedResources, ResourcesKeepFields, ConformsResources;
    hide CanonicalErrors, NormalisedErrors, ErrorsKeepFields, ConformsErrors;
    LinksForms(registry, document.links);
    MembersConformStripped(registry, TopLevelScope, document.additional);
    if document.jsonapi.Some? {
      MembersConformStripped(registry, JSONAPIScope, document.jsonapi.value.additional);
    }
    if document.data.Some? {
      PrimaryDataForms(registry, document.data.value);
    }
    if document.included.Some? {
      ResourcesForms(registry, document.included.value);
    }
    if document.errors.Some? {
      ErrorsForms(registry, document.errors.value);
    }
  }

  // The round trip.

  /** A link comes back as it was exactly when it conforms and its written form keeps its fields. */
  lemma LinkReturns(registry: Registry, link: Link)
    requires registry.WellFormed() && EncodeLink(link).Some?
    ensures DecodeLink(registry, EncodeLink(link).value) == Some(NormalisedLink(link)) <==>
      ConformsLink(registry, link) && KeepsFields(link)
  {
    hide EncodeLink, DecodeLink, CanonicalLink, NormalisedLink, ConformsLink, KeepsFields;
    LinkReadsBack(registry, link);
    LinkForms(registry, link);
    if DecodeLink(registry, EncodeLink(link).value).Some? {
      LinkSettled(registry, EncodeLink(link).value);
    }
  }

  lemma LinksReturn(registry: Registry, links: Links)
    requires registry.WellFormed() && EncodeLinks(links).Some?
    ensures DecodeLinks(registry, EncodeLinks(links).value) == Some(NormalisedLinks(links)) <==>
      ConformsLinks(registry, Some(links)) && LinksKeepFields(Some(links))
  {
    hide EncodeLinks, DecodeLinks, CanonicalLinks, NormalisedLinks, ConformsLinks, LinksKeepFields;
    LinksReadBack(registry, links);
    LinksForms(registry, Some(links));
    if DecodeLinks(registry, EncodeLinks(links).value).Some? {
      LinksSettled(registry, EncodeLinks(links).value);
    }
  }

  lemma RelationshipReturns(registry: Registry, relationship: Relationship)
    requires registry.WellFormed() && EncodeRelationship(relationship).Some?
    ensures DecodeRelationship(registry, EncodeRelationship(relationship).value)
        == Some(NormalisedRelationship(relationship))
      <==> ConformsRelationship(registry, relationship) && LinksKeepFields(relationship.links)
  {
    hide EncodeRelationship, DecodeRelationship, CanonicalRelationship, NormalisedRelationship, ConformsRelationship;
    RelationshipReadsBack(registry, relationship);
    RelationshipForms(registry, relationship);
    if DecodeRelationship(registry, EncodeRelationship(relationship).value).Some? {
      RelationshipSettled(registry, EncodeRelationship(relationship).value);
    }
  }

  lemma ResourceReturns(registry: Registry, resource: Resource)
    requires registry.WellFormed() && EncodeResource(resource).Some?
    ensures DecodeResource(registry, EncodeResource(resource).value) == Some(NormalisedResource(resource)) <==>
      ConformsResource(registry, resource) && ResourceKeepsFields(resource)
  {
    hide EncodeResource, DecodeResource, CanonicalResource, NormalisedResource, ConformsResource, ResourceKeepsFields;
    ResourceReadsBack(registry, resource);
    ResourceForms(registry, resource);
    if DecodeResource(registry, EncodeResource(resource).value).Some? {
      ResourceSettled(registry, EncodeResource(resource).value);
    }
  }

  lemma ErrorReturns(registry: Registry, error: ErrorObject)
    requires registry.WellFormed() && EncodeError(error).Some?
    ensures DecodeError(registry, EncodeError(error).value) == Some(NormalisedError(error)) <==>
      ConformsError(registry, error) && LinksKeepFields(error.links)
  {
    hide EncodeError, DecodeError, CanonicalError, NormalisedError, ConformsError;
    ErrorReadsBack(registry, error);
    ErrorForms(registry, error);
    if DecodeError(registry, EncodeError(error).value).Some? {
      ErrorSettled(registry, EncodeError(error).value);
    }
  }

  /**
    Encoding and then decoding returns the document itself, `@` members gone and presence normalised,
    exactly when it conforms to the registry and every link keeps its fields.
   */
  lemma DocumentReturns(registry: Registry, document: Document)
    requires registry.WellFormed() && EncodeDocument(document).Some?
    ensures DecodeDocument(registry, EncodeDocument(document).value) == Some(NormalisedDocument(document)) <==>
      ConformsDocument(registry, document) && DocumentKeepsFields(document)
  {
    hide EncodeDocument, DecodeDocument, CanonicalDocument, NormalisedDocument, ConformsDocument, DocumentKeepsFields;
    DocumentReadsBack(registry, document);
    DocumentForms(registry, document);
    if DecodeDocument(registry, EncodeDocument(document).value).Some? {
      DocumentSettled(registry, EncodeDocument(document).value);
    }
  }

  /** What the constructors of links that are not objects build keeps its fields. */
  lemma ConstructedLinksKeepFields(href: string, value: Tree)
    ensures KeepsFields(URI(href)) && KeepsFields(NullLink()) && KeepsFields(ExtensionLink(value))
    ensures NormalisedLink(URI(href)) == URI(href) && NormalisedLink(NullLink()) == NullLink()
  {
  }

  /** A hreflang that was never given a tag comes back as one that holds the empty tag. */
  lemma ZeroHreflangGainsATag(registry: Registry, href: string)
    requires registry.WellFormed()
    ensures var link := URI(href).(
                isObject := true, href := Field(href, true), hreflang := Some(Hreflang([], false)));
      && EncodeLink(link).Some?
      && DecodeLink(registry, EncodeLink(link).value) == Some(link.(hreflang := Some(Hreflang([""], false))))
      && !KeepsFields(link)
  {
    hide EncodeLink, DecodeLink;
    var link := URI(href).(isObject := true, href := Field(href, true), hreflang := Some(Hreflang([], false)));
    LinkEncodes(registry, link);
    LinkReadsBack(registry, link);
    assert StripMembers(map[]) == map[];
  }
}
