/**
  Decoding is a retraction: what a decoder accepted, the encoder writes back, and reading that
  again gives the same document. The one exception is a link object without `href`: it decodes
  with the member absent, and the encoder always writes the member.
 */
module Retraction {
  import opened Documents
  import opened Registries
  import opened Encoder
  import opened Decoder
  import opened RoundTrip

  // Every link object carries an `href` member, at every place and along `describedby`.

  predicate HrefsPresentInLink(link: Link) {
    ObjectForm(link) ==>
      && link.href.present
      && (link.describedBy.Some? ==> HrefsPresentInLink(link.describedBy.value))
  }

  predicate HrefsPresentInLinks(links: Option<Links>) {
    links.Some? ==> forall name | name in links.value :: HrefsPresentInLink(links.value[name])
  }

  predicate HrefsPresentInRelationships(relationships: Option<Relationships>) {
    relationships.Some? ==>
      forall name | name in relationships.value :: HrefsPresentInLinks(relationships.value[name].links)
  }

  predicate HrefsPresentInResource(resource: Resource) {
    HrefsPresentInLinks(resource.links) && HrefsPresentInRelationships(resource.relationships)
  }

  predicate HrefsPresentInResources(resources: seq<Resource>) {
    forall i | 0 <= i < |resources| :: HrefsPresentInResource(resources[i])
  }

  predicate HrefsPresentInPrimaryData(data: PrimaryData) {
    match data
    case NullData => true
    case ResourceData(one) => HrefsPresentInResource(one)
    case ResourceCollection(many) => HrefsPresentInResources(many)
  }

  predicate HrefsPresentInErrors(errors: seq<ErrorObject>) {
    forall i | 0 <= i < |errors| :: HrefsPresentInLinks(errors[i].links)
  }

  predicate HrefsPresent(document: Document) {
    && HrefsPresentInLinks(document.links)
    && (document.data.Some? ==> HrefsPresentInPrimaryData(document.data.value))
    && (document.included.Some? ==> HrefsPresentInResources(document.included.value))
    && (document.errors.Some? ==> HrefsPresentInErrors(document.errors.value))
  }

  // Leaves.

  lemma MembersSettled(value: Option<Tree>)
    requires Lift(DecodeMembers, value).Some?
    ensures var members := Lift(DecodeMembers, value).value; CanonicalMembers(members) == members
  {
    if value.Some? {
      StripMembersRemovesEveryAtMember(value.value.members);
      StripMembersRemovesEveryAtMember(StripMembers(value.value.members));
    }
  }

  lemma FieldSettled(value: Option<Tree>)
    requires DecodeString(value).Some?
    ensures var field := DecodeString(value).value; CanonicalField(field) == field
  {
  }

  lemma AdditionalSettled(registry: Registry, scope: Scope, members: Members)
    requires registry.WellFormed() && ExtractMembers(registry, scope, members).Some?
    ensures var additional := ExtractMembers(registry, scope, members).value;
      && StripMembers(additional) == additional
      && ConformsMembers(registry, scope, additional)
      && forall name :: name in additional ==> ':' in name
  {
    var additional := ExtractMembers(registry, scope, members).value;
    forall name | name in additional
      ensures !IsAtName(name) && ':' in name && StripAtMembers(additional[name]) == additional[name]
    {
      StripRemovesEveryAtMember(members[name]);
      StripRemovesEveryAtMember(StripAtMembers(members[name]));
    }
    assert StripMembers(additional) == additional;
  }

  lemma HreflangSettled(value: Option<Tree>)
    requires Lift(DecodeHreflang, value).Some?
    ensures var hreflang := Lift(DecodeHreflang, value).value; CanonicalHreflang(hreflang) == hreflang
  {
  }

  // Objects: a decoded value conforms, encodes, and is canonical exactly when its hrefs are present.

  lemma {:induction false} LinkSettled(registry: Registry, value: Tree)
    requires registry.WellFormed() && DecodeLink(registry, value).Some?
    ensures var link := DecodeLink(registry, value).value;
      && ConformsLink(registry, link)
      && EncodeLink(link).Some?
      && (CanonicalLink(link) == link <==> HrefsPresentInLink(link))
  {
    var link := DecodeLink(registry, value).value;
    if value.Object? {
      var members := value.members;
      AdditionalSettled(registry, LinkObjectScope, members);
      if "describedby" in members {
        LinkSettled(registry, members["describedby"]);
      }
      LinkEncodes(registry, link);
      FieldSettled(Get(members, "rel"));
      FieldSettled(Get(members, "title"));
      FieldSettled(Get(members, "type"));
      HreflangSettled(Get(members, "hreflang"));
      MembersSettled(Get(members, "meta"));
    }
  }

  lemma LinkEncodes(registry: Registry, link: Link)
    requires ObjectForm(link)
    requires link.describedBy.Some? ==> EncodeLink(link.describedBy.value).Some?
    requires forall name :: name in link.additional ==> ':' in name
    ensures EncodeLink(link).Some?
  {
    LinkCoreNames(link, EncodeDescribedBy(link).value);
  }

  lemma LinksSettled(registry: Registry, value: Tree)
    requires registry.WellFormed() && DecodeLinks(registry, value).Some?
    ensures var links := DecodeLinks(registry, value).value;
      && ConformsLinks(registry, Some(links))
      && EncodeLinks(links).Some?
      && (CanonicalLinks(links) == links <==> HrefsPresentInLinks(Some(links)))
  {
    var links := DecodeLinks(registry, value).value;
    forall name | name in links
      ensures ConformsLinksMember(registry, name, links[name]) && EncodeLink(links[name]).Some?
      ensures CanonicalLink(links[name]) == links[name] <==> HrefsPresentInLink(links[name])
    {
      if registry.Registered(LinksObjectScope, name) {
        StripRemovesEveryAtMember(value.members[name]);
        StripRemovesEveryAtMember(StripAtMembers(value.members[name]));
      } else {
        LinkSettled(registry, value.members[name]);
      }
    }
    if HrefsPresentInLinks(Some(links)) {
      assert CanonicalLinks(links) == links;
    }
  }

  lemma OptionalLinksSettled(registry: Registry, value: Option<Tree>)
    requires registry.WellFormed() && DecodeOptionalLinks(registry, value).Some?
    ensures var links := DecodeOptionalLinks(registry, value).value;
      && ConformsLinks(registry, links)
      && Lift(EncodeLinks, links).Some?
      && (CanonicalOptionalLinks(links) == links <==> HrefsPresentInLinks(links))
  {
    if value.Some? {
      LinksSettled(registry, value.value);
    }
  }

  lemma IdentifierSettled(registry: Registry, value: Tree)
    requires registry.WellFormed() && DecodeIdentifier(registry, value).Some?
    ensures var identifier := DecodeIdentifier(registry, value).value;
      && ConformsIdentifier(registry, identifier)
      && EncodeIdentifier(identifier).Some?
      && CanonicalIdentifier(identifier) == identifier
  {
    var identifier := DecodeIdentifier(registry, value).value;
    AdditionalSettled(registry, IdentifierScope, value.members);
    IdentifierCoreMembers(identifier);
    FieldSettled(Get(value.members, "id"));
    FieldSettled(Get(value.members, "lid"));
    MembersSettled(Get(value.members, "meta"));
  }

  lemma RelationshipDataSettled(registry: Registry, value: Option<Tree>)
    requires registry.WellFormed() && DecodeOptionalRelationshipData(registry, value).Some?
    ensures var data := DecodeOptionalRelationshipData(registry, value).value;
      && Lift(EncodeRelationshipData, data).Some?
      && (data.Some? ==> ConformsRelationshipData(registry, data.value))
      && (data.Some? ==> CanonicalRelationshipData(data.value) == data.value)
  {
    if value.Some? {
      match value.value
      case Object(_) =>
        IdentifierSettled(registry, value.value);
      case Array(items) =>
        var many := DecodeRelationshipData(registry, value.value).value.many;
        forall i | 0 <= i < |items|
          ensures ConformsIdentifier(registry, many[i]) && EncodeIdentifier(many[i]).Some?
          ensures CanonicalIdentifier(many[i]) == many[i]
        {
          IdentifierSettled(registry, items[i]);
        }
        assert CanonicalRelationshipData(ToMany(many)).many == many;
      case _ =>
    }
  }

  lemma RelationshipSettled(registry: Registry, value: Tree)
    requires registry.WellFormed() && DecodeRelationship(registry, value).Some?
    ensures var relationship := DecodeRelationship(registry, value).value;
      && ConformsRelationship(registry, relationship)
      && EncodeRelationship(relationship).Some?
      && (CanonicalRelationship(relationship) == relationship <==> HrefsPresentInLinks(relationship.links))
  {
    var relationship := DecodeRelationship(registry, value).value;
    AdditionalSettled(registry, RelationshipScope, value.members);
    OptionalLinksSettled(registry, Get(value.members, "links"));
    RelationshipDataSettled(registry, Get(value.members, "data"));
    MembersSettled(Get(value.members, "meta"));
    RelationshipCoreMembers(relationship,
      Lift(EncodeLinks, relationship.links).value, Lift(EncodeRelationshipData, relationship.data).value);
  }

  lemma RelationshipsSettled(registry: Registry, value: Option<Tree>)
    requires registry.WellFormed() && DecodeOptionalRelationships(registry, value).Some?
    ensures var relationships := DecodeOptionalRelationships(registry, value).value;
      && (relationships.Some? ==> ConformsRelationships(registry, relationships.value))
      && Lift(EncodeRelationships, relationships).Some?
      && (relationships.Some? ==>
            (CanonicalRelationships(relationships.value) == relationships.value <==>
             HrefsPresentInRelationships(relationships)))
  {
    if value.Some? {
      var relationships := DecodeRelationships(registry, value.value).value;
      forall name | name in relationships
        ensures ConformsRelationship(registry, relationships[name]) && EncodeRelationship(relationships[name]).Some?
        ensures CanonicalRelationship(relationships[name]) == relationships[name]
          <==> HrefsPresentInLinks(relationships[name].links)
      {
        RelationshipSettled(registry, value.value.members[name]);
      }
      if HrefsPresentInRelationships(Some(relationships)) {
        assert CanonicalRelationships(relationships) == relationships;
      }
    }
  }

  lemma ResourceSettled(registry: Registry, value: Tree)
    requires registry.WellFormed() && DecodeResource(registry, value).Some?
    ensures var resource := DecodeResource(registry, value).value;
      && ConformsResource(registry, resource)
      && EncodeResource(resource).Some?
      && (CanonicalResource(resource) == resource <==> HrefsPresentInResource(resource))
  {
    var resource := DecodeResource(registry, value).value;
    var members := value.members;
    ResourceKeepsExtracted(registry, members);
    AdditionalSettled(registry, ResourceScope, members);
    OptionalLinksSettled(registry, Get(members, "links"));
    RelationshipsSettled(registry, Get(members, "relationships"));
    ResourceLeavesSettled(registry, value);
    ResourceCoreNames(resource,
      Lift(EncodeRelationships, resource.relationships).value, Lift(EncodeLinks, resource.links).value);
  }

  lemma ResourceLeavesSettled(registry: Registry, value: Tree)
    requires DecodeResource(registry, value).Some?
    ensures var resource := DecodeResource(registry, value).value;
      && CanonicalField(resource.id) == resource.id
      && CanonicalField(resource.lid) == resource.lid
      && CanonicalMembers(resource.attributes) == resource.attributes
      && CanonicalMembers(resource.meta) == resource.meta
      && DecodeOptionalLinks(registry, Get(value.members, "links")) == Some(resource.links)
      && DecodeOptionalRelationships(registry, Get(value.members, "relationships")) == Some(resource.relationships)
  {
    FieldSettled(Get(value.members, "id"));
    FieldSettled(Get(value.members, "lid"));
    MembersSettled(Get(value.members, "attributes"));
    MembersSettled(Get(value.members, "meta"));
  }

  lemma ResourcesSettled(registry: Registry, value: Tree)
    requires registry.WellFormed() && DecodeResources(registry, value).Some?
    ensures var resources := DecodeResources(registry, value).value;
      && ConformsResources(registry, resources)
      && EncodeResources(resources).Some?
      && (CanonicalResources(resources) == resources <==> HrefsPresentInResources(resources))
  {
    var resources := DecodeResources(registry, value).value;
    forall i | 0 <= i < |resources|
      ensures ConformsResource(registry, resources[i]) && EncodeResource(resources[i]).Some?
      ensures CanonicalResource(resources[i]) == resources[i] <==> HrefsPresentInResource(resources[i])
    {
      ResourceSettled(registry, value.items[i]);
    }
    if HrefsPresentInResources(resources) {
      assert CanonicalResources(resources) == resources;
    } else {
      var i :| 0 <= i < |resources| && !HrefsPresentInResource(resources[i]);
      assert CanonicalResources(resources)[i] != resources[i];
    }
  }

  lemma OptionalResourcesSettled(registry: Registry, value: Option<Tree>)
    requires registry.WellFormed() && DecodeOptionalResources(registry, value).Some?
    ensures var resources := DecodeOptionalResources(registry, value).value;
      && Lift(EncodeResources, resources).Some?
      && (resources.Some? ==>
            && ConformsResources(registry, resources.value)
            && (CanonicalResources(resources.value) == resources.value <==> HrefsPresentInResources(resources.value)))
  {
    if value.Some? {
      ResourcesSettled(registry, value.value);
    }
  }

  lemma PrimaryDataSettled(registry: Registry, value: Option<Tree>)
    requires registry.WellFormed() && DecodeOptionalPrimaryData(registry, value).Some?
    ensures var data := DecodeOptionalPrimaryData(registry, value).value;
      && Lift(EncodePrimaryData, data).Some?
      && (data.Some? ==>
            && ConformsPrimaryData(registry, data.value)
            && (CanonicalPrimaryData(data.value) == data.value <==> HrefsPresentInPrimaryData(data.value)))
  {
    if value.Some? {
      match value.value
      case Object(_) =>
        ResourceSettled(registry, value.value);
      case Array(_) =>
        ResourcesSettled(registry, value.value);
      case _ =>
    }
  }

  lemma ErrorSourceSettled(registry: Registry, value: Option<Tree>)
    requires registry.WellFormed() && DecodeOptionalErrorSource(registry, value).Some?
    ensures var source := DecodeOptionalErrorSource(registry, value).value;
      && Lift(EncodeErrorSource, source).Some?
      && (source.Some? ==>
            && ConformsMembers(registry, ErrorSourceScope, source.value.additional)
            && CanonicalErrorSource(source.value) == source.value)
  {
    if value.Some? {
      var source := DecodeErrorSource(registry, value.value).value;
      var members := value.value.members;
      AdditionalSettled(registry, ErrorSourceScope, members);
      ErrorSourceCoreMembers(source);
      FieldSettled(Get(members, "pointer"));
      FieldSettled(Get(members, "parameter"));
      FieldSettled(Get(members, "header"));
    }
  }

  lemma ErrorLeavesSettled(registry: Registry, value: Tree)
    requires DecodeError(registry, value).Some?
    ensures var error := DecodeError(registry, value).value;
      && CanonicalField(error.id) == error.id
      && CanonicalField(error.status) == error.status
      && CanonicalField(error.code) == error.code
      && CanonicalField(error.title) == error.title
      && CanonicalField(error.detail) == error.detail
      && CanonicalMembers(error.meta) == error.meta
      && DecodeOptionalLinks(registry, Get(value.members, "links")) == Some(error.links)
      && DecodeOptionalErrorSource(registry, Get(value.members, "source")) == Some(error.source)
  {
    FieldSettled(Get(value.members, "id"));
    FieldSettled(Get(value.members, "status"));
    FieldSettled(Get(value.members, "code"));
    FieldSettled(Get(value.members, "title"));
    FieldSettled(Get(value.members, "detail"));
    MembersSettled(Get(value.members, "meta"));
  }

  lemma ErrorSettled(registry: Registry, value: Tree)
    requires registry.WellFormed() && DecodeError(registry, value).Some?
    ensures var error := DecodeError(registry, value).value;
      && ConformsError(registry, error)
      && EncodeError(error).Some?
      && (CanonicalError(error) == error <==> HrefsPresentInLinks(error.links))
  {
    var error := DecodeError(registry, value).value;
    ErrorKeepsExtracted(registry, value.members);
    AdditionalSettled(registry, ErrorScope, value.members);
    OptionalLinksSettled(registry, Get(value.members, "links"));
    ErrorSourceSettled(registry, Get(value.members, "source"));
    ErrorLeavesSettled(registry, value);
    ErrorCoreNames(error, Lift(EncodeLinks, error.links).value, Lift(EncodeErrorSource, error.source).value);
  }

  lemma OptionalErrorsSettled(registry: Registry, value: Option<Tree>)
    requires registry.WellFormed() && DecodeOptionalErrors(registry, value).Some?
    ensures var errors := DecodeOptionalErrors(registry, value).value;
      && Lift(EncodeErrors, errors).Some?
      && (errors.Some? ==>
            && ConformsErrors(registry, errors.value)
            && (CanonicalErrors(errors.value) == errors.value <==> HrefsPresentInErrors(errors.value)))
  {
    if value.Some? {
      var errors := DecodeErrors(registry, value.value).value;
      forall i | 0 <= i < |errors|
        ensures ConformsError(registry, errors[i]) && EncodeError(errors[i]).Some?
        ensures CanonicalError(errors[i]) == errors[i] <==> HrefsPresentInLinks(errors[i].links)
      {
        ErrorSettled(registry, value.value.items[i]);
      }
      if HrefsPresentInErrors(errors) {
        assert CanonicalErrors(errors) == errors;
      } else {
        var i :| 0 <= i < |errors| && !HrefsPresentInLinks(errors[i].links);
        assert CanonicalErrors(errors)[i] != errors[i];
      }
    }
  }

  lemma JSONAPISettled(registry: Registry, value: Option<Tree>)
    requires registry.WellFormed() && DecodeOptionalJSONAPI(registry, value).Some?
    ensures var jsonapi := DecodeOptionalJSONAPI(registry, value).value;
      && Lift(EncodeJSONAPI, jsonapi).Some?
      && (jsonapi.Some? ==>
            && ConformsMembers(registry, JSONAPIScope, jsonapi.value.additional)
            && CanonicalJSONAPI(jsonapi.value) == jsonapi.value)
  {
    if value.Some? {
      var jsonapi := DecodeJSONAPI(registry, value.value).value;
      var members := value.value.members;
      AdditionalSettled(registry, JSONAPIScope, members);
      JSONAPICoreMembers(jsonapi);
      FieldSettled(Get(members, "version"));
      MembersSettled(Get(members, "meta"));
    }
  }

  lemma DocumentSettled(registry: Registry, value: Tree)
    requires registry.WellFormed() && DecodeDocument(registry, value).Some?
    ensures var document := DecodeDocument(registry, value).value;
      && ConformsDocument(registry, document)
      && EncodeDocument(document).Some?
      && (CanonicalDocument(document) == document <==> HrefsPresent(document))
  {
    hide DecodeLinks, DecodePrimaryData, DecodeResources, DecodeErrors, DecodeJSONAPI, ExtractMembers;
    hide EncodeLinks, EncodePrimaryData, EncodeResources, EncodeErrors, EncodeJSONAPI, ConformsLinks;
    hide ConformsMembers, ConformsPrimaryData, ConformsResources, ConformsErrors, StripMembers, DocumentCore;
    hide CanonicalLinks, CanonicalPrimaryData, CanonicalResources, CanonicalErrors, CanonicalJSONAPI, DecodeMembers;
    var document := DecodeDocument(registry, value).value;
    var members := value.members;
    AdditionalSettled(registry, TopLevelScope, members);
    JSONAPISettled(registry, Get(members, "jsonapi"));
    OptionalLinksSettled(registry, Get(members, "links"));
    PrimaryDataSettled(registry, Get(members, "data"));
    OptionalResourcesSettled(registry, Get(members, "included"));
    OptionalErrorsSettled(registry, Get(members, "errors"));
    MembersSettled(Get(members, "meta"));
    DocumentCoreMembers(
      Lift(EncodeJSONAPI, document.jsonapi).value,
      Lift(EncodeLinks, document.links).value,
      Lift(EncodePrimaryData, document.data).value,
      Lift(EncodeResources, document.included).value,
      Lift(EncodeErrors, document.errors).value,
      OptionalObject(document.meta));
  }

  /**
    For every accepted tree, `decode(encode(decode(value))) == decode(value)` exactly when every
    decoded link object has an `href`; encoding what was decoded never fails.
   */
  lemma DecodingIsARetraction(registry: Registry, value: Tree)
    requires registry.WellFormed() && DecodeDocument(registry, value).Some?
    ensures var document := DecodeDocument(registry, value).value;
      && EncodeDocument(document).Some?
      && DecodeDocument(registry, EncodeDocument(document).value) == Some(CanonicalDocument(document))
      && (DecodeDocument(registry, EncodeDocument(document).value) == Some(document) <==> HrefsPresent(document))
  {
    DocumentSettled(registry, value);
    DocumentReadsBack(registry, DecodeDocument(registry, value).value);
  }

  /** The encoding keeps every difference between canonical documents: absent, null and empty stay apart. */
  lemma EncodingIsInjective(registry: Registry, first: Document, second: Document)
    requires registry.WellFormed()
    requires ConformsDocument(registry, first) && ConformsDocument(registry, second)
    requires EncodeDocument(first).Some? && EncodeDocument(first) == EncodeDocument(second)
    ensures CanonicalDocument(first) == CanonicalDocument(second)
  {
    DocumentReadsBack(registry, first);
    DocumentReadsBack(registry, second);
  }

  /** Documents that differ once decoded are written differently, so no later reader confuses them. */
  lemma DecodedDocumentsStayApart(registry: Registry, first: Tree, second: Tree)
    requires registry.WellFormed()
    requires DecodeDocument(registry, first).Some? && DecodeDocument(registry, second).Some?
    requires HrefsPresent(DecodeDocument(registry, first).value) && HrefsPresent(DecodeDocument(registry, second).value)
    ensures EncodeDocument(DecodeDocument(registry, first).value) == EncodeDocument(DecodeDocument(registry, second).value)
      <==> DecodeDocument(registry, first) == DecodeDocument(registry, second)
  {
    hide DecodeDocument, EncodeDocument, HrefsPresent, CanonicalDocument;
    DecodingIsARetraction(registry, first);
    DecodingIsARetraction(registry, second);
  }
}
