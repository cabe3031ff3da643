/**
  The `MarshalJSON` methods, read as encoders into JSON trees. `None` is the collision error of
  `marshalObjectWithMembers`: an additional member carries the name of an emitted core member.
 */
module Encoder {
  import opened Documents

  function OptionalString(field: Field): Option<Tree> {
    if field.value == "" && !field.present then None else Some(String(field.value))
  }

  function OptionalObject(members: Option<Members>): Option<Tree> {
    if members.Some? then Some(Object(members.value)) else None
  }

  function EncodeStrings(values: seq<string>): Tree {
    Array(seq(|values|, i requires 0 <= i < |values| => String(values[i])))
  }

  function OptionalStrings(values: Option<seq<string>>): Option<Tree> {
    if values.Some? then Some(EncodeStrings(values.value)) else None
  }

  /** One `omitempty` member of the struct handed to `json.Marshal`. */
  function Put(members: Members, name: string, value: Option<Tree>): Members {
    if value.Some? then members[name := value.value] else members
  }

  function ObjectWithMembers(core: Members, additional: Members): Option<Tree> {
    if core.Keys !! additional.Keys then Some(Object(core + additional)) else None
  }

  function JSONAPICore(jsonapi: JSONAPI): Members {
    Put(Put(Put(Put(map[],
      "version", OptionalString(jsonapi.version)),
      "ext", OptionalStrings(jsonapi.ext)),
      "profile", OptionalStrings(jsonapi.profile)),
      "meta", OptionalObject(jsonapi.meta))
  }

  function EncodeJSONAPI(jsonapi: JSONAPI): Option<Tree> {
    ObjectWithMembers(JSONAPICore(jsonapi), jsonapi.additional)
  }

  function HreflangValue(hreflang: Hreflang): Tree {
    if hreflang.many then EncodeStrings(hreflang.values)
    else if hreflang.values == [] then String("")
    else String(hreflang.values[0])
  }

  function OptionalHreflang(hreflang: Option<Hreflang>): Option<Tree> {
    if hreflang.Some? then Some(HreflangValue(hreflang.value)) else None
  }

  function EncodeLink(link: Link): Option<Tree> {
    if link.extension.Some? then Some(link.extension.value)
    else if link.isNull then Some(Null)
    else if !link.isObject then Some(String(link.href.value))
    else
      var describedBy :- EncodeDescribedBy(link);
      ObjectWithMembers(LinkCore(link, describedBy), link.additional)
  }

  function EncodeDescribedBy(link: Link): Option<Option<Tree>>
    decreases link, 0
  {
    match link.describedBy
    case None => Some(None)
    case Some(target) =>
      var encoded :- EncodeLink(target);
      Some(Some(encoded))
  }

  function LinkCore(link: Link, describedBy: Option<Tree>): Members {
    Put(Put(Put(Put(Put(Put(map["href" := String(link.href.value)],
      "rel", OptionalString(link.rel)),
      "describedby", describedBy),
      "title", OptionalString(link.title)),
      "type", OptionalString(link.targetType)),
      "hreflang", OptionalHreflang(link.hreflang)),
      "meta", OptionalObject(link.meta))
  }

  function EncodeLinks(links: Links): Option<Tree> {
    var members :- EachMember(EncodeLink, links);
    Some(Object(members))
  }

  function IdentifierCore(identifier: Identifier): Members {
    Put(Put(Put(map["type" := String(identifier.resourceType)],
      "id", OptionalString(identifier.id)),
      "lid", OptionalString(identifier.lid)),
      "meta", OptionalObject(identifier.meta))
  }

  function EncodeIdentifier(identifier: Identifier): Option<Tree> {
    ObjectWithMembers(IdentifierCore(identifier), identifier.additional)
  }

  function EncodeIdentifiers(identifiers: seq<Identifier>): Option<Tree> {
    var items :- Each(EncodeIdentifier, identifiers);
    Some(Array(items))
  }

  function EncodeRelationshipData(data: RelationshipData): Option<Tree> {
    match data
    case NullRelationship => Some(Null)
    case ToOne(one) => EncodeIdentifier(one)
    case ToMany(many) => EncodeIdentifiers(many)
  }

  function EncodeRelationship(relationship: Relationship): Option<Tree> {
    var links :- Lift(EncodeLinks, relationship.links);
    var data :- Lift(EncodeRelationshipData, relationship.data);
    ObjectWithMembers(RelationshipCore(relationship, links, data), relationship.additional)
  }

  function RelationshipCore(relationship: Relationship, links: Option<Tree>, data: Option<Tree>): Members {
    Put(Put(Put(map[],
      "links", links),
      "data", data),
      "meta", OptionalObject(relationship.meta))
  }

  function EncodeRelationships(relationships: Relationships): Option<Tree> {
    var members :- EachMember(EncodeRelationship, relationships);
    Some(Object(members))
  }

  function ResourceCore(resource: Resource, relationships: Option<Tree>, links: Option<Tree>): Members {
    Put(Put(Put(Put(Put(Put(map["type" := String(resource.resourceType)],
      "id", OptionalString(resource.id)),
      "lid", OptionalString(resource.lid)),
      "attributes", OptionalObject(resource.attributes)),
      "relationships", relationships),
      "links", links),
      "meta", OptionalObject(resource.meta))
  }

  function EncodeResource(resource: Resource): Option<Tree> {
    var relationships :- Lift(EncodeRelationships, resource.relationships);
    var links :- Lift(EncodeLinks, resource.links);
    ObjectWithMembers(ResourceCore(resource, relationships, links), resource.additional)
  }

  function EncodeResources(resources: seq<Resource>): Option<Tree> {
    var items :- Each(EncodeResource, resources);
    Some(Array(items))
  }

  function EncodePrimaryData(data: PrimaryData): Option<Tree> {
    match data
    case NullData => Some(Null)
    case ResourceData(one) => EncodeResource(one)
    case ResourceCollection(many) => EncodeResources(many)
  }

  function ErrorSourceCore(source: ErrorSource): Members {
    Put(Put(Put(map[],
      "pointer", OptionalString(source.pointer)),
      "parameter", OptionalString(source.parameter)),
      "header", OptionalString(source.header))
  }

  function EncodeErrorSource(source: ErrorSource): Option<Tree> {
    ObjectWithMembers(ErrorSourceCore(source), source.additional)
  }

  function ErrorCore(error: ErrorObject, links: Option<Tree>, source: Option<Tree>): Members {
    Put(Put(Put(Put(Put(Put(Put(Put(map[],
      "id", OptionalString(error.id)),
      "links", links),
      "status", OptionalString(error.status)),
      "code", OptionalString(error.code)),
      "title", OptionalString(error.title)),
      "detail", OptionalString(error.detail)),
      "source", source),
      "meta", OptionalObject(error.meta))
  }

  function EncodeError(error: ErrorObject): Option<Tree> {
    var links :- Lift(EncodeLinks, error.links);
    var source :- Lift(EncodeErrorSource, error.source);
    ObjectWithMembers(ErrorCore(error, links, source), error.additional)
  }

  function EncodeErrors(errors: seq<ErrorObject>): Option<Tree> {
    var items :- Each(EncodeError, errors);
    Some(Array(items))
  }

  function DocumentCore(
    jsonapi: Option<Tree>, links: Option<Tree>, data: Option<Tree>,
    included: Option<Tree>, errors: Option<Tree>, meta: Option<Tree>): Members
  {
    Put(Put(Put(Put(Put(Put(map[],
      "jsonapi", jsonapi),
      "links", links),
      "data", data),
      "included", included),
      "errors", errors),
      "meta", meta)
  }

  function EncodeDocument(document: Document): Option<Tree> {
    var jsonapi :- Lift(EncodeJSONAPI, document.jsonapi);
    var links :- Lift(EncodeLinks, document.links);
    var data :- Lift(EncodePrimaryData, document.data);
    var included :- Lift(EncodeResources, document.included);
    var errors :- Lift(EncodeErrors, document.errors);
    ObjectWithMembers(
      DocumentCore(jsonapi, links, data, included, errors, OptionalObject(document.meta)),
      document.additional)
  }
}
