/**
  Decoding of JSON trees into documents, as one pass that keeps the members registered for each
  scope in place. `decodeDocument` and the functions it calls are the case `NO_EXTENSIONS`.
  `None` is a `DecodeError`.
 */
module Decoder {
  import opened Documents
  import opened Registries

  function Get(members: Members, name: string): Option<Tree> {
    if name in members then Some(members[name]) else None
  }

  function DecodeObject(value: Tree): Option<Members> {
    if value.Object? then Some(value.members) else None
  }

  /** A string member: JSON null is refused, unlike in `encoding/json`. */
  function DecodeString(value: Option<Tree>): Option<Field> {
    match value
    case None => Some(ABSENT_FIELD)
    case Some(String(s)) => Some(Field(s, true))
    case _ => None
  }

  /** An array of strings: a null element is coerced to the empty string by `json.Unmarshal`. */
  function DecodeStrings(value: Tree): Option<seq<string>> {
    if value.Array? && forall i | 0 <= i < |value.items| :: value.items[i].String? || value.items[i].Null?
    then Some(seq(|value.items|, i requires 0 <= i < |value.items| =>
                if value.items[i].String? then value.items[i].s else ""))
    else None
  }

  /** Attributes and meta objects. */
  function DecodeMembers(value: Tree): Option<Members> {
    var members :- DecodeObject(value);
    Some(StripMembers(members))
  }

  function DecodeJSONAPI(registry: Registry, value: Tree): Option<JSONAPI> {
    var members :- DecodeObject(value);
    var additional :- ExtractMembers(registry, JSONAPIScope, members);
    var version :- DecodeString(Get(members, "version"));
    var ext :- Lift(DecodeStrings, Get(members, "ext"));
    var profile :- Lift(DecodeStrings, Get(members, "profile"));
    var meta :- Lift(DecodeMembers, Get(members, "meta"));
    Some(JSONAPI(version, ext, profile, meta, additional))
  }

  function DecodeOptionalJSONAPI(registry: Registry, value: Option<Tree>): Option<Option<JSONAPI>> {
    Lift(present => DecodeJSONAPI(registry, present), value)
  }

  function DecodeHreflang(value: Tree): Option<Hreflang> {
    if value.String? then Some(Hreflang([value.s], false))
    else
      var tags :- DecodeStrings(value);
      Some(Hreflang(tags, true))
  }

  /** The members of a link object that are neither links themselves nor registered. */
  function DecodeLinkLeaves(members: Members): Option<Link> {
    var href :- DecodeString(Get(members, "href"));
    var rel :- DecodeString(Get(members, "rel"));
    var title :- DecodeString(Get(members, "title"));
    var targetType :- DecodeString(Get(members, "type"));
    var hreflang :- Lift(DecodeHreflang, Get(members, "hreflang"));
    var meta :- Lift(DecodeMembers, Get(members, "meta"));
    Some(Link(href, rel, None, title, targetType, hreflang, meta, map[], true, false, None))
  }

  function DecodeLink(registry: Registry, value: Tree): Option<Link> {
    match value
    case Null => Some(NullLink())
    case String(href) => Some(URI(href))
    case Object(members) =>
      var additional :- ExtractMembers(registry, LinkObjectScope, members);
      var link :- DecodeLinkLeaves(members);
      var describedBy :-
        if "describedby" in members
        then var target :- DecodeLink(registry, members["describedby"]); Some(Some(target))
        else Some(None);
      Some(link.(describedBy := describedBy, additional := additional))
    case _ => None
  }

  /** One member of a links object: a registered member is an extension value, not a link. */
  function DecodeLinksMember(registry: Registry, name: string, value: Tree): Option<Link> {
    if registry.Registered(LinksObjectScope, name) then
      var stripped := StripAtMembers(value);
      if registry.Accepts(LinksObjectScope, name, stripped) then Some(ExtensionLink(stripped)) else None
    else DecodeLink(registry, value)
  }

  function DecodeLinks(registry: Registry, value: Tree): Option<Links> {
    var members :- DecodeObject(value);
    if forall name | name in members && !IsAtName(name) :: DecodeLinksMember(registry, name, members[name]).Some?
    then Some(map name | name in members && !IsAtName(name) :: DecodeLinksMember(registry, name, members[name]).value)
    else None
  }

  function DecodeOptionalLinks(registry: Registry, value: Option<Tree>): Option<Option<Links>> {
    Lift(present => DecodeLinks(registry, present), value)
  }

  function DecodeIdentifier(registry: Registry, value: Tree): Option<Identifier> {
    var members :- DecodeObject(value);
    var additional :- ExtractMembers(registry, IdentifierScope, members);
    var resourceType :- DecodeString(Get(members, "type"));
    var id :- DecodeString(Get(members, "id"));
    var lid :- DecodeString(Get(members, "lid"));
    var meta :- Lift(DecodeMembers, Get(members, "meta"));
    Some(Identifier(resourceType.value, id, lid, meta, additional))
  }

  function DecodeRelationshipData(registry: Registry, value: Tree): Option<RelationshipData> {
    match value
    case Null => Some(NullRelationship)
    case Object(_) =>
      var one :- DecodeIdentifier(registry, value);
      Some(ToOne(one))
    case Array(items) =>
      var many :- Each(item => DecodeIdentifier(registry, item), items);
      Some(ToMany(many))
    case _ => None
  }

  function DecodeOptionalRelationshipData(registry: Registry, value: Option<Tree>): Option<Option<RelationshipData>> {
    Lift(present => DecodeRelationshipData(registry, present), value)
  }

  function DecodeRelationship(registry: Registry, value: Tree): Option<Relationship> {
    var members :- DecodeObject(value);
    AssembleRelationship(
      ExtractMembers(registry, RelationshipScope, members),
      DecodeOptionalLinks(registry, Get(members, "links")),
      DecodeOptionalRelationshipData(registry, Get(members, "data")),
      Lift(DecodeMembers, Get(members, "meta")))
  }

  function AssembleRelationship(
    additional: Option<Members>, links: Option<Option<Links>>,
    data: Option<Option<RelationshipData>>, meta: Option<Option<Members>>): Option<Relationship>
  {
    if additional.Some? && links.Some? && data.Some? && meta.Some?
    then Some(Relationship(links.value, data.value, meta.value, additional.value))
    else None
  }

  function DecodeRelationships(registry: Registry, value: Tree): Option<Relationships> {
    var members :- DecodeObject(value);
    if forall name | name in members && !IsAtName(name) :: DecodeRelationship(registry, members[name]).Some?
    then Some(map name | name in members && !IsAtName(name) :: DecodeRelationship(registry, members[name]).value)
    else None
  }

  function DecodeOptionalRelationships(registry: Registry, value: Option<Tree>): Option<Option<Relationships>> {
    Lift(present => DecodeRelationships(registry, present), value)
  }

  /** Identity, attributes and meta of a resource object. */
  function DecodeResourceLeaves(members: Members): Option<Resource> {
    var resourceType :- DecodeString(Get(members, "type"));
    var id :- DecodeString(Get(members, "id"));
    var lid :- DecodeString(Get(members, "lid"));
    var attributes :- Lift(DecodeMembers, Get(members, "attributes"));
    var meta :- Lift(DecodeMembers, Get(members, "meta"));
    Some(Resource(resourceType.value, id, lid, attributes, None, None, meta, map[]))
  }

  function DecodeResource(registry: Registry, value: Tree): Option<Resource> {
    var members :- DecodeObject(value);
    AssembleResource(
      ExtractMembers(registry, ResourceScope, members),
      DecodeResourceLeaves(members),
      DecodeOptionalRelationships(registry, Get(members, "relationships")),
      DecodeOptionalLinks(registry, Get(members, "links")))
  }

  function AssembleResource(
    additional: Option<Members>, leaves: Option<Resource>,
    relationships: Option<Option<Relationships>>, links: Option<Option<Links>>): Option<Resource>
  {
    if additional.Some? && leaves.Some? && relationships.Some? && links.Some?
    then Some(leaves.value.(
                relationships := relationships.value, links := links.value, additional := additional.value))
    else None
  }

  function DecodeResources(registry: Registry, value: Tree): Option<seq<Resource>> {
    if value.Array? then Each(item => DecodeResource(registry, item), value.items) else None
  }

  function DecodeOptionalResources(registry: Registry, value: Option<Tree>): Option<Option<seq<Resource>>> {
    Lift(present => DecodeResources(registry, present), value)
  }

  function DecodePrimaryData(registry: Registry, value: Tree): Option<PrimaryData> {
    match value
    case Null => Some(NullData)
    case Object(_) =>
      var one :- DecodeResource(registry, value);
      Some(ResourceData(one))
    case Array(_) =>
      var many :- DecodeResources(registry, value);
      Some(ResourceCollection(many))
    case _ => None
  }

  function DecodeOptionalPrimaryData(registry: Registry, value: Option<Tree>): Option<Option<PrimaryData>> {
    Lift(present => DecodePrimaryData(registry, present), value)
  }

  function DecodeErrorSource(registry: Registry, value: Tree): Option<ErrorSource> {
    var members :- DecodeObject(value);
    var additional :- ExtractMembers(registry, ErrorSourceScope, members);
    var pointer :- DecodeString(Get(members, "pointer"));
    var parameter :- DecodeString(Get(members, "parameter"));
    var header :- DecodeString(Get(members, "header"));
    Some(ErrorSource(pointer, parameter, header, additional))
  }

  function DecodeOptionalErrorSource(registry: Registry, value: Option<Tree>): Option<Option<ErrorSource>> {
    Lift(present => DecodeErrorSource(registry, present), value)
  }

  /** The string members and meta of an error object. */
  function DecodeErrorLeaves(members: Members): Option<ErrorObject> {
    var id :- DecodeString(Get(members, "id"));
    var status :- DecodeString(Get(members, "status"));
    var code :- DecodeString(Get(members, "code"));
    var title :- DecodeString(Get(members, "title"));
    var detail :- DecodeString(Get(members, "detail"));
    var meta :- Lift(DecodeMembers, Get(members, "meta"));
    Some(ErrorObject(id, None, status, code, title, detail, None, meta, map[]))
  }

  function DecodeError(registry: Registry, value: Tree): Option<ErrorObject> {
    var members :- DecodeObject(value);
    AssembleError(
      ExtractMembers(registry, ErrorScope, members),
      DecodeErrorLeaves(members),
      DecodeOptionalLinks(registry, Get(members, "links")),
      DecodeOptionalErrorSource(registry, Get(members, "source")))
  }

  function AssembleError(
    additional: Option<Members>, leaves: Option<ErrorObject>,
    links: Option<Option<Links>>, source: Option<Option<ErrorSource>>): Option<ErrorObject>
  {
    if additional.Some? && leaves.Some? && links.Some? && source.Some?
    then Some(leaves.value.(links := links.value, source := source.value, additional := additional.value))
    else None
  }

  function DecodeErrors(registry: Registry, value: Tree): Option<seq<ErrorObject>> {
    if value.Array? then Each(item => DecodeError(registry, item), value.items) else None
  }

  function DecodeOptionalErrors(registry: Registry, value: Option<Tree>): Option<Option<seq<ErrorObject>>> {
    Lift(present => DecodeErrors(registry, present), value)
  }

  function DecodeDocument(registry: Registry, value: Tree): Option<Document> {
    var members :- DecodeObject(value);
    AssembleDocument(
      ExtractMembers(registry, TopLevelScope, members),
      DecodeOptionalJSONAPI(registry, Get(members, "jsonapi")),
      DecodeOptionalLinks(registry, Get(members, "links")),
      DecodeOptionalPrimaryData(registry, Get(members, "data")),
      DecodeOptionalResources(registry, Get(members, "included")),
      DecodeOptionalErrors(registry, Get(members, "errors")),
      Lift(DecodeMembers, Get(members, "meta")))
  }

  function AssembleDocument(
    additional: Option<Members>, jsonapi: Option<Option<JSONAPI>>, links: Option<Option<Links>>,
    data: Option<Option<PrimaryData>>, included: Option<Option<seq<Resource>>>,
    errors: Option<Option<seq<ErrorObject>>>, meta: Option<Option<Members>>): Option<Document>
  {
    if && additional.Some? && jsonapi.Some? && links.Some? && data.Some?
       && included.Some? && errors.Some? && meta.Some?
    then Some(Document(jsonapi.value, links.value, data.value, included.value, errors.value, meta.value, additional.value))
    else None
  }
}
