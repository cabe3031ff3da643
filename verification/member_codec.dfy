/**
  The configured codec: registered members are taken out of the tree (`sanitize*`), the rest is
  decoded by the core decoder, and the members are put back by position or name (`attach*`).

  The functions here say what each of those steps computes; the module `MemberCodecSteps` proves
  the loops of the implementation against them.
 */
module MemberCodec {
  import opened Documents
  import opened Registries
  import opened Decoder
  import opened RoundTrip

  datatype LinkState = LinkState(members: Members, describedBy: Option<LinkState>)

  datatype LinksState = LinksState(members: Members, links: map<string, LinkState>)

  datatype RelationshipState = RelationshipState(members: Members, links: LinksState, identifiers: seq<Members>)

  datatype ResourceState = ResourceState(
    members: Members, links: LinksState, relationships: map<string, RelationshipState>)

  datatype ErrorState = ErrorState(members: Members, source: Members, links: LinksState)

  const NO_LINKS := LinksState(map[], map[])

  // Taking registered members out.

  function SanitizeObject(registry: Registry, scope: Scope, value: Tree): Option<(Tree, Members)> {
    var members :- DecodeObject(value);
    var extracted :- ExtractMembers(registry, scope, members);
    Some((Object(WithoutRegistered(registry, scope, members)), extracted))
  }

  function SanitizeLinkObject(registry: Registry, value: Tree): Option<(Tree, LinkState)>
    requires value.Object?
  {
    var extracted :- ExtractMembers(registry, LinkObjectScope, value.members);
    var rest := WithoutRegistered(registry, LinkObjectScope, value.members);
    if "describedby" in rest && rest["describedby"].Object? then
      var nested :- SanitizeLinkObject(registry, rest["describedby"]);
      Some((Object(rest["describedby" := nested.0]), LinkState(extracted, Some(nested.1))))
    else
      Some((Object(rest), LinkState(extracted, None)))
  }

  /** One entry of a links object: only objects hold link members. */
  function SanitizeLink(registry: Registry, value: Tree): Option<(Tree, Option<LinkState>)> {
    if value.Object? then
      var sanitized :- SanitizeLinkObject(registry, value);
      Some((sanitized.0, Some(sanitized.1)))
    else Some((value, None))
  }

  function SanitizeLinks(registry: Registry, value: Tree): Option<(Tree, LinksState)> {
    var outer :- SanitizeObject(registry, LinksObjectScope, value);
    var entries :- EachMember(link => SanitizeLink(registry, link), outer.0.members);
    Some((
      Object(map name | name in entries :: entries[name].0),
      LinksState(outer.1, map name | name in entries && entries[name].1.Some? :: entries[name].1.value)))
  }

  function SanitizeOptionalLinks(registry: Registry, value: Option<Tree>): Option<(Option<Tree>, LinksState)> {
    match value
    case None => Some((None, NO_LINKS))
    case Some(present) =>
      var sanitized :- SanitizeLinks(registry, present);
      Some((Some(sanitized.0), sanitized.1))
  }

  function SanitizeIdentifiers(registry: Registry, items: seq<Tree>): Option<seq<(Tree, Members)>> {
    Each(item => SanitizeObject(registry, IdentifierScope, item), items)
  }

  function Firsts<A, B>(pairs: seq<(A, B)>): seq<A> {
    seq(|pairs|, i requires 0 <= i < |pairs| => pairs[i].0)
  }

  function Seconds<A, B>(pairs: seq<(A, B)>): seq<B> {
    seq(|pairs|, i requires 0 <= i < |pairs| => pairs[i].1)
  }

  /** Values of another shape pass through; the core decoder refuses them. */
  function SanitizeIdentifierData(registry: Registry, value: Tree): Option<(Tree, seq<Members>)> {
    match value
    case Object(_) =>
      var one :- SanitizeObject(registry, IdentifierScope, value);
      Some((one.0, [one.1]))
    case Array(items) =>
      var many :- SanitizeIdentifiers(registry, items);
      Some((Array(Firsts(many)), Seconds(many)))
    case _ => Some((value, []))
  }

  function SanitizeOptionalIdentifierData(registry: Registry, value: Option<Tree>)
    : Option<(Option<Tree>, seq<Members>)>
  {
    match value
    case None => Some((None, []))
    case Some(present) =>
      var sanitized :- SanitizeIdentifierData(registry, present);
      Some((Some(sanitized.0), sanitized.1))
  }

  /** Overwrites a member that was present. */
  function Replace(members: Members, name: string, value: Option<Tree>): Members {
    if value.Some? then members[name := value.value] else members
  }

  function SanitizeRelationship(registry: Registry, value: Tree): Option<(Tree, RelationshipState)> {
    var outer :- SanitizeObject(registry, RelationshipScope, value);
    var rest := outer.0.members;
    var links :- SanitizeOptionalLinks(registry, Get(rest, "links"));
    var data :- SanitizeOptionalIdentifierData(registry, Get(rest, "data"));
    Some((
      Object(Replace(Replace(rest, "links", links.0), "data", data.0)),
      RelationshipState(outer.1, links.1, data.1)))
  }

  function SanitizeRelationships(registry: Registry, value: Tree)
    : Option<(Tree, map<string, RelationshipState>)>
  {
    var members :- DecodeObject(value);
    var entries :- EachMember(relationship => SanitizeRelationship(registry, relationship), members);
    Some((
      Object(map name | name in entries :: entries[name].0),
      map name | name in entries :: entries[name].1))
  }

  function SanitizeOptionalRelationships(registry: Registry, value: Option<Tree>)
    : Option<(Option<Tree>, map<string, RelationshipState>)>
  {
    match value
    case None => Some((None, map[]))
    case Some(present) =>
      var sanitized :- SanitizeRelationships(registry, present);
      Some((Some(sanitized.0), sanitized.1))
  }

  function SanitizeResource(registry: Registry, value: Tree): Option<(Tree, ResourceState)> {
    var outer :- SanitizeObject(registry, ResourceScope, value);
    var rest := outer.0.members;
    var links :- SanitizeOptionalLinks(registry, Get(rest, "links"));
    var relationships :- SanitizeOptionalRelationships(registry, Get(rest, "relationships"));
    Some((
      Object(Replace(Replace(rest, "links", links.0), "relationships", relationships.0)),
      ResourceState(outer.1, links.1, relationships.1)))
  }

  function SanitizeResources(registry: Registry, value: Tree): Option<(Tree, seq<ResourceState>)> {
    if value.Array? then
      var items :- Each(item => SanitizeResource(registry, item), value.items);
      Some((Array(Firsts(items)), Seconds(items)))
    else None
  }

  function SanitizePrimaryData(registry: Registry, value: Tree): Option<(Tree, seq<ResourceState>)> {
    match value
    case Null => Some((value, []))
    case Array(_) => SanitizeResources(registry, value)
    case _ =>
      var one :- SanitizeResource(registry, value);
      Some((one.0, [one.1]))
  }

  function SanitizeOptionalObject(registry: Registry, scope: Scope, value: Option<Tree>)
    : Option<(Option<Tree>, Members)>
  {
    match value
    case None => Some((None, map[]))
    case Some(present) =>
      var sanitized :- SanitizeObject(registry, scope, present);
      Some((Some(sanitized.0), sanitized.1))
  }

  function SanitizeError(registry: Registry, value: Tree): Option<(Tree, ErrorState)> {
    var outer :- SanitizeObject(registry, ErrorScope, value);
    var rest := outer.0.members;
    var links :- SanitizeOptionalLinks(registry, Get(rest, "links"));
    var source :- SanitizeOptionalObject(registry, ErrorSourceScope, Get(rest, "source"));
    Some((
      Object(Replace(Replace(rest, "links", links.0), "source", source.0)),
      ErrorState(outer.1, source.1, links.1)))
  }

  function SanitizeErrors(registry: Registry, value: Tree): Option<(Tree, seq<ErrorState>)> {
    if value.Array? then
      var items :- Each(item => SanitizeError(registry, item), value.items);
      Some((Array(Firsts(items)), Seconds(items)))
    else None
  }

  // Putting them back.

  function AttachLink(link: Link, state: LinkState): Link {
    link.(
      additional := state.members,
      describedBy :=
        if link.describedBy.Some? && state.describedBy.Some?
        then Some(AttachLink(link.describedBy.value, state.describedBy.value))
        else link.describedBy)
  }

  function AttachLinks(links: Links, state: LinksState): Links {
    var all := links + map name | name in state.members :: ExtensionLink(state.members[name]);
    map name | name in all :: if name in state.links then AttachLink(all[name], state.links[name]) else all[name]
  }

  function AttachOptionalLinks(links: Option<Links>, state: LinksState): Option<Links> {
    if links.Some? then Some(AttachLinks(links.value, state)) else None
  }

  function AttachIdentifiers(data: RelationshipData, members: seq<Members>): RelationshipData {
    match data
    case NullRelationship => data
    case ToOne(one) => if |members| > 0 then ToOne(one.(additional := members[0])) else data
    case ToMany(many) =>
      ToMany(seq(|many|, i requires 0 <= i < |many| =>
        if i < |members| then many[i].(additional := members[i]) else many[i]))
  }

  function AttachOptionalIdentifiers(data: Option<RelationshipData>, members: seq<Members>): Option<RelationshipData> {
    if data.Some? then Some(AttachIdentifiers(data.value, members)) else None
  }

  function AttachRelationship(relationship: Relationship, state: RelationshipState): Relationship {
    relationship.(
      additional := state.members,
      links := AttachOptionalLinks(relationship.links, state.links),
      data := AttachOptionalIdentifiers(relationship.data, state.identifiers))
  }

  function AttachRelationships(relationships: Relationships, states: map<string, RelationshipState>): Relationships {
    map name | name in relationships ::
      if name in states then AttachRelationship(relationships[name], states[name]) else relationships[name]
  }

  function AttachOptionalRelationships(
    relationships: Option<Relationships>, states: map<string, RelationshipState>): Option<Relationships>
  {
    if relationships.Some? then Some(AttachRelationships(relationships.value, states)) else None
  }

  function AttachResource(resource: Resource, state: ResourceState): Resource {
    resource.(
      additional := state.members,
      links := AttachOptionalLinks(resource.links, state.links),
      relationships := AttachOptionalRelationships(resource.relationships, state.relationships))
  }

  function AttachResources(resources: seq<Resource>, states: seq<ResourceState>): seq<Resource> {
    seq(|resources|, i requires 0 <= i < |resources| =>
      if i < |states| then AttachResource(resources[i], states[i]) else resources[i])
  }

  function AttachPrimaryData(data: PrimaryData, states: seq<ResourceState>): PrimaryData {
    match data
    case NullData => data
    case ResourceData(one) => if |states| > 0 then ResourceData(AttachResource(one, states[0])) else data
    case ResourceCollection(many) => ResourceCollection(AttachResources(many, states))
  }

  function AttachErrorSource(source: Option<ErrorSource>, members: Members): Option<ErrorSource> {
    if source.Some? then Some(source.value.(additional := members)) else None
  }

  function AttachError(error: ErrorObject, state: ErrorState): ErrorObject {
    error.(
      additional := state.members,
      links := AttachOptionalLinks(error.links, state.links),
      source := AttachErrorSource(error.source, state.source))
  }

  function AttachErrors(errors: seq<ErrorObject>, states: seq<ErrorState>): seq<ErrorObject> {
    seq(|errors|, i requires 0 <= i < |errors| =>
      if i < |states| then AttachError(errors[i], states[i]) else errors[i])
  }

  /** Everything taken out of one document. */
  datatype DocumentState = DocumentState(
    members: Members,
    jsonapi: Members,
    links: LinksState,
    data: seq<ResourceState>,
    included: seq<ResourceState>,
    errors: seq<ErrorState>)

  function SanitizeOptionalPrimaryData(registry: Registry, value: Option<Tree>)
    : Option<(Option<Tree>, seq<ResourceState>)>
  {
    match value
    case None => Some((None, []))
    case Some(present) =>
      var sanitized :- SanitizePrimaryData(registry, present);
      Some((Some(sanitized.0), sanitized.1))
  }

  function SanitizeOptionalResources(registry: Registry, value: Option<Tree>)
    : Option<(Option<Tree>, seq<ResourceState>)>
  {
    match value
    case None => Some((None, []))
    case Some(present) =>
      var sanitized :- SanitizeResources(registry, present);
      Some((Some(sanitized.0), sanitized.1))
  }

  function SanitizeOptionalErrors(registry: Registry, value: Option<Tree>)
    : Option<(Option<Tree>, seq<ErrorState>)>
  {
    match value
    case None => Some((None, []))
    case Some(present) =>
      var sanitized :- SanitizeErrors(registry, present);
      Some((Some(sanitized.0), sanitized.1))
  }

  function SanitizeDocument(registry: Registry, value: Tree): Option<(Tree, DocumentState)> {
    var outer :- SanitizeObject(registry, TopLevelScope, value);
    var rest := outer.0.members;
    var jsonapi :- SanitizeOptionalObject(registry, JSONAPIScope, Get(rest, "jsonapi"));
    var links :- SanitizeOptionalLinks(registry, Get(rest, "links"));
    var data :- SanitizeOptionalPrimaryData(registry, Get(rest, "data"));
    var included :- SanitizeOptionalResources(registry, Get(rest, "included"));
    var errors :- SanitizeOptionalErrors(registry, Get(rest, "errors"));
    Some((
      Object(Replace(Replace(Replace(Replace(Replace(rest,
        "jsonapi", jsonapi.0),
        "links", links.0),
        "data", data.0),
        "included", included.0),
        "errors", errors.0)),
      DocumentState(outer.1, jsonapi.1, links.1, data.1, included.1, errors.1)))
  }

  function AttachJSONAPI(jsonapi: Option<JSONAPI>, members: Members): Option<JSONAPI> {
    if jsonapi.Some? then Some(jsonapi.value.(additional := members)) else None
  }

  function AttachOptionalPrimaryData(data: Option<PrimaryData>, states: seq<ResourceState>): Option<PrimaryData> {
    if data.Some? then Some(AttachPrimaryData(data.value, states)) else None
  }

  function AttachOptionalResources(resources: Option<seq<Resource>>, states: seq<ResourceState>)
    : Option<seq<Resource>>
  {
    if resources.Some? then Some(AttachResources(resources.value, states)) else None
  }

  function AttachOptionalErrors(errors: Option<seq<ErrorObject>>, states: seq<ErrorState>): Option<seq<ErrorObject>> {
    if errors.Some? then Some(AttachErrors(errors.value, states)) else None
  }

  function AttachDocument(document: Document, state: DocumentState): Document {
    document.(
      additional := state.members,
      jsonapi := AttachJSONAPI(document.jsonapi, state.jsonapi),
      links := AttachOptionalLinks(document.links, state.links),
      data := AttachOptionalPrimaryData(document.data, state.data),
      included := AttachOptionalResources(document.included, state.included),
      errors := AttachOptionalErrors(document.errors, state.errors))
  }

  /** `Codec.Unmarshal` between the structural scan and validation. */
  function DecodeInTwoPasses(registry: Registry, value: Tree): Option<Document> {
    var sanitized :- SanitizeDocument(registry, value);
    var document :- DecodeDocument(NO_EXTENSIONS, sanitized.0);
    Some(AttachDocument(document, sanitized.1))
  }
}
