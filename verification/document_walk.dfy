/**
  The member checks of `Marshal` and the encoding after them, on documents whose links refer to their
  descriptors by pointer. Validation walks only the links it gives a meaning to; the member checks
  walk all of them, and this is what lets the unguarded encoder end.
 */
module DocumentWalk {
  import opened Documents
  import opened Registries
  import opened Text
  import opened MemberNames
  import opened JSONPointers
  import opened Encoder
  import opened LinkWalk
  import opened Acceptance

  type LinkStates = map<string, LinkState>

  // Everything but the links is where the value has it; the links of `own` are not looked at.

  datatype RelationshipState = RelationshipState(own: Relationship, links: Option<LinkStates>)

  type RelationshipStates = map<string, RelationshipState>

  datatype ResourceState = ResourceState(
    own: Resource, links: Option<LinkStates>, relationships: Option<RelationshipStates>)

  datatype DataState = NullState | OneState(one: ResourceState) | ManyState(many: seq<ResourceState>)

  datatype ErrorState = ErrorState(own: ErrorObject, links: Option<LinkStates>)

  datatype DocumentState = DocumentState(
    own: Document,
    links: Option<LinkStates>,
    data: Option<DataState>,
    included: Option<seq<ResourceState>>,
    errors: Option<seq<ErrorState>>)

  // The region of the heap, and what it means that every chain in a document ends.

  ghost predicate LinksWithin(links: Option<LinkStates>, cells: set<LinkCell>) {
    links.Some? ==> forall name :: name in links.value ==> Within(links.value[name], cells)
  }

  ghost predicate RelationshipsWithin(relationships: Option<RelationshipStates>, cells: set<LinkCell>) {
    relationships.Some? ==> forall name :: name in relationships.value ==> LinksWithin(relationships.value[name].links, cells)
  }

  ghost predicate ResourceWithin(resource: ResourceState, cells: set<LinkCell>) {
    LinksWithin(resource.links, cells) && RelationshipsWithin(resource.relationships, cells)
  }

  ghost predicate ResourcesWithin(resources: seq<ResourceState>, cells: set<LinkCell>) {
    forall i :: 0 <= i < |resources| ==> ResourceWithin(resources[i], cells)
  }

  ghost predicate ErrorsWithin(errors: seq<ErrorState>, cells: set<LinkCell>) {
    forall i :: 0 <= i < |errors| ==> LinksWithin(errors[i].links, cells)
  }

  /** Primary data as the list of its resources, as `documentResources` has it. */
  function Primary(data: Option<DataState>): seq<ResourceState> {
    match data
    case Some(OneState(one)) => [one]
    case Some(ManyState(many)) => many
    case _ => []
  }

  function Listed<T>(items: Option<seq<T>>): seq<T> {
    if items.Some? then items.value else []
  }

  ghost predicate DocumentWithin(document: DocumentState, cells: set<LinkCell>) {
    && LinksWithin(document.links, cells) && ResourcesWithin(Primary(document.data), cells)
    && ResourcesWithin(Listed(document.included), cells) && ErrorsWithin(Listed(document.errors), cells)
  }

  /** A link as a value: an extension value is written without looking at a descriptor. */
  ghost function Unfolded(link: LinkState, cells: set<LinkCell>): Link
    requires Within(link, cells) && Closed(cells)
    reads cells
  {
    if link.own.extension.None? && EndsWithin(link, MAX_NESTING_DEPTH, cells)
    then Unfold(link, MAX_NESTING_DEPTH, cells)
    else link.own.(describedBy := None)
  }

  ghost function UnfoldedLinks(links: Option<LinkStates>, cells: set<LinkCell>): Option<Links>
    requires LinksWithin(links, cells) && Closed(cells)
    reads cells
  {
    if links.Some? then Some(map name | name in links.value :: Unfolded(links.value[name], cells)) else None
  }

  ghost function UnfoldedRelationship(relationship: RelationshipState, cells: set<LinkCell>): Relationship
    requires LinksWithin(relationship.links, cells) && Closed(cells)
    reads cells
  {
    relationship.own.(links := UnfoldedLinks(relationship.links, cells))
  }

  ghost function UnfoldedRelationships(relationships: Option<RelationshipStates>, cells: set<LinkCell>)
    : Option<Relationships>
    requires RelationshipsWithin(relationships, cells) && Closed(cells)
    reads cells
  {
    if relationships.Some?
    then Some(map name | name in relationships.value :: UnfoldedRelationship(relationships.value[name], cells))
    else None
  }

  ghost function UnfoldedResource(resource: ResourceState, cells: set<LinkCell>): Resource
    requires ResourceWithin(resource, cells) && Closed(cells)
    reads cells
  {
    resource.own.(
      links := UnfoldedLinks(resource.links, cells),
      relationships := UnfoldedRelationships(resource.relationships, cells))
  }

  ghost function UnfoldedResources(resources: seq<ResourceState>, cells: set<LinkCell>): seq<Resource>
    requires ResourcesWithin(resources, cells) && Closed(cells)
    reads cells
  {
    seq(|resources|, i requires 0 <= i < |resources| && ResourceWithin(resources[i], cells) && Closed(cells) reads cells =>
      UnfoldedResource(resources[i], cells))
  }

  ghost function UnfoldedData(data: Option<DataState>, cells: set<LinkCell>): Option<PrimaryData>
    requires ResourcesWithin(Primary(data), cells) && Closed(cells)
    reads cells
  {
    match data
    case None => None
    case Some(NullState) => Some(NullData)
    case Some(OneState(one)) => assert ResourceWithin(Primary(data)[0], cells); Some(ResourceData(UnfoldedResource(one, cells)))
    case Some(ManyState(many)) => Some(ResourceCollection(UnfoldedResources(many, cells)))
  }

  ghost function UnfoldedError(error: ErrorState, cells: set<LinkCell>): ErrorObject
    requires LinksWithin(error.links, cells) && Closed(cells)
    reads cells
  {
    error.own.(links := UnfoldedLinks(error.links, cells))
  }

  ghost function UnfoldedErrors(errors: seq<ErrorState>, cells: set<LinkCell>): seq<ErrorObject>
    requires ErrorsWithin(errors, cells) && Closed(cells)
    reads cells
  {
    seq(|errors|, i requires 0 <= i < |errors| && LinksWithin(errors[i].links, cells) && Closed(cells) reads cells =>
      UnfoldedError(errors[i], cells))
  }

  ghost function UnfoldedDocument(document: DocumentState, cells: set<LinkCell>): Document
    requires DocumentWithin(document, cells) && Closed(cells)
    reads cells
  {
    document.own.(
      links := UnfoldedLinks(document.links, cells),
      data := UnfoldedData(document.data, cells),
      included := if document.included.Some? then Some(UnfoldedResources(document.included.value, cells)) else None,
      errors := if document.errors.Some? then Some(UnfoldedErrors(document.errors.value, cells)) else None)
  }

  /** The recursion of the encoder ends on this link. */
  ghost predicate Ended(link: LinkState, cells: set<LinkCell>)
    requires Within(link, cells) && Closed(cells)
    reads cells
  {
    link.own.extension.Some? || EndsWithin(link, MAX_NESTING_DEPTH, cells)
  }

  ghost predicate LinksEnd(links: Option<LinkStates>, cells: set<LinkCell>)
    requires LinksWithin(links, cells) && Closed(cells)
    reads cells
  {
    links.Some? ==> forall name :: name in links.value ==> Ended(links.value[name], cells)
  }

  ghost predicate RelationshipsEnd(relationships: Option<RelationshipStates>, cells: set<LinkCell>)
    requires RelationshipsWithin(relationships, cells) && Closed(cells)
    reads cells
  {
    relationships.Some? ==> forall name :: name in relationships.value ==> LinksEnd(relationships.value[name].links, cells)
  }

  ghost predicate ResourceEnds(resource: ResourceState, cells: set<LinkCell>)
    requires ResourceWithin(resource, cells) && Closed(cells)
    reads cells
  {
    LinksEnd(resource.links, cells) && RelationshipsEnd(resource.relationships, cells)
  }

  ghost predicate ResourcesEnd(resources: seq<ResourceState>, cells: set<LinkCell>)
    requires ResourcesWithin(resources, cells) && Closed(cells)
    reads cells
  {
    forall i :: 0 <= i < |resources| ==> ResourceEnds(resources[i], cells)
  }

  ghost predicate ErrorsEnd(errors: seq<ErrorState>, cells: set<LinkCell>)
    requires ErrorsWithin(errors, cells) && Closed(cells)
    reads cells
  {
    forall i :: 0 <= i < |errors| ==> LinksEnd(errors[i].links, cells)
  }

  ghost predicate DocumentEnds(document: DocumentState, cells: set<LinkCell>)
    requires DocumentWithin(document, cells) && Closed(cells)
    reads cells
  {
    && LinksEnd(document.links, cells) && ResourcesEnd(Primary(document.data), cells)
    && ResourcesEnd(Listed(document.included), cells) && ErrorsEnd(Listed(document.errors), cells)
  }

  // The member checks.

  /** The violations grow, and do not change exactly when `clean`. */
  ghost predicate Grows(before: seq<Violation>, after: seq<Violation>, clean: bool) {
    before <= after && (after == before <==> clean)
  }

  /** What `validateScopedMembers` reports about the members of one object is nothing. */
  lemma AcceptedMeansNoReport(registry: Registry, scope: Scope, members: Members, path: string)
    ensures MembersAccepted(registry, scope, members) <==>
      forall violation :: !Reports(registry, scope, members, members.Keys, path, violation)
  {
    hide ValidMemberName, EscapeToken;
    forall name | name in members
      ensures MemberReports(registry, scope, name, members[name], path) == [] <==>
        if IsAtName(name) then ValidMemberName(name)
        else registry.Registered(scope, name) && registry.Accepts(scope, name, members[name])
    {
    }
    forall name | name in members && MemberReports(registry, scope, name, members[name], path) != []
      ensures exists violation :: Reports(registry, scope, members, members.Keys, path, violation)
    {
      assert Reports(registry, scope, members, members.Keys, path,
        MemberReports(registry, scope, name, members[name], path)[0]);
    }
  }

  method ValidateMembers(validator: Validator, members: Members, scope: Scope, registry: Registry, path: string)
    modifies validator
    ensures Grows(old(validator.violations), validator.violations, MembersAccepted(registry, scope, members))
  {
    hide Reports, MembersAccepted;
    ghost var start := validator.violations;
    AcceptedMeansNoReport(registry, scope, members, path);
    ValidateScopedMembers(validator, members, scope, registry, path);
    ghost var reports := validator.violations[|start|..];
    assert validator.violations == start + reports;
    if reports != [] {
      assert Reports(registry, scope, members, members.Keys, path, reports[0]);
    }
  }

  /** The chain that was walked, as a value. */
  lemma {:induction false} SoundChainIsAccepted(link: LinkState, hops: nat, cells: set<LinkCell>, registry: Registry)
    requires Within(link, cells) && Closed(cells) && EndsWithin(link, hops, cells)
    ensures SoundMembersChain(link, hops, cells, registry) <==> ChainAccepted(registry, Unfold(link, hops, cells))
    ensures Hops(Unfold(link, hops, cells)) <= hops
    decreases hops
  {
    SoundMembersAreAccepted(registry, link.own.additional);
    hide SoundMembers, MembersAccepted;
    if link.describedBy != null {
      SoundChainIsAccepted(link.describedBy.link, hops - 1, cells, registry);
    }
  }

  lemma SoundMembersAreAccepted(registry: Registry, members: Members)
    ensures SoundMembers(registry, members) <==> MembersAccepted(registry, LinkObjectScope, members)
  {
    hide ValidMemberName, EscapeToken;
  }

  /** One entry of a links object passes `validateLinkDocumentMembers`. */
  ghost predicate EntryAccepted(registry: Registry, name: string, link: LinkState, cells: set<LinkCell>)
    requires Within(link, cells) && Closed(cells)
    reads cells
  {
    if link.own.extension.Some? then MembersAccepted(registry, LinksObjectScope, map[name := link.own.extension.value])
    else EndsWithin(link, MAX_NESTING_DEPTH, cells) && SoundMembersChain(link, MAX_NESTING_DEPTH, cells, registry)
  }

  lemma EntriesAccepted(registry: Registry, links: LinkStates, cells: set<LinkCell>)
    requires LinksWithin(Some(links), cells) && Closed(cells)
    ensures (forall name :: name in links ==> EntryAccepted(registry, name, links[name], cells)) <==>
      LinksEnd(Some(links), cells) && LinksAccepted(registry, UnfoldedLinks(Some(links), cells))
  {
    hide MembersAccepted, ChainAccepted, SoundMembersChain, EndsWithin, Unfold;
    var unfolded := UnfoldedLinks(Some(links), cells).value;
    forall name | name in links
      ensures EntryAccepted(registry, name, links[name], cells) <==>
        Ended(links[name], cells) && LinksAccepted(registry, Some(map[name := unfolded[name]]))
    {
      EntryAcceptedAlone(registry, name, links[name], cells);
    }
    assert forall name | name in unfolded ::
      var one: Links := map[name := unfolded[name]]; name in one && one[name] == unfolded[name];
  }

  lemma EntryAcceptedAlone(registry: Registry, name: string, link: LinkState, cells: set<LinkCell>)
    requires Within(link, cells) && Closed(cells)
    ensures EntryAccepted(registry, name, link, cells) <==>
      Ended(link, cells) && LinksAccepted(registry, Some(map[name := Unfolded(link, cells)]))
  {
    hide MembersAccepted, ChainAccepted, SoundMembersChain, EndsWithin;
    var one: Links := map[name := Unfolded(link, cells)];
    assert name in one && one[name] == Unfolded(link, cells);
    if link.own.extension.None? && EndsWithin(link, MAX_NESTING_DEPTH, cells) {
      SoundChainIsAccepted(link, MAX_NESTING_DEPTH, cells, registry);
      UnfoldKeepsExtension(link, MAX_NESTING_DEPTH, cells);
    }
  }

  lemma UnfoldKeepsExtension(link: LinkState, hops: nat, cells: set<LinkCell>)
    requires Within(link, cells) && Closed(cells) && EndsWithin(link, hops, cells)
    ensures Unfold(link, hops, cells).extension == link.own.extension
  {
  }

  /** `validateLinkDocumentMembers`: every entry is walked, whatever its name. */
  method ValidateLinkMap(
    validator: Validator, links: Option<LinkStates>, path: string, registry: Registry, ghost cells: set<LinkCell>)
    requires LinksWithin(links, cells) && Closed(cells)
    modifies validator
    ensures Grows(old(validator.violations), validator.violations,
      LinksEnd(links, cells) && LinksAccepted(registry, UnfoldedLinks(links, cells)))
  {
    hide EntryAccepted, Unfolded, Ended, ChainAccepted, MembersAccepted;
    if links.None? {
      return;
    }
    var pending := links.value.Keys;
    while pending != {}
      invariant pending <= links.value.Keys
      invariant Grows(old(validator.violations), validator.violations,
        forall name :: name in links.value.Keys - pending ==> EntryAccepted(registry, name, links.value[name], cells))
      decreases pending
    {
      var name :| name in pending;
      ValidateEntry(validator, name, links.value[name], path, registry, cells);
      assert links.value.Keys - (pending - {name}) == links.value.Keys - pending + {name};
      pending := pending - {name};
    }
    assert links.value.Keys - {} == links.value.Keys;
    EntriesAccepted(registry, links.value, cells);
  }

  method ValidateEntry(
    validator: Validator, name: string, link: LinkState, path: string, registry: Registry, ghost cells: set<LinkCell>)
    requires Within(link, cells) && Closed(cells)
    modifies validator
    ensures Grows(old(validator.violations), validator.violations, EntryAccepted(registry, name, link, cells))
  {
    if link.own.extension.Some? {
      ValidateMembers(validator, map[name := link.own.extension.value], LinksObjectScope, registry, path);
    } else {
      ValidateLinkStateMembers(validator, link, path + "/" + EscapeToken(name), registry, cells);
    }
  }

  ghost predicate RelationshipStateAccepted(registry: Registry, relationship: RelationshipState, cells: set<LinkCell>)
    requires LinksWithin(relationship.links, cells) && Closed(cells)
    reads cells
  {
    && LinksEnd(relationship.links, cells)
    && RelationshipAccepted(registry, UnfoldedRelationship(relationship, cells))
  }

  method ValidateRelationship(
    validator: Validator, relationship: RelationshipState, path: string, registry: Registry, ghost cells: set<LinkCell>)
    requires LinksWithin(relationship.links, cells) && Closed(cells)
    modifies validator
    ensures Grows(old(validator.violations), validator.violations, RelationshipStateAccepted(registry, relationship, cells))
  {
    hide LinksEnd, LinksAccepted, MembersAccepted, UnfoldedLinks;
    ValidateLinkMap(validator, relationship.links, path + "/links", registry, cells);
    ValidateMembers(validator, relationship.own.additional, RelationshipScope, registry, path);
    ValidateLinkage(validator, relationship.own.data, path + "/data", registry);
  }

  predicate LinkageAccepted(registry: Registry, data: Option<RelationshipData>) {
    match data
    case Some(ToOne(one)) => MembersAccepted(registry, IdentifierScope, one.additional)
    case Some(ToMany(many)) =>
      forall i | 0 <= i < |many| :: MembersAccepted(registry, IdentifierScope, many[i].additional)
    case _ => true
  }

  /** `validateIdentifierDocumentMembers`. */
  method ValidateLinkage(validator: Validator, data: Option<RelationshipData>, path: string, registry: Registry)
    modifies validator
    ensures Grows(old(validator.violations), validator.violations, LinkageAccepted(registry, data))
  {
    hide MembersAccepted;
    match data {
      case Some(ToOne(one)) =>
        ValidateMembers(validator, one.additional, IdentifierScope, registry, path);
      case Some(ToMany(many)) =>
        for index := 0 to |many|
          invariant Grows(old(validator.violations), validator.violations,
            forall i :: 0 <= i < index ==> MembersAccepted(registry, IdentifierScope, many[i].additional))
        {
          ValidateMembers(validator, many[index].additional, IdentifierScope, registry, path + "/" + Decimal(index));
        }
      case _ =>
    }
  }

  ghost predicate ResourceStateAccepted(registry: Registry, resource: ResourceState, cells: set<LinkCell>)
    requires ResourceWithin(resource, cells) && Closed(cells)
    reads cells
  {
    ResourceEnds(resource, cells) && ResourceAccepted(registry, UnfoldedResource(resource, cells))
  }

  method ValidateRelationshipMap(
    validator: Validator, relationships: Option<RelationshipStates>, path: string, registry: Registry,
    ghost cells: set<LinkCell>)
    requires RelationshipsWithin(relationships, cells) && Closed(cells)
    modifies validator
    ensures Grows(old(validator.violations), validator.violations,
      relationships.Some? ==> forall name :: name in relationships.value ==>
        RelationshipStateAccepted(registry, relationships.value[name], cells))
  {
    hide RelationshipStateAccepted;
    if relationships.None? {
      return;
    }
    var pending := relationships.value.Keys;
    while pending != {}
      invariant pending <= relationships.value.Keys
      invariant Grows(old(validator.violations), validator.violations,
        forall name :: name in relationships.value.Keys - pending ==>
          RelationshipStateAccepted(registry, relationships.value[name], cells))
      decreases pending
    {
      var name :| name in pending;
      ValidateRelationship(
        validator, relationships.value[name], path + "/" + EscapeToken(name), registry, cells);
      assert relationships.value.Keys - (pending - {name}) == relationships.value.Keys - pending + {name};
      pending := pending - {name};
    }
    assert relationships.value.Keys - {} == relationships.value.Keys;
  }

  method ValidateResource(
    validator: Validator, resource: ResourceState, path: string, registry: Registry, ghost cells: set<LinkCell>)
    requires ResourceWithin(resource, cells) && Closed(cells)
    modifies validator
    ensures Grows(old(validator.violations), validator.violations, ResourceStateAccepted(registry, resource, cells))
  {
    hide LinksEnd, LinksAccepted, MembersAccepted, UnfoldedLinks, RelationshipAccepted, UnfoldedRelationship;
    ValidateLinkMap(validator, resource.links, path + "/links", registry, cells);
    ValidateMembers(validator, resource.own.additional, ResourceScope, registry, path);
    ValidateRelationshipMap(validator, resource.relationships, path + "/relationships", registry, cells);
    if resource.relationships.Some? {
      assert UnfoldedResource(resource, cells).relationships.value.Keys == resource.relationships.value.Keys;
    }
  }

  method ValidateResources(
    validator: Validator, resources: seq<ResourceState>, path: string, registry: Registry, ghost cells: set<LinkCell>)
    requires ResourcesWithin(resources, cells) && Closed(cells)
    modifies validator
    ensures Grows(old(validator.violations), validator.violations,
      forall i :: 0 <= i < |resources| ==> ResourceStateAccepted(registry, resources[i], cells))
  {
    hide ResourceStateAccepted, ResourceWithin;
    for index := 0 to |resources|
      invariant Grows(old(validator.violations), validator.violations,
        forall i :: 0 <= i < index ==> ResourceStateAccepted(registry, resources[i], cells))
    {
      ValidateResource(validator, resources[index], path + "/" + Decimal(index), registry, cells);
    }
  }

  ghost predicate ErrorStateAccepted(registry: Registry, error: ErrorState, cells: set<LinkCell>)
    requires LinksWithin(error.links, cells) && Closed(cells)
    reads cells
  {
    LinksEnd(error.links, cells) && ErrorAccepted(registry, UnfoldedError(error, cells))
  }

  method ValidateError(
    validator: Validator, error: ErrorState, path: string, registry: Registry, ghost cells: set<LinkCell>)
    requires LinksWithin(error.links, cells) && Closed(cells)
    modifies validator
    ensures Grows(old(validator.violations), validator.violations, ErrorStateAccepted(registry, error, cells))
  {
    hide LinksEnd, LinksAccepted, MembersAccepted, UnfoldedLinks;
    ValidateMembers(validator, error.own.additional, ErrorScope, registry, path);
    ValidateLinkMap(validator, error.links, path + "/links", registry, cells);
    if error.own.source.Some? {
      ValidateMembers(validator, error.own.source.value.additional, ErrorSourceScope, registry, path + "/source");
    }
  }

  method ValidateErrors(
    validator: Validator, errors: seq<ErrorState>, path: string, registry: Registry, ghost cells: set<LinkCell>)
    requires ErrorsWithin(errors, cells) && Closed(cells)
    modifies validator
    ensures Grows(old(validator.violations), validator.violations,
      forall i :: 0 <= i < |errors| ==> ErrorStateAccepted(registry, errors[i], cells))
  {
    hide ErrorStateAccepted, LinksWithin;
    for index := 0 to |errors|
      invariant Grows(old(validator.violations), validator.violations,
        forall i :: 0 <= i < index ==> ErrorStateAccepted(registry, errors[i], cells))
    {
      ValidateError(validator, errors[index], path + "/" + Decimal(index), registry, cells);
    }
  }

  lemma ResourcesPart(registry: Registry, resources: seq<ResourceState>, cells: set<LinkCell>)
    requires ResourcesWithin(resources, cells) && Closed(cells)
    ensures (forall i :: 0 <= i < |resources| ==> ResourceStateAccepted(registry, resources[i], cells)) <==>
      && ResourcesEnd(resources, cells)
      && forall i :: 0 <= i < |resources| ==> ResourceAccepted(registry, UnfoldedResources(resources, cells)[i])
  {
    hide ResourceEnds, ResourceAccepted, UnfoldedResource, ResourceWithin;
    assert forall i :: 0 <= i < |resources| ==>
      UnfoldedResources(resources, cells)[i] == UnfoldedResource(resources[i], cells);
  }

  lemma DataPart(registry: Registry, data: Option<DataState>, cells: set<LinkCell>)
    requires ResourcesWithin(Primary(data), cells) && Closed(cells)
    ensures (forall i :: 0 <= i < |Primary(data)| ==> ResourceStateAccepted(registry, Primary(data)[i], cells)) <==>
      ResourcesEnd(Primary(data), cells) && DataAccepted(registry, UnfoldedData(data, cells))
  {
    hide ResourceAccepted, UnfoldedResource, ResourceEnds, ResourceWithin;
    ResourcesPart(registry, Primary(data), cells);
    if data.Some? && data.value.OneState? {
      assert Primary(data)[0] == data.value.one;
      assert UnfoldedResources(Primary(data), cells)[0] == UnfoldedResource(data.value.one, cells);
    }
  }

  lemma ErrorsPart(registry: Registry, errors: seq<ErrorState>, cells: set<LinkCell>)
    requires ErrorsWithin(errors, cells) && Closed(cells)
    ensures (forall i :: 0 <= i < |errors| ==> ErrorStateAccepted(registry, errors[i], cells)) <==>
      && ErrorsEnd(errors, cells)
      && forall i :: 0 <= i < |errors| ==> ErrorAccepted(registry, UnfoldedErrors(errors, cells)[i])
  {
    hide LinksEnd, ErrorAccepted, UnfoldedError, LinksWithin;
    assert forall i :: 0 <= i < |errors| ==> UnfoldedErrors(errors, cells)[i] == UnfoldedError(errors[i], cells);
  }

  ghost predicate ErrorStatesAccepted(registry: Registry, errors: Option<seq<ErrorState>>, cells: set<LinkCell>)
    requires ErrorsWithin(Listed(errors), cells) && Closed(cells)
    reads cells
  {
    forall i :: 0 <= i < |Listed(errors)| ==> ErrorStateAccepted(registry, Listed(errors)[i], cells)
  }

  ghost predicate ResourceStatesAccepted(registry: Registry, resources: seq<ResourceState>, cells: set<LinkCell>)
    requires ResourcesWithin(resources, cells) && Closed(cells)
    reads cells
  {
    forall i :: 0 <= i < |resources| ==> ResourceStateAccepted(registry, resources[i], cells)
  }

  method ValidateData(
    validator: Validator, data: Option<DataState>, registry: Registry, ghost cells: set<LinkCell>)
    requires ResourcesWithin(Primary(data), cells) && Closed(cells)
    modifies validator
    ensures Grows(old(validator.violations), validator.violations,
      ResourceStatesAccepted(registry, Primary(data), cells))
  {
    hide ResourceStateAccepted, ResourceWithin;
    match data {
      case Some(OneState(one)) =>
        assert one == Primary(data)[0];
        ValidateResource(validator, one, "/data", registry, cells);
      case Some(ManyState(many)) =>
        ValidateResources(validator, many, "/data", registry, cells);
      case _ =>
    }
  }

  predicate TopLevelAccepted(registry: Registry, own: Document) {
    && MembersAccepted(registry, TopLevelScope, own.additional)
    && (own.jsonapi.Some? ==> MembersAccepted(registry, JSONAPIScope, own.jsonapi.value.additional))
  }

  method ValidateTopLevel(validator: Validator, own: Document, registry: Registry)
    modifies validator
    ensures Grows(old(validator.violations), validator.violations, TopLevelAccepted(registry, own))
  {
    hide MembersAccepted;
    ValidateMembers(validator, own.additional, TopLevelScope, registry, "");
    if own.jsonapi.Some? {
      ValidateMembers(validator, own.jsonapi.value.additional, JSONAPIScope, registry, "/jsonapi");
    }
  }

  method ValidateObjects(
    validator: Validator, document: DocumentState, registry: Registry, ghost cells: set<LinkCell>)
    requires DocumentWithin(document, cells) && Closed(cells)
    modifies validator
    ensures Grows(old(validator.violations), validator.violations,
      && ErrorStatesAccepted(registry, document.errors, cells)
      && ResourceStatesAccepted(registry, Primary(document.data), cells)
      && ResourceStatesAccepted(registry, Listed(document.included), cells))
  {
    hide ErrorStateAccepted, ResourceStateAccepted, ResourcesWithin, ErrorsWithin, LinksWithin;
    ValidateErrors(validator, Listed(document.errors), "/errors", registry, cells);
    ValidateData(validator, document.data, registry, cells);
    ValidateResources(validator, Listed(document.included), "/included", registry, cells);
  }

  /**
    `validateDocumentMembers`. It ends on every heap, and it reports nothing exactly when every chain
    of descriptors in the document ends, `@` names included, and the document they unfold to is accepted.
   */
  method ValidateDocumentMembers(
    validator: Validator, document: DocumentState, registry: Registry, ghost cells: set<LinkCell>)
    requires DocumentWithin(document, cells) && Closed(cells)
    modifies validator
    ensures Grows(old(validator.violations), validator.violations,
      DocumentEnds(document, cells) && DocumentAccepted(registry, UnfoldedDocument(document, cells)))
  {
    hide TopLevelAccepted, LinksEnd, LinksAccepted, ErrorStatesAccepted, ResourceStatesAccepted, DocumentEnds;
    hide DocumentAccepted, UnfoldedDocument, UnfoldedLinks, ResourcesWithin, ErrorsWithin;
    ValidateTopLevel(validator, document.own, registry);
    ValidateLinkMap(validator, document.links, "/links", registry, cells);
    ValidateObjects(validator, document, registry, cells);
    PartsOfDocument(registry, document, cells);
  }

  lemma PartsOfDocument(registry: Registry, document: DocumentState, cells: set<LinkCell>)
    requires DocumentWithin(document, cells) && Closed(cells)
    ensures DocumentEnds(document, cells) && DocumentAccepted(registry, UnfoldedDocument(document, cells)) <==>
      && TopLevelAccepted(registry, document.own)
      && LinksEnd(document.links, cells) && LinksAccepted(registry, UnfoldedLinks(document.links, cells))
      && ErrorStatesAccepted(registry, document.errors, cells)
      && ResourceStatesAccepted(registry, Primary(document.data), cells)
      && ResourceStatesAccepted(registry, Listed(document.included), cells)
  {
    hide LinksAccepted, MembersAccepted, UnfoldedLinks, ResourceAccepted, ErrorAccepted, UnfoldedResource, UnfoldedError;
    hide DataAccepted, UnfoldedData, LinksEnd, ResourcesEnd, ErrorsEnd, ResourceStateAccepted, ErrorStateAccepted;
    DataPart(registry, document.data, cells);
    ErrorsPart(registry, Listed(document.errors), cells);
    ResourcesPart(registry, Listed(document.included), cells);
  }

  // The encoder on the heap. Each method needs the chains to end and then writes the unfolded value.

  method MarshalEntry(link: LinkState, ghost cells: set<LinkCell>) returns (encoded: Option<Tree>)
    requires Within(link, cells) && Closed(cells) && Ended(link, cells)
    ensures encoded == EncodeLink(Unfolded(link, cells))
  {
    if link.own.extension.Some? {
      return Some(link.own.extension.value);
    }
    encoded := MarshalLink(link, MAX_NESTING_DEPTH, cells);
  }

  method MarshalLinkMap(links: LinkStates, ghost cells: set<LinkCell>) returns (encoded: Option<Tree>)
    requires LinksWithin(Some(links), cells) && Closed(cells) && LinksEnd(Some(links), cells)
    ensures encoded == EncodeLinks(UnfoldedLinks(Some(links), cells).value)
  {
    hide EncodeLink, Ended, Unfolded;
    ghost var unfolded := UnfoldedLinks(Some(links), cells).value;
    var written: Members := map[];
    var pending := links.Keys;
    while pending != {}
      invariant pending <= links.Keys && written.Keys == links.Keys - pending
      invariant forall name :: name in written ==> EncodeLink(unfolded[name]) == Some(written[name])
      decreases pending
    {
      var name :| name in pending;
      var entry := MarshalEntry(links[name], cells);
      assert entry == EncodeLink(unfolded[name]);
      if entry.None? {
        return None;
      }
      written := written[name := entry.value];
      pending := pending - {name};
    }
    assert written == EachMember(EncodeLink, unfolded).value;
    return Some(Object(written));
  }

  method MarshalOptionalLinks(links: Option<LinkStates>, ghost cells: set<LinkCell>)
    returns (encoded: Option<Option<Tree>>)
    requires LinksWithin(links, cells) && Closed(cells) && LinksEnd(links, cells)
    ensures encoded == Lift(EncodeLinks, UnfoldedLinks(links, cells))
  {
    if links.None? {
      return Some(None);
    }
    var tree := MarshalLinkMap(links.value, cells);
    return if tree.Some? then Some(Some(tree.value)) else None;
  }

  method MarshalRelationship(relationship: RelationshipState, ghost cells: set<LinkCell>)
    returns (encoded: Option<Tree>)
    requires LinksWithin(relationship.links, cells) && Closed(cells) && LinksEnd(relationship.links, cells)
    ensures encoded == EncodeRelationship(UnfoldedRelationship(relationship, cells))
  {
    hide EncodeLinks, LinksEnd, UnfoldedLinks, EncodeRelationshipData;
    var links := MarshalOptionalLinks(relationship.links, cells);
    var data := Lift(EncodeRelationshipData, relationship.own.data);
    if links.None? || data.None? {
      return None;
    }
    return ObjectWithMembers(
      RelationshipCore(relationship.own, links.value, data.value), relationship.own.additional);
  }

  method MarshalRelationshipMap(relationships: Option<RelationshipStates>, ghost cells: set<LinkCell>)
    returns (encoded: Option<Option<Tree>>)
    requires RelationshipsWithin(relationships, cells) && Closed(cells) && RelationshipsEnd(relationships, cells)
    ensures encoded == Lift(EncodeRelationships, UnfoldedRelationships(relationships, cells))
  {
    hide EncodeRelationship, LinksEnd, UnfoldedRelationship;
    if relationships.None? {
      return Some(None);
    }
    ghost var unfolded := UnfoldedRelationships(relationships, cells).value;
    var written: Members := map[];
    var pending := relationships.value.Keys;
    while pending != {}
      invariant pending <= relationships.value.Keys && written.Keys == relationships.value.Keys - pending
      invariant forall name :: name in written ==> EncodeRelationship(unfolded[name]) == Some(written[name])
      decreases pending
    {
      var name :| name in pending;
      var entry := MarshalRelationship(relationships.value[name], cells);
      assert entry == EncodeRelationship(unfolded[name]);
      if entry.None? {
        return None;
      }
      written := written[name := entry.value];
      pending := pending - {name};
    }
    assert written == EachMember(EncodeRelationship, unfolded).value;
    return Some(Some(Object(written)));
  }

  method MarshalResource(resource: ResourceState, ghost cells: set<LinkCell>) returns (encoded: Option<Tree>)
    requires ResourceWithin(resource, cells) && Closed(cells) && ResourceEnds(resource, cells)
    ensures encoded == EncodeResource(UnfoldedResource(resource, cells))
  {
    hide EncodeLinks, EncodeRelationships, LinksEnd, RelationshipsEnd, UnfoldedLinks, UnfoldedRelationships;
    var relationships := MarshalRelationshipMap(resource.relationships, cells);
    var links := MarshalOptionalLinks(resource.links, cells);
    if relationships.None? || links.None? {
      return None;
    }
    return ObjectWithMembers(ResourceCore(resource.own, relationships.value, links.value), resource.own.additional);
  }

  method MarshalResources(resources: seq<ResourceState>, ghost cells: set<LinkCell>) returns (encoded: Option<Tree>)
    requires ResourcesWithin(resources, cells) && Closed(cells) && ResourcesEnd(resources, cells)
    ensures encoded == EncodeResources(UnfoldedResources(resources, cells))
  {
    hide EncodeResource, ResourceEnds, UnfoldedResource, ResourceWithin;
    ghost var unfolded := UnfoldedResources(resources, cells);
    var written := [];
    for index := 0 to |resources|
      invariant |written| == index
      invariant forall i :: 0 <= i < index ==> EncodeResource(unfolded[i]) == Some(written[i])
    {
      var item := MarshalResource(resources[index], cells);
      assert item == EncodeResource(unfolded[index]);
      if item.None? {
        return None;
      }
      written := written + [item.value];
    }
    assert written == Each(EncodeResource, unfolded).value;
    return Some(Array(written));
  }

  method MarshalData(data: Option<DataState>, ghost cells: set<LinkCell>) returns (encoded: Option<Option<Tree>>)
    requires ResourcesWithin(Primary(data), cells) && Closed(cells) && ResourcesEnd(Primary(data), cells)
    ensures encoded == Lift(EncodePrimaryData, UnfoldedData(data, cells))
  {
    hide EncodeResource, EncodeResources, ResourceEnds, UnfoldedResource, UnfoldedResources, ResourceWithin;
    match data
    case None => return Some(None);
    case Some(NullState) => return Some(Some(Null));
    case Some(OneState(one)) =>
      assert one == Primary(data)[0];
      var tree := MarshalResource(one, cells);
      return if tree.Some? then Some(Some(tree.value)) else None;
    case Some(ManyState(many)) =>
      var tree := MarshalResources(many, cells);
      return if tree.Some? then Some(Some(tree.value)) else None;
  }

  method MarshalError(error: ErrorState, ghost cells: set<LinkCell>) returns (encoded: Option<Tree>)
    requires LinksWithin(error.links, cells) && Closed(cells) && LinksEnd(error.links, cells)
    ensures encoded == EncodeError(UnfoldedError(error, cells))
  {
    hide EncodeLinks, EncodeErrorSource, LinksEnd, UnfoldedLinks;
    var links := MarshalOptionalLinks(error.links, cells);
    var source := Lift(EncodeErrorSource, error.own.source);
    if links.None? || source.None? {
      return None;
    }
    return ObjectWithMembers(ErrorCore(error.own, links.value, source.value), error.own.additional);
  }

  method MarshalErrors(errors: seq<ErrorState>, ghost cells: set<LinkCell>) returns (encoded: Option<Tree>)
    requires ErrorsWithin(errors, cells) && Closed(cells) && ErrorsEnd(errors, cells)
    ensures encoded == EncodeErrors(UnfoldedErrors(errors, cells))
  {
    hide EncodeError, LinksEnd, UnfoldedError, LinksWithin;
    ghost var unfolded := UnfoldedErrors(errors, cells);
    var written := [];
    for index := 0 to |errors|
      invariant |written| == index
      invariant forall i :: 0 <= i < index ==> EncodeError(unfolded[i]) == Some(written[i])
    {
      var item := MarshalError(errors[index], cells);
      assert item == EncodeError(unfolded[index]);
      if item.None? {
        return None;
      }
      written := written + [item.value];
    }
    assert written == Each(EncodeError, unfolded).value;
    return Some(Array(written));
  }

  /** `Document.MarshalJSON`: it ends and writes the unfolded document whenever every chain ends. */
  method MarshalDocument(document: DocumentState, ghost cells: set<LinkCell>) returns (encoded: Option<Tree>)
    requires DocumentWithin(document, cells) && Closed(cells) && DocumentEnds(document, cells)
    ensures encoded == EncodeDocument(UnfoldedDocument(document, cells))
  {
    hide EncodeJSONAPI, EncodeLinks, EncodePrimaryData, EncodeResources, EncodeErrors, LinksEnd, ResourcesEnd, ErrorsEnd;
    hide UnfoldedLinks, UnfoldedData, UnfoldedResources, UnfoldedErrors, ResourcesWithin, ErrorsWithin, LinksWithin;
    var own := document.own;
    var jsonapi := Lift(EncodeJSONAPI, own.jsonapi);
    var links := MarshalOptionalLinks(document.links, cells);
    var data := MarshalData(document.data, cells);
    var included := Some(None);
    if document.included.Some? {
      var tree := MarshalResources(document.included.value, cells);
      included := if tree.Some? then Some(Some(tree.value)) else None;
    }
    var errors := Some(None);
    if document.errors.Some? {
      var tree := MarshalErrors(document.errors.value, cells);
      errors := if tree.Some? then Some(Some(tree.value)) else None;
    }
    if jsonapi.None? || links.None? || data.None? || included.None? || errors.None? {
      return None;
    }
    return ObjectWithMembers(
      DocumentCore(jsonapi.value, links.value, data.value, included.value, errors.value, OptionalObject(own.meta)),
      own.additional);
  }

  /**
    `Codec.Marshal` up to document validation, which can only refuse more: whatever chains of
    descriptors the heap holds, the member checks end; a document they accept is written completely,
    links with a leading `@` included.
   */
  method CheckThenMarshal(document: DocumentState, registry: Registry, ghost cells: set<LinkCell>)
    returns (accepted: bool, encoded: Option<Tree>)
    requires DocumentWithin(document, cells) && Closed(cells) && registry.WellFormed()
    ensures accepted <==>
      DocumentEnds(document, cells) && DocumentAccepted(registry, UnfoldedDocument(document, cells))
    ensures accepted ==> encoded.Some? && encoded == EncodeDocument(UnfoldedDocument(document, cells))
  {
    hide DocumentWithin, DocumentEnds, DocumentAccepted, UnfoldedDocument, EncodeDocument;
    var validator := new Validator();
    ValidateDocumentMembers(validator, document, registry, cells);
    accepted, encoded := validator.violations == [], None;
    if accepted {
      AcceptedDocumentIsWritten(registry, UnfoldedDocument(document, cells));
      encoded := MarshalDocument(document, cells);
    }
  }

  // Document validation alone.

  ghost predicate EntryValid(name: string, link: LinkState, checks: Checks, cells: set<LinkCell>)
    requires Within(link, cells) && Closed(cells)
    reads cells
  {
    if IsAtName(name) then ValidMemberName(name)
    else
      && (if link.own.extension.Some? then ValidExtensionMemberName(name) else ValidMemberName(name))
      && EndsWithin(link, MAX_NESTING_DEPTH, cells) && SoundChain(link, MAX_NESTING_DEPTH, cells, checks)
  }

  /** `validateLinks`: a link under an `@` name is not looked at. */
  method ValidateLinks(
    validator: Validator, links: LinkStates, path: string, checks: Checks, ghost cells: set<LinkCell>)
    requires LinksWithin(Some(links), cells) && Closed(cells)
    requires forall name :: name in links ==> AllOrdinary(links[name], cells)
    modifies validator
    ensures Grows(old(validator.violations), validator.violations,
      forall name :: name in links ==> EntryValid(name, links[name], checks, cells))
  {
    hide EndsWithin, SoundChain, AllOrdinary, EscapeToken, ValidMemberName, ValidExtensionMemberName;
    var pending := links.Keys;
    while pending != {}
      invariant pending <= links.Keys
      invariant Grows(old(validator.violations), validator.violations,
        forall name :: name in links.Keys - pending ==> EntryValid(name, links[name], checks, cells))
      decreases pending
    {
      var name :| name in pending;
      var link := links[name];
      var linkPath := path + "/" + EscapeToken(name);
      if IsAtName(name) {
        if !ValidMemberName(name) {
          validator.Add(linkPath, InvalidMemberName);
        }
      } else {
        var valid := if link.own.extension.Some? then ValidExtensionMemberName(name) else ValidMemberName(name);
        if !valid {
          validator.Add(linkPath, InvalidMemberName);
        }
        ValidateLink(validator, link, linkPath, checks, cells);
      }
      assert links.Keys - (pending - {name}) == links.Keys - pending + {name};
      pending := pending - {name};
    }
    assert links.Keys - {} == links.Keys;
  }

  /** No number of hops ends the chain. */
  ghost predicate NeverEnds(link: LinkState, cells: set<LinkCell>)
    requires Within(link, cells) && Closed(cells)
    reads cells
  {
    forall hops: nat :: !EndsWithin(link, hops, cells)
  }

  /** A link object that describes itself, which takes nothing but a pointer to it. */
  method SelfDescribed() returns (cell: LinkCell)
    ensures fresh(cell)
    ensures cell.link.describedBy == cell && cell.link.own.isObject && !cell.link.own.isNull
    ensures cell.link.own.extension.None?
    ensures NeverEnds(cell.link, {cell})
  {
    var own := URI("").(isObject := true, href := Field("", true));
    cell := new LinkCell(LinkState(own, null));
    cell.link := LinkState(own, cell);
    forall hops: nat ensures !EndsWithin(cell.link, hops, {cell}) {
      SelfReferenceNeverEnds(cell, hops);
    }
  }

  lemma {:induction false} SelfReferenceNeverEnds(cell: LinkCell, hops: nat)
    requires cell.link.describedBy == cell
    ensures !EndsWithin(cell.link, hops, {cell})
  {
    if hops > 0 {
      SelfReferenceNeverEnds(cell, hops - 1);
    }
  }

  /**
    Under an `@` name, document validation lets such a link through and the member checks do not.
    The encoder would not end on it.
   */
  method CyclicNote(name: string, registry: Registry, checks: Checks)
    returns (links: LinkStates, ghost cells: set<LinkCell>, valid: bool, accepted: bool)
    requires IsAtName(name) && ValidMemberName(name)
    ensures links.Keys == {name} && LinksWithin(Some(links), cells) && Closed(cells)
    ensures links[name].own.isObject && links[name].own.extension.None? && NeverEnds(links[name], cells)
    ensures valid && !accepted
  {
    hide ValidMemberName, SoundChain, EscapeToken, EndsWithin, LinksAccepted;
    var cell := SelfDescribed();
    links, cells := map[name := cell.link], {cell};
    assert name in links && NeverEnds(links[name], cells);
    var validator := new Validator();
    ValidateLinks(validator, links, "/links", checks, cells);
    valid := validator.violations == [];
    var members := new Validator();
    ValidateLinkMap(members, Some(links), "/links", registry, cells);
    accepted := members.violations == [];
  }
}
