/**
  What identity and linkage mean, on the fields of a document alone: where its resources stand, which
  identifiers link them, and when two of them name the same resource.
 */
module IdentityFields {
  import opened Documents

  /** A field that is not empty, or is explicitly so. */
  predicate Given(field: Field) {
    field != Field("", false)
  }

  /** Where a resource stands: alone in primary data, at an index of it, or at an index of `included`. */
  datatype Position = Alone | Item(index: nat) | Included(index: nat)

  function ResourceAt(document: Document, position: Position): Option<Resource> {
    match position
    case Alone =>
      (match document.data
       case Some(ResourceData(one)) => Some(one)
       case _ => None)
    case Item(index) =>
      (match document.data
       case Some(ResourceCollection(many)) => if index < |many| then Some(many[index]) else None
       case _ => None)
    case Included(index) =>
      (match document.included
       case Some(included) => if index < |included| then Some(included[index]) else None
       case None => None)
  }

  /** Primary data comes before included resources, and each in its own order. */
  predicate Precedes(first: Position, second: Position) {
    match (first, second)
    case (Included(i), Included(j)) => i < j
    case (Item(i), Item(j)) => i < j
    case (Included(_), _) => false
    case (_, Included(_)) => true
    case _ => false
  }

  ghost predicate IsPrimary(document: Document, resource: Resource) {
    exists position: Position :: !position.Included? && ResourceAt(document, position) == Some(resource)
  }

  /** The identifier stands in the data of a relationship whose name has no leading `@`. */
  ghost predicate IsLinked(relationships: Option<Relationships>, identifier: Identifier) {
    relationships.Some? && exists name :: IsLinkedUnder(relationships.value, name, identifier)
  }

  ghost predicate IsLinkedUnder(relationships: Relationships, name: string, identifier: Identifier) {
    && name in relationships && !(name != "" && name[0] == '@')
    && match relationships[name].data
       case Some(ToOne(one)) => identifier == one
       case Some(ToMany(many)) => identifier in many
       case _ => false
  }

  /** The identifier names the resource: by its id when it has one, otherwise by its lid. */
  predicate Refers(identifier: Identifier, resource: Resource) {
    && identifier.resourceType == resource.resourceType != ""
    && if Given(identifier.id) then Given(resource.id) && identifier.id.value == resource.id.value
       else Given(resource.lid) && identifier.lid.value == resource.lid.value
  }

  predicate SameId(first: Resource, second: Resource) {
    && first.resourceType == second.resourceType != ""
    && Given(first.id) && Given(second.id) && first.id.value == second.id.value
  }

  predicate SameLid(first: Resource, second: Resource) {
    && first.resourceType == second.resourceType != ""
    && Given(first.lid) && Given(second.lid) && first.lid.value == second.lid.value
  }

  // Chains of linkage from primary data through included resources.

  ghost predicate LeadsTo(resource: Resource, target: Resource) {
    exists identifier :: IsLinked(resource.relationships, identifier) && Refers(identifier, target)
  }

  ghost predicate PrimaryLeadsTo(document: Document, target: Resource) {
    exists resource :: IsPrimary(document, resource) && LeadsTo(resource, target)
  }

  ghost predicate LinkedChain(document: Document, path: seq<nat>) {
    && document.included.Some? && path != []
    && (forall k :: 0 <= k < |path| ==> path[k] < |document.included.value|)
    && PrimaryLeadsTo(document, document.included.value[path[0]])
    && forall k :: 0 < k < |path| ==>
         LeadsTo(document.included.value[path[k - 1]], document.included.value[path[k]])
  }

  /** Some chain leads to this included resource. */
  ghost predicate FullyLinked(document: Document, j: nat) {
    exists path :: LinkedChain(document, path) && path[|path| - 1] == j
  }

  // Types without the separator of the library's keys.

  predicate PlainType(resourceType: string) {
    '\0' !in resourceType
  }

  ghost predicate PlainTypes(document: Document) {
    forall position, resource :: ResourceAt(document, position) == Some(resource) ==> PlainResource(resource)
  }

  ghost predicate PlainResource(resource: Resource) {
    && PlainType(resource.resourceType)
    && forall identifier :: IsLinked(resource.relationships, identifier) ==> PlainType(identifier.resourceType)
  }

  // Observed identities.

  /** Some resource or identifier of the document carries this type, id and lid. */
  ghost predicate Observed(document: Document, resourceType: string, id: Field, lid: Field) {
    exists position, resource :: ResourceAt(document, position) == Some(resource) && ObservedIn(resource, resourceType, id, lid)
  }

  ghost predicate ObservedIn(resource: Resource, resourceType: string, id: Field, lid: Field) {
    || (resource.resourceType == resourceType && resource.id == id && resource.lid == lid)
    || exists identifier ::
         && IsLinked(resource.relationships, identifier)
         && identifier.resourceType == resourceType && identifier.id == id && identifier.lid == lid
  }
}
