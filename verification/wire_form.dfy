/**
  What the encoder writes, as a relation between documents and trees: for every name, the member that
  stands under it. Nothing else is written, and nothing is written at all when an additional member
  has the name of a core member that is.
 */
module WireForm {
  import opened Documents
  import opened Registries
  import opened Encoder
  import opened Decoder
  import RoundTrip

  /** A string member is left out exactly when it is empty and was not said to be present. */
  function Text(field: Field): Option<Tree> {
    if field == Field("", false) then None else Some(String(field.value))
  }

  function Meta(members: Option<Members>): Option<Tree> {
    match members
    case None => None
    case Some(present) => Some(Object(present))
  }

  ghost predicate AreTexts(tree: Tree, values: seq<string>) {
    tree.Array? && |tree.items| == |values| && forall i :: 0 <= i < |values| ==> tree.items[i] == String(values[i])
  }

  /**
    The object has the core members, the members whose values are described elsewhere, and the
    additional ones, which share no name with either.
   */
  ghost predicate IsMerged(tree: Tree, core: string -> Option<Tree>, elsewhere: set<string>, additional: Members) {
    && tree.Object? && elsewhere <= tree.members.Keys
    && (forall name :: name in additional ==> name !in elsewhere && core(name).None?)
    && forall name :: name !in elsewhere ==>
         Get(tree.members, name) == if core(name).Some? then core(name) else Get(additional, name)
  }

  /** The name where a value is present. */
  function Where<T>(value: Option<T>, name: string): set<string> {
    if value.Some? then {name} else {}
  }

  // The core members of each object that are no objects with a wire form of their own.

  function JSONAPIMembers(jsonapi: JSONAPI): string -> Option<Tree> {
    (name: string) =>
      if name == "version" then Text(jsonapi.version)
      else if name == "meta" then Meta(jsonapi.meta)
      else None
  }

  function LinkMembers(link: Link): string -> Option<Tree> {
    (name: string) =>
      if name == "href" then Some(String(link.href.value))
      else if name == "rel" then Text(link.rel)
      else if name == "title" then Text(link.title)
      else if name == "type" then Text(link.targetType)
      else if name == "meta" then Meta(link.meta)
      else None
  }

  function IdentifierMembers(identifier: Identifier): string -> Option<Tree> {
    (name: string) =>
      if name == "type" then Some(String(identifier.resourceType))
      else if name == "id" then Text(identifier.id)
      else if name == "lid" then Text(identifier.lid)
      else if name == "meta" then Meta(identifier.meta)
      else None
  }

  function RelationshipMembers(relationship: Relationship): string -> Option<Tree> {
    (name: string) =>
      if name == "meta" then Meta(relationship.meta)
      else None
  }

  function ResourceMembers(resource: Resource): string -> Option<Tree> {
    (name: string) =>
      if name == "type" then Some(String(resource.resourceType))
      else if name == "id" then Text(resource.id)
      else if name == "lid" then Text(resource.lid)
      else if name == "attributes" then Meta(resource.attributes)
      else if name == "meta" then Meta(resource.meta)
      else None
  }

  function ErrorSourceMembers(source: ErrorSource): string -> Option<Tree> {
    (name: string) =>
      if name == "pointer" then Text(source.pointer)
      else if name == "parameter" then Text(source.parameter)
      else if name == "header" then Text(source.header)
      else None
  }

  function ErrorMembers(error: ErrorObject): string -> Option<Tree> {
    (name: string) =>
      if name == "id" then Text(error.id)
      else if name == "status" then Text(error.status)
      else if name == "code" then Text(error.code)
      else if name == "title" then Text(error.title)
      else if name == "detail" then Text(error.detail)
      else if name == "meta" then Meta(error.meta)
      else None
  }

  function DocumentMembers(document: Document): string -> Option<Tree> {
    (name: string) =>
      if name == "meta" then Meta(document.meta)
      else None
  }

  // Objects.

  ghost predicate IsWrittenJSONAPI(jsonapi: JSONAPI, tree: Tree) {
    && IsMerged(
         tree,
         JSONAPIMembers(jsonapi),
         Where(jsonapi.ext, "ext") + Where(jsonapi.profile, "profile"),
         jsonapi.additional)
    && (jsonapi.ext.Some? ==> AreTexts(tree.members["ext"], jsonapi.ext.value))
    && (jsonapi.profile.Some? ==> AreTexts(tree.members["profile"], jsonapi.profile.value))
  }

  /** The array form, or the first tag; the scalar without a tag is the empty string. */
  ghost predicate IsWrittenHreflang(hreflang: Hreflang, tree: Tree) {
    if hreflang.many then AreTexts(tree, hreflang.values)
    else tree == String(if hreflang.values == [] then "" else hreflang.values[0])
  }

  ghost predicate IsWrittenLink(link: Link, tree: Tree) {
    match link.extension
    case Some(value) => tree == value
    case None =>
      if link.isNull then tree == Null
      else if !link.isObject then tree == String(link.href.value)
      else
        && IsMerged(
             tree,
             LinkMembers(link),
             Where(link.describedBy, "describedby") + Where(link.hreflang, "hreflang"),
             link.additional)
        && (link.hreflang.Some? ==> IsWrittenHreflang(link.hreflang.value, tree.members["hreflang"]))
        && (link.describedBy.Some? ==> IsWrittenLink(link.describedBy.value, tree.members["describedby"]))
  }

  ghost predicate AreWrittenLinks(links: Links, tree: Tree) {
    && tree.Object? && tree.members.Keys == links.Keys
    && forall name :: name in links ==> IsWrittenLink(links[name], tree.members[name])
  }

  ghost predicate IsWrittenIdentifier(identifier: Identifier, tree: Tree) {
    IsMerged(
      tree,
      IdentifierMembers(identifier),
      {},
      identifier.additional)
  }

  ghost predicate IsWrittenLinkage(data: RelationshipData, tree: Tree) {
    match data
    case NullRelationship => tree == Null
    case ToOne(one) => IsWrittenIdentifier(one, tree)
    case ToMany(many) =>
      && tree.Array? && |tree.items| == |many|
      && forall i :: 0 <= i < |many| ==> IsWrittenIdentifier(many[i], tree.items[i])
  }

  ghost predicate IsWrittenRelationship(relationship: Relationship, tree: Tree) {
    && IsMerged(
         tree,
         RelationshipMembers(relationship),
         Where(relationship.links, "links") + Where(relationship.data, "data"),
         relationship.additional)
    && (relationship.links.Some? ==> AreWrittenLinks(relationship.links.value, tree.members["links"]))
    && (relationship.data.Some? ==> IsWrittenLinkage(relationship.data.value, tree.members["data"]))
  }

  ghost predicate AreWrittenRelationships(relationships: Relationships, tree: Tree) {
    && tree.Object? && tree.members.Keys == relationships.Keys
    && forall name :: name in relationships ==> IsWrittenRelationship(relationships[name], tree.members[name])
  }

  ghost predicate IsWrittenResource(resource: Resource, tree: Tree) {
    && IsMerged(
         tree,
         ResourceMembers(resource),
         Where(resource.relationships, "relationships") + Where(resource.links, "links"),
         resource.additional)
    && (resource.relationships.Some? ==>
          AreWrittenRelationships(resource.relationships.value, tree.members["relationships"]))
    && (resource.links.Some? ==> AreWrittenLinks(resource.links.value, tree.members["links"]))
  }

  ghost predicate AreWrittenResources(resources: seq<Resource>, tree: Tree) {
    && tree.Array? && |tree.items| == |resources|
    && forall i :: 0 <= i < |resources| ==> IsWrittenResource(resources[i], tree.items[i])
  }

  ghost predicate IsWrittenData(data: PrimaryData, tree: Tree) {
    match data
    case NullData => tree == Null
    case ResourceData(one) => IsWrittenResource(one, tree)
    case ResourceCollection(many) => AreWrittenResources(many, tree)
  }

  ghost predicate IsWrittenErrorSource(source: ErrorSource, tree: Tree) {
    IsMerged(
      tree,
      ErrorSourceMembers(source),
      {},
      source.additional)
  }

  ghost predicate IsWrittenError(error: ErrorObject, tree: Tree) {
    && IsMerged(
         tree,
         ErrorMembers(error),
         Where(error.links, "links") + Where(error.source, "source"),
         error.additional)
    && (error.links.Some? ==> AreWrittenLinks(error.links.value, tree.members["links"]))
    && (error.source.Some? ==> IsWrittenErrorSource(error.source.value, tree.members["source"]))
  }

  ghost predicate AreWrittenErrors(errors: seq<ErrorObject>, tree: Tree) {
    && tree.Array? && |tree.items| == |errors|
    && forall i :: 0 <= i < |errors| ==> IsWrittenError(errors[i], tree.items[i])
  }

  ghost predicate IsWrittenDocument(document: Document, tree: Tree) {
    && IsMerged(
         tree,
         DocumentMembers(document),
         DocumentElsewhere(document),
         document.additional)
    && (document.jsonapi.Some? ==> IsWrittenJSONAPI(document.jsonapi.value, tree.members["jsonapi"]))
    && (document.links.Some? ==> AreWrittenLinks(document.links.value, tree.members["links"]))
    && (document.data.Some? ==> IsWrittenData(document.data.value, tree.members["data"]))
    && (document.included.Some? ==> AreWrittenResources(document.included.value, tree.members["included"]))
    && (document.errors.Some? ==> AreWrittenErrors(document.errors.value, tree.members["errors"]))
  }

  // Encoding is this relation.

  lemma MergedIsWritten(
    tree: Tree, all: Members, core: string -> Option<Tree>, elsewhere: set<string>, additional: Members)
    requires forall name :: name !in elsewhere ==> Get(all, name) == core(name)
    requires forall name :: name in elsewhere ==> Get(all, name).Some?
    ensures ObjectWithMembers(all, additional) == Some(tree) <==>
      && IsMerged(tree, core, elsewhere, additional)
      && forall name :: name in elsewhere ==> Get(tree.members, name) == Get(all, name)
  {
    forall name ensures name in all <==> name in elsewhere || core(name).Some? {
      assert name !in elsewhere ==> Get(all, name) == core(name);
      assert name in elsewhere ==> Get(all, name).Some?;
    }
    if && IsMerged(tree, core, elsewhere, additional)
       && forall name :: name in elsewhere ==> Get(tree.members, name) == Get(all, name) {
      assert all.Keys !! additional.Keys;
      SameLookups(tree.members, all, additional, core, elsewhere);
    }
  }

  lemma SameLookups(
    members: Members, all: Members, additional: Members, core: string -> Option<Tree>, elsewhere: set<string>)
    requires all.Keys !! additional.Keys && elsewhere <= all.Keys && elsewhere <= members.Keys
    requires forall name :: name !in elsewhere ==> Get(all, name) == core(name)
    requires forall name :: name in elsewhere ==> Get(members, name) == Get(all, name)
    requires forall name :: name !in elsewhere ==>
      Get(members, name) == if core(name).Some? then core(name) else Get(additional, name)
    ensures members == all + additional
  {
    var merged := all + additional;
    forall name ensures Get(members, name) == Get(merged, name) {
      assert name in elsewhere ==> Get(members, name) == Get(all, name);
      assert name !in elsewhere ==>
        Get(all, name) == core(name) && Get(members, name) == if core(name).Some? then core(name) else Get(additional, name);
    }
    forall name ensures name in members <==> name in merged {
      assert Get(members, name) == Get(merged, name);
    }
    forall name | name in members ensures members[name] == merged[name] {
      assert Get(members, name) == Get(merged, name);
    }
  }

  lemma ArrayIsWritten(values: seq<string>, tree: Tree)
    ensures EncodeStrings(values) == tree <==> AreTexts(tree, values)
  {
    if AreTexts(tree, values) {
      assert EncodeStrings(values).items == tree.items;
    }
  }

  lemma IdentifierIsWritten(identifier: Identifier, tree: Tree)
    ensures EncodeIdentifier(identifier) == Some(tree) <==> IsWrittenIdentifier(identifier, tree)
  {
    hide IsMerged;
    IdentifierCoreIs(identifier);
    MergedIsWritten(tree, IdentifierCore(identifier), IdentifierMembers(identifier), {}, identifier.additional);
  }

  lemma IdentifierCoreNames(identifier: Identifier)
    ensures forall name :: Get(IdentifierCore(identifier), name).Some? ==>
      name == "type" || name == "id" || name == "lid" || name == "meta"
  {
  }

  lemma IdentifierCoreIs(identifier: Identifier)
    ensures forall name :: Get(IdentifierCore(identifier), name) == IdentifierMembers(identifier)(name)
  {
    hide IdentifierCore, Get;
    RoundTrip.IdentifierCoreMembers(identifier);
    IdentifierCoreNames(identifier);
  }

  lemma JSONAPIIsWritten(jsonapi: JSONAPI, tree: Tree)
    ensures EncodeJSONAPI(jsonapi) == Some(tree) <==> IsWrittenJSONAPI(jsonapi, tree)
  {
    hide IsMerged, AreTexts, EncodeStrings;
    var core, elsewhere := JSONAPICore(jsonapi), Where(jsonapi.ext, "ext") + Where(jsonapi.profile, "profile");
    JSONAPICoreIs(jsonapi);
    MergedIsWritten(tree, core, JSONAPIMembers(jsonapi), elsewhere, jsonapi.additional);
    MergedHasMembers(tree, JSONAPIMembers(jsonapi), elsewhere, jsonapi.additional);
    if jsonapi.ext.Some? && tree.Object? && "ext" in tree.members {
      ArrayIsWritten(jsonapi.ext.value, tree.members["ext"]);
    }
    if jsonapi.profile.Some? && tree.Object? && "profile" in tree.members {
      ArrayIsWritten(jsonapi.profile.value, tree.members["profile"]);
    }
  }

  lemma MergedHasMembers(tree: Tree, core: string -> Option<Tree>, elsewhere: set<string>, additional: Members)
    ensures IsMerged(tree, core, elsewhere, additional) ==> tree.Object? && elsewhere <= tree.members.Keys
  {
  }

  lemma JSONAPICoreNames(jsonapi: JSONAPI)
    ensures forall name :: Get(JSONAPICore(jsonapi), name).Some? ==>
      name == "version" || name == "ext" || name == "profile" || name == "meta"
  {
  }

  lemma JSONAPICoreIs(jsonapi: JSONAPI)
    ensures var core, elsewhere := JSONAPICore(jsonapi), Where(jsonapi.ext, "ext") + Where(jsonapi.profile, "profile");
      && (forall name :: name !in elsewhere ==> Get(core, name) == JSONAPIMembers(jsonapi)(name))
      && (jsonapi.ext.Some? ==> Get(core, "ext") == Some(EncodeStrings(jsonapi.ext.value)))
      && (jsonapi.profile.Some? ==> Get(core, "profile") == Some(EncodeStrings(jsonapi.profile.value)))
  {
    hide JSONAPICore, Get;
    RoundTrip.JSONAPICoreMembers(jsonapi);
    JSONAPICoreNames(jsonapi);
  }

  lemma {:induction false} LinkIsWritten(link: Link, tree: Tree)
    ensures EncodeLink(link) == Some(tree) <==> IsWrittenLink(link, tree)
    decreases link
  {
    if link.extension.None? && !link.isNull && link.isObject {
      if link.describedBy.Some? && tree.Object? && "describedby" in tree.members {
        LinkIsWritten(link.describedBy.value, tree.members["describedby"]);
      }
      LinkObjectIsWritten(link, tree);
    }
  }

  lemma LinkObjectIsWritten(link: Link, tree: Tree)
    requires link.extension.None? && !link.isNull && link.isObject
    requires link.describedBy.Some? && tree.Object? && "describedby" in tree.members ==>
      (EncodeLink(link.describedBy.value) == Some(tree.members["describedby"]) <==>
        IsWrittenLink(link.describedBy.value, tree.members["describedby"]))
    ensures EncodeLink(link) == Some(tree) <==> IsWrittenLink(link, tree)
  {
    hide IsMerged, IsWrittenHreflang, HreflangValue, LinkCore, ObjectWithMembers;
    var elsewhere := Where(link.describedBy, "describedby") + Where(link.hreflang, "hreflang");
    MergedHasMembers(tree, LinkMembers(link), elsewhere, link.additional);
    if EncodeDescribedBy(link).Some? {
      var core := LinkCore(link, EncodeDescribedBy(link).value);
      LinkCoreIs(link, EncodeDescribedBy(link).value);
      MergedIsWritten(tree, core, LinkMembers(link), elsewhere, link.additional);
      assert EncodeLink(link) == ObjectWithMembers(core, link.additional);
      if link.hreflang.Some? && tree.Object? && "hreflang" in tree.members {
        HreflangIsWritten(link.hreflang.value, tree.members["hreflang"]);
      }
    } else {
      assert EncodeLink(link.describedBy.value).None?;
    }
  }

  lemma LinkCoreNames(link: Link, describedBy: Option<Tree>)
    ensures forall name :: Get(LinkCore(link, describedBy), name).Some? ==>
      name == "href" || name == "rel" || name == "describedby" || name == "title" || name == "type" || name == "hreflang" || name == "meta"
  {
  }

  lemma LinkCoreIs(link: Link, describedBy: Option<Tree>)
    requires describedBy.Some? <==> link.describedBy.Some?
    ensures var core := LinkCore(link, describedBy);
      var elsewhere := Where(link.describedBy, "describedby") + Where(link.hreflang, "hreflang");
      && (forall name :: name !in elsewhere ==> Get(core, name) == LinkMembers(link)(name))
      && (describedBy.Some? ==> Get(core, "describedby") == Some(describedBy.value))
      && (link.hreflang.Some? ==> Get(core, "hreflang") == Some(HreflangValue(link.hreflang.value)))
  {
    hide LinkCore, Get;
    RoundTrip.LinkCoreMembers(link, describedBy);
    LinkCoreNames(link, describedBy);
  }

  lemma HreflangIsWritten(hreflang: Hreflang, tree: Tree)
    ensures HreflangValue(hreflang) == tree <==> IsWrittenHreflang(hreflang, tree)
  {
    hide EncodeStrings, AreTexts;
    ArrayIsWritten(hreflang.values, tree);
  }

  lemma LinksAreWritten(links: Links, tree: Tree)
    ensures EncodeLinks(links) == Some(tree) <==> AreWrittenLinks(links, tree)
  {
    hide EncodeLink, IsWrittenLink;
    if tree.Object? && tree.members.Keys == links.Keys {
      forall name | name in links
        ensures EncodeLink(links[name]) == Some(tree.members[name]) <==> IsWrittenLink(links[name], tree.members[name])
      {
        LinkIsWritten(links[name], tree.members[name]);
      }
      if AreWrittenLinks(links, tree) {
        assert EachMember(EncodeLink, links).value == tree.members;
      }
    }
  }

  lemma LinkageIsWritten(data: RelationshipData, tree: Tree)
    ensures EncodeRelationshipData(data) == Some(tree) <==> IsWrittenLinkage(data, tree)
  {
    hide EncodeIdentifier, IsWrittenIdentifier;
    if data.ToOne? {
      IdentifierIsWritten(data.one, tree);
    }
    if data.ToMany? && tree.Array? && |tree.items| == |data.many| {
      forall i | 0 <= i < |data.many|
        ensures EncodeIdentifier(data.many[i]) == Some(tree.items[i]) <==> IsWrittenIdentifier(data.many[i], tree.items[i])
      {
        IdentifierIsWritten(data.many[i], tree.items[i]);
      }
      if IsWrittenLinkage(data, tree) {
        assert Each(EncodeIdentifier, data.many).value == tree.items;
      }
    }
  }

  lemma RelationshipIsWritten(relationship: Relationship, tree: Tree)
    ensures EncodeRelationship(relationship) == Some(tree) <==> IsWrittenRelationship(relationship, tree)
  {
    hide IsMerged, EncodeLinks, AreWrittenLinks, EncodeRelationshipData, IsWrittenLinkage, RelationshipCore;
    hide ObjectWithMembers;
    var elsewhere := Where(relationship.links, "links") + Where(relationship.data, "data");
    MergedHasMembers(tree, RelationshipMembers(relationship), elsewhere, relationship.additional);
    if relationship.links.Some? && tree.Object? && "links" in tree.members {
      LinksAreWritten(relationship.links.value, tree.members["links"]);
    }
    if relationship.data.Some? && tree.Object? && "data" in tree.members {
      LinkageIsWritten(relationship.data.value, tree.members["data"]);
    }
    var links, data := Lift(EncodeLinks, relationship.links), Lift(EncodeRelationshipData, relationship.data);
    if links.Some? && data.Some? {
      RelationshipCoreIs(relationship, links.value, data.value);
      MergedIsWritten(
        tree, RelationshipCore(relationship, links.value, data.value), RelationshipMembers(relationship), elsewhere,
        relationship.additional);
    }
  }

  lemma RelationshipCoreNames(relationship: Relationship, links: Option<Tree>, data: Option<Tree>)
    ensures forall name :: Get(RelationshipCore(relationship, links, data), name).Some? ==>
      name == "links" || name == "data" || name == "meta"
  {
  }

  lemma RelationshipCoreIs(relationship: Relationship, links: Option<Tree>, data: Option<Tree>)
    requires (links.Some? <==> relationship.links.Some?) && (data.Some? <==> relationship.data.Some?)
    ensures var core := RelationshipCore(relationship, links, data);
      var elsewhere := Where(relationship.links, "links") + Where(relationship.data, "data");
      && (forall name :: name !in elsewhere ==> Get(core, name) == RelationshipMembers(relationship)(name))
      && (links.Some? ==> Get(core, "links") == Some(links.value))
      && (data.Some? ==> Get(core, "data") == Some(data.value))
  {
    hide RelationshipCore, Get;
    RoundTrip.RelationshipCoreMembers(relationship, links, data);
    RelationshipCoreNames(relationship, links, data);
  }

  lemma RelationshipsAreWritten(relationships: Relationships, tree: Tree)
    ensures EncodeRelationships(relationships) == Some(tree) <==> AreWrittenRelationships(relationships, tree)
  {
    hide EncodeRelationship, IsWrittenRelationship;
    if tree.Object? && tree.members.Keys == relationships.Keys {
      forall name | name in relationships
        ensures EncodeRelationship(relationships[name]) == Some(tree.members[name]) <==>
          IsWrittenRelationship(relationships[name], tree.members[name])
      {
        RelationshipIsWritten(relationships[name], tree.members[name]);
      }
      if AreWrittenRelationships(relationships, tree) {
        assert EachMember(EncodeRelationship, relationships).value == tree.members;
      }
    }
  }

  lemma ResourceIsWritten(resource: Resource, tree: Tree)
    ensures EncodeResource(resource) == Some(tree) <==> IsWrittenResource(resource, tree)
  {
    hide IsMerged, EncodeLinks, AreWrittenLinks, EncodeRelationships, AreWrittenRelationships, ResourceCore;
    hide ObjectWithMembers;
    var elsewhere := Where(resource.relationships, "relationships") + Where(resource.links, "links");
    MergedHasMembers(tree, ResourceMembers(resource), elsewhere, resource.additional);
    if resource.links.Some? && tree.Object? && "links" in tree.members {
      LinksAreWritten(resource.links.value, tree.members["links"]);
    }
    if resource.relationships.Some? && tree.Object? && "relationships" in tree.members {
      RelationshipsAreWritten(resource.relationships.value, tree.members["relationships"]);
    }
    var relationships, links := Lift(EncodeRelationships, resource.relationships), Lift(EncodeLinks, resource.links);
    if relationships.Some? && links.Some? {
      ResourceCoreIs(resource, relationships.value, links.value);
      MergedIsWritten(
        tree, ResourceCore(resource, relationships.value, links.value), ResourceMembers(resource), elsewhere,
        resource.additional);
    }
  }

  lemma ResourceCoreNames(resource: Resource, relationships: Option<Tree>, links: Option<Tree>)
    ensures forall name :: Get(ResourceCore(resource, relationships, links), name).Some? ==>
      name == "type" || name == "id" || name == "lid" || name == "attributes" || name == "relationships" || name == "links" || name == "meta"
  {
  }

  lemma ResourceCoreIs(resource: Resource, relationships: Option<Tree>, links: Option<Tree>)
    requires (relationships.Some? <==> resource.relationships.Some?) && (links.Some? <==> resource.links.Some?)
    ensures var core := ResourceCore(resource, relationships, links);
      var elsewhere := Where(resource.relationships, "relationships") + Where(resource.links, "links");
      && (forall name :: name !in elsewhere ==> Get(core, name) == ResourceMembers(resource)(name))
      && (relationships.Some? ==> Get(core, "relationships") == Some(relationships.value))
      && (links.Some? ==> Get(core, "links") == Some(links.value))
  {
    hide ResourceCore, Get;
    RoundTrip.ResourceCoreMembers(resource, relationships, links);
    ResourceCoreNames(resource, relationships, links);
  }

  lemma ResourcesAreWritten(resources: seq<Resource>, tree: Tree)
    ensures EncodeResources(resources) == Some(tree) <==> AreWrittenResources(resources, tree)
  {
    hide EncodeResource, IsWrittenResource;
    if tree.Array? && |tree.items| == |resources| {
      forall i | 0 <= i < |resources|
        ensures EncodeResource(resources[i]) == Some(tree.items[i]) <==> IsWrittenResource(resources[i], tree.items[i])
      {
        ResourceIsWritten(resources[i], tree.items[i]);
      }
      if AreWrittenResources(resources, tree) {
        assert Each(EncodeResource, resources).value == tree.items;
      }
    }
  }

  lemma DataIsWritten(data: PrimaryData, tree: Tree)
    ensures EncodePrimaryData(data) == Some(tree) <==> IsWrittenData(data, tree)
  {
    hide EncodeResource, EncodeResources, IsWrittenResource, AreWrittenResources;
    match data
    case NullData =>
    case ResourceData(one) => ResourceIsWritten(one, tree);
    case ResourceCollection(many) => ResourcesAreWritten(many, tree);
  }

  lemma ErrorSourceIsWritten(source: ErrorSource, tree: Tree)
    ensures EncodeErrorSource(source) == Some(tree) <==> IsWrittenErrorSource(source, tree)
  {
    hide IsMerged;
    ErrorSourceCoreIs(source);
    MergedIsWritten(tree, ErrorSourceCore(source), ErrorSourceMembers(source), {}, source.additional);
  }

  lemma ErrorSourceCoreNames(source: ErrorSource)
    ensures forall name :: Get(ErrorSourceCore(source), name).Some? ==>
      name == "pointer" || name == "parameter" || name == "header"
  {
  }

  lemma ErrorSourceCoreIs(source: ErrorSource)
    ensures forall name :: Get(ErrorSourceCore(source), name) == ErrorSourceMembers(source)(name)
  {
    hide ErrorSourceCore, Get;
    RoundTrip.ErrorSourceCoreMembers(source);
    ErrorSourceCoreNames(source);
  }

  lemma ErrorIsWritten(error: ErrorObject, tree: Tree)
    ensures EncodeError(error) == Some(tree) <==> IsWrittenError(error, tree)
  {
    hide IsMerged, EncodeLinks, AreWrittenLinks, EncodeErrorSource, IsWrittenErrorSource, ErrorCore, ObjectWithMembers;
    var elsewhere := Where(error.links, "links") + Where(error.source, "source");
    MergedHasMembers(tree, ErrorMembers(error), elsewhere, error.additional);
    if error.links.Some? && tree.Object? && "links" in tree.members {
      LinksAreWritten(error.links.value, tree.members["links"]);
    }
    if error.source.Some? && tree.Object? && "source" in tree.members {
      ErrorSourceIsWritten(error.source.value, tree.members["source"]);
    }
    var links, source := Lift(EncodeLinks, error.links), Lift(EncodeErrorSource, error.source);
    if links.Some? && source.Some? {
      ErrorCoreIs(error, links.value, source.value);
      MergedIsWritten(
        tree, ErrorCore(error, links.value, source.value), ErrorMembers(error), elsewhere, error.additional);
    }
  }

  lemma ErrorCoreNames(error: ErrorObject, links: Option<Tree>, source: Option<Tree>)
    ensures forall name :: Get(ErrorCore(error, links, source), name).Some? ==>
      name == "id" || name == "links" || name == "status" || name == "code" || name == "title" || name == "detail" || name == "source" || name == "meta"
  {
  }

  lemma ErrorCoreIs(error: ErrorObject, links: Option<Tree>, source: Option<Tree>)
    requires (links.Some? <==> error.links.Some?) && (source.Some? <==> error.source.Some?)
    ensures var core := ErrorCore(error, links, source);
      var elsewhere := Where(error.links, "links") + Where(error.source, "source");
      && (forall name :: name !in elsewhere ==> Get(core, name) == ErrorMembers(error)(name))
      && (links.Some? ==> Get(core, "links") == Some(links.value))
      && (source.Some? ==> Get(core, "source") == Some(source.value))
  {
    hide ErrorCore, Get;
    RoundTrip.ErrorCoreMembers(error, links, source);
    ErrorCoreNames(error, links, source);
  }

  lemma ErrorsAreWritten(errors: seq<ErrorObject>, tree: Tree)
    ensures EncodeErrors(errors) == Some(tree) <==> AreWrittenErrors(errors, tree)
  {
    hide EncodeError, IsWrittenError;
    if tree.Array? && |tree.items| == |errors| {
      forall i | 0 <= i < |errors|
        ensures EncodeError(errors[i]) == Some(tree.items[i]) <==> IsWrittenError(errors[i], tree.items[i])
      {
        ErrorIsWritten(errors[i], tree.items[i]);
      }
      if AreWrittenErrors(errors, tree) {
        assert Each(EncodeError, errors).value == tree.items;
      }
    }
  }

  ghost function DocumentElsewhere(document: Document): set<string> {
    Where(document.jsonapi, "jsonapi") + Where(document.links, "links") + Where(document.data, "data")
    + Where(document.included, "included") + Where(document.errors, "errors")
  }

  lemma DocumentCoreNames(
    jsonapi: Option<Tree>, links: Option<Tree>, data: Option<Tree>,
    included: Option<Tree>, errors: Option<Tree>, meta: Option<Tree>)
    ensures forall name :: Get(DocumentCore(jsonapi, links, data, included, errors, meta), name).Some? ==>
      name == "jsonapi" || name == "links" || name == "data" || name == "included" || name == "errors" || name == "meta"
  {
  }

  lemma DocumentCoreIs(
    document: Document, jsonapi: Option<Tree>, links: Option<Tree>, data: Option<Tree>,
    included: Option<Tree>, errors: Option<Tree>)
    requires (jsonapi.Some? <==> document.jsonapi.Some?) && (links.Some? <==> document.links.Some?)
    requires (data.Some? <==> document.data.Some?) && (included.Some? <==> document.included.Some?)
    requires errors.Some? <==> document.errors.Some?
    ensures var core := DocumentCore(jsonapi, links, data, included, errors, OptionalObject(document.meta));
      && (forall name :: name !in DocumentElsewhere(document) ==> Get(core, name) == DocumentMembers(document)(name))
      && (jsonapi.Some? ==> Get(core, "jsonapi") == Some(jsonapi.value))
      && (links.Some? ==> Get(core, "links") == Some(links.value))
      && (data.Some? ==> Get(core, "data") == Some(data.value))
      && (included.Some? ==> Get(core, "included") == Some(included.value))
      && (errors.Some? ==> Get(core, "errors") == Some(errors.value))
  {
    hide DocumentCore, Get;
    RoundTrip.DocumentCoreMembers(jsonapi, links, data, included, errors, OptionalObject(document.meta));
    DocumentCoreNames(jsonapi, links, data, included, errors, OptionalObject(document.meta));
  }

  /** The member of this name, where the document has such a part. */
  function Part<T>(part: Option<T>, tree: Tree, name: string): Option<Tree> {
    if part.Some? && tree.Object? then Get(tree.members, name) else None
  }

  /** The encodings of the parts of the document are the members of the tree. */
  ghost predicate PartsAreEncoded(document: Document, tree: Tree) {
    && Lift(EncodeJSONAPI, document.jsonapi) == Some(Part(document.jsonapi, tree, "jsonapi"))
    && Lift(EncodeLinks, document.links) == Some(Part(document.links, tree, "links"))
    && Lift(EncodePrimaryData, document.data) == Some(Part(document.data, tree, "data"))
    && Lift(EncodeResources, document.included) == Some(Part(document.included, tree, "included"))
    && Lift(EncodeErrors, document.errors) == Some(Part(document.errors, tree, "errors"))
  }

  lemma PartsAreWritten(document: Document, tree: Tree)
    requires tree.Object? && DocumentElsewhere(document) <= tree.members.Keys
    ensures PartsAreEncoded(document, tree) <==>
      && (document.jsonapi.Some? ==> IsWrittenJSONAPI(document.jsonapi.value, tree.members["jsonapi"]))
      && (document.links.Some? ==> AreWrittenLinks(document.links.value, tree.members["links"]))
      && (document.data.Some? ==> IsWrittenData(document.data.value, tree.members["data"]))
      && (document.included.Some? ==> AreWrittenResources(document.included.value, tree.members["included"]))
      && (document.errors.Some? ==> AreWrittenErrors(document.errors.value, tree.members["errors"]))
  {
    hide EncodeJSONAPI, EncodeLinks, EncodePrimaryData, EncodeResources, EncodeErrors, IsWrittenJSONAPI, AreWrittenLinks;
    hide IsWrittenData, AreWrittenResources, AreWrittenErrors;
    if document.jsonapi.Some? {
      JSONAPIIsWritten(document.jsonapi.value, tree.members["jsonapi"]);
    }
    if document.links.Some? {
      LinksAreWritten(document.links.value, tree.members["links"]);
    }
    if document.data.Some? {
      DataIsWritten(document.data.value, tree.members["data"]);
    }
    if document.included.Some? {
      ResourcesAreWritten(document.included.value, tree.members["included"]);
    }
    if document.errors.Some? {
      ErrorsAreWritten(document.errors.value, tree.members["errors"]);
    }
  }

  lemma EncodedFromParts(document: Document)
    ensures var jsonapi, links, data := Lift(EncodeJSONAPI, document.jsonapi), Lift(EncodeLinks, document.links),
        Lift(EncodePrimaryData, document.data);
      var included, errors := Lift(EncodeResources, document.included), Lift(EncodeErrors, document.errors);
      EncodeDocument(document) ==
        if jsonapi.Some? && links.Some? && data.Some? && included.Some? && errors.Some? then
          ObjectWithMembers(
            DocumentCore(
              jsonapi.value, links.value, data.value, included.value, errors.value, OptionalObject(document.meta)),
            document.additional)
        else None
  {
    hide Lift, DocumentCore, ObjectWithMembers;
  }

  lemma PartsAreInPlace(
    document: Document, tree: Tree, jsonapi: Option<Tree>, links: Option<Tree>, data: Option<Tree>,
    included: Option<Tree>, errors: Option<Tree>)
    requires tree.Object? && DocumentElsewhere(document) <= tree.members.Keys
    requires Lift(EncodeJSONAPI, document.jsonapi) == Some(jsonapi) && Lift(EncodeLinks, document.links) == Some(links)
    requires Lift(EncodePrimaryData, document.data) == Some(data)
    requires Lift(EncodeResources, document.included) == Some(included)
    requires Lift(EncodeErrors, document.errors) == Some(errors)
    ensures var core := DocumentCore(jsonapi, links, data, included, errors, OptionalObject(document.meta));
      PartsAreEncoded(document, tree) <==>
      forall name :: name in DocumentElsewhere(document) ==> Get(tree.members, name) == Get(core, name)
  {
    hide EncodeJSONAPI, EncodeLinks, EncodePrimaryData, EncodeResources, EncodeErrors, DocumentCore;
    DocumentCoreIs(document, jsonapi, links, data, included, errors);
  }

  lemma PartsAreMerged(document: Document, tree: Tree)
    ensures EncodeDocument(document) == Some(tree) <==>
      && IsMerged(tree, DocumentMembers(document), DocumentElsewhere(document), document.additional)
      && PartsAreEncoded(document, tree)
  {
    hide EncodeJSONAPI, EncodeLinks, EncodePrimaryData, EncodeResources, EncodeErrors, IsMerged, DocumentCore;
    hide ObjectWithMembers, EncodeDocument, DocumentMembers;
    EncodedFromParts(document);
    MergedHasMembers(tree, DocumentMembers(document), DocumentElsewhere(document), document.additional);
    var jsonapi, links, data := Lift(EncodeJSONAPI, document.jsonapi), Lift(EncodeLinks, document.links),
      Lift(EncodePrimaryData, document.data);
    var included, errors := Lift(EncodeResources, document.included), Lift(EncodeErrors, document.errors);
    if jsonapi.Some? && links.Some? && data.Some? && included.Some? && errors.Some? {
      hide PartsAreEncoded;
      DocumentCoreIs(document, jsonapi.value, links.value, data.value, included.value, errors.value);
      MergedIsWritten(
        tree,
        DocumentCore(
          jsonapi.value, links.value, data.value, included.value, errors.value, OptionalObject(document.meta)),
        DocumentMembers(document), DocumentElsewhere(document), document.additional);
      if IsMerged(tree, DocumentMembers(document), DocumentElsewhere(document), document.additional) {
        PartsAreInPlace(
          document, tree, jsonapi.value, links.value, data.value, included.value, errors.value);
      }
    }
  }

  /** A document is written as a tree exactly when the tree has the document's members, and no others. */
  lemma DocumentIsWritten(document: Document, tree: Tree)
    ensures EncodeDocument(document) == Some(tree) <==> IsWrittenDocument(document, tree)
  {
    hide EncodeDocument, PartsAreEncoded, IsMerged, IsWrittenJSONAPI, AreWrittenLinks, IsWrittenData;
    hide AreWrittenResources, AreWrittenErrors;
    MergedHasMembers(tree, DocumentMembers(document), DocumentElsewhere(document), document.additional);
    PartsAreMerged(document, tree);
    if tree.Object? && DocumentElsewhere(document) <= tree.members.Keys {
      PartsAreWritten(document, tree);
    }
  }
}
