/**
  What a JSON tree says, as a relation between trees and documents: member by member under literal
  names, with values looked up along paths. A tree is decoded as a document exactly when it stands in
  this relation to it. Members that the relation does not mention have no influence.
 */
module Reading {
  import opened Documents
  import opened Registries
  import opened JSONPaths
  import opened Decoder

  // Members.

  /** A string member: absent, or present with its value; nothing else, not even null, is accepted. */
  ghost predicate IsText(field: Field, members: Members, name: string) {
    if name in members then members[name] == String(field.value) && field.present
    else field == Field("", false)
  }

  /** A type has no presence bit. */
  ghost predicate IsType(resourceType: string, members: Members) {
    if "type" in members then members["type"] == String(resourceType) else resourceType == ""
  }

  /** An object of unconstrained members, kept without what lies under `@` names. */
  ghost predicate IsObject(value: Option<Members>, members: Members, name: string) {
    if name in members then members[name].Object? && value.Some? && IsPruned(Object(value.value), members[name])
    else value.None?
  }

  ghost predicate AreStrings(values: seq<string>, tree: Tree) {
    && tree.Array? && |values| == |tree.items|
    && forall i :: 0 <= i < |values| ==> tree.items[i] == String(values[i]) || (tree.items[i] == Null && values[i] == "")
  }

  ghost predicate IsStrings(values: Option<seq<string>>, members: Members, name: string) {
    if name in members then values.Some? && AreStrings(values.value, members[name]) else values.None?
  }

  /** The members that are registered for the scope, pruned, and all of them acceptable. */
  ghost predicate AreRegistered(additional: Members, registry: Registry, scope: Scope, members: Members) {
    && (forall name :: name in additional <==>
          name in members && scope in registry.rules && name in registry.rules[scope])
    && forall name :: name in additional ==>
         IsPruned(additional[name], members[name]) && registry.rules[scope][name](additional[name])
  }

  // Objects.

  ghost predicate IsJSONAPI(registry: Registry, jsonapi: JSONAPI, tree: Tree) {
    && tree.Object?
    && IsText(jsonapi.version, tree.members, "version")
    && IsStrings(jsonapi.ext, tree.members, "ext")
    && IsStrings(jsonapi.profile, tree.members, "profile")
    && IsObject(jsonapi.meta, tree.members, "meta")
    && AreRegistered(jsonapi.additional, registry, JSONAPIScope, tree.members)
  }

  /** One tag, or an array of tags. */
  ghost predicate IsHreflang(hreflang: Option<Hreflang>, members: Members) {
    if "hreflang" in members then
      && hreflang.Some?
      && if hreflang.value.many then AreStrings(hreflang.value.values, members["hreflang"])
         else |hreflang.value.values| == 1 && members["hreflang"] == String(hreflang.value.values[0])
    else hreflang.None?
  }

  /** A link is null, a string or an object; a number, a boolean or an array is none. */
  ghost predicate IsLink(registry: Registry, link: Link, tree: Tree)
    decreases link
  {
    match tree
    case Null =>
      var absent := Field("", false);
      link == Link(absent, absent, None, absent, absent, None, None, map[], false, true, None)
    case String(href) =>
      var absent := Field("", false);
      link == Link(Field(href, false), absent, None, absent, absent, None, None, map[], false, false, None)
    case Object(members) =>
      && link.isObject && !link.isNull && link.extension.None?
      && IsText(link.href, members, "href")
      && IsText(link.rel, members, "rel")
      && IsText(link.title, members, "title")
      && IsText(link.targetType, members, "type")
      && IsHreflang(link.hreflang, members)
      && IsObject(link.meta, members, "meta")
      && AreRegistered(link.additional, registry, LinkObjectScope, members)
      && (link.describedBy.Some? <==> "describedby" in members)
      && (link.describedBy.Some? && "describedby" in members ==>
            IsLink(registry, link.describedBy.value, members["describedby"]))
    case _ => false
  }

  /** An entry of a links object: under a registered name a value of the extension, otherwise a link. */
  ghost predicate IsEntry(registry: Registry, name: string, link: Link, tree: Tree) {
    if LinksObjectScope in registry.rules && name in registry.rules[LinksObjectScope] then
      && link.extension.Some? && IsOnlyExtension(link)
      && IsPruned(link.extension.value, tree) && registry.rules[LinksObjectScope][name](link.extension.value)
    else IsLink(registry, link, tree)
  }

  /** A link that is nothing but an extension value. */
  ghost predicate IsOnlyExtension(link: Link) {
    var absent := Field("", false);
    link == Link(absent, absent, None, absent, absent, None, None, map[], false, false, link.extension)
  }

  ghost predicate AreLinks(registry: Registry, links: Links, tree: Tree) {
    && tree.Object?
    && (forall name :: name in links <==> name in tree.members && !(name != "" && name[0] == '@'))
    && forall name :: name in links ==> IsEntry(registry, name, links[name], tree.members[name])
  }

  ghost predicate IsLinksMember(registry: Registry, links: Option<Links>, members: Members) {
    if "links" in members then links.Some? && AreLinks(registry, links.value, members["links"]) else links.None?
  }

  ghost predicate IsIdentifier(registry: Registry, identifier: Identifier, tree: Tree) {
    && tree.Object?
    && IsType(identifier.resourceType, tree.members)
    && IsText(identifier.id, tree.members, "id")
    && IsText(identifier.lid, tree.members, "lid")
    && IsObject(identifier.meta, tree.members, "meta")
    && AreRegistered(identifier.additional, registry, IdentifierScope, tree.members)
  }

  ghost predicate IsLinkage(registry: Registry, data: RelationshipData, tree: Tree) {
    match tree
    case Null => data == NullRelationship
    case Object(_) => data.ToOne? && IsIdentifier(registry, data.one, tree)
    case Array(items) =>
      && data.ToMany? && |data.many| == |items|
      && forall i :: 0 <= i < |items| ==> IsIdentifier(registry, data.many[i], items[i])
    case _ => false
  }

  ghost predicate IsRelationship(registry: Registry, relationship: Relationship, tree: Tree) {
    && tree.Object?
    && IsLinksMember(registry, relationship.links, tree.members)
    && (if "data" in tree.members
        then relationship.data.Some? && IsLinkage(registry, relationship.data.value, tree.members["data"])
        else relationship.data.None?)
    && IsObject(relationship.meta, tree.members, "meta")
    && AreRegistered(relationship.additional, registry, RelationshipScope, tree.members)
  }

  ghost predicate AreRelationships(registry: Registry, relationships: Relationships, tree: Tree) {
    && tree.Object?
    && (forall name :: name in relationships <==> name in tree.members && !(name != "" && name[0] == '@'))
    && forall name :: name in relationships ==> IsRelationship(registry, relationships[name], tree.members[name])
  }

  ghost predicate IsResource(registry: Registry, resource: Resource, tree: Tree) {
    && tree.Object?
    && IsType(resource.resourceType, tree.members)
    && IsText(resource.id, tree.members, "id")
    && IsText(resource.lid, tree.members, "lid")
    && IsObject(resource.attributes, tree.members, "attributes")
    && (if "relationships" in tree.members
        then resource.relationships.Some?
             && AreRelationships(registry, resource.relationships.value, tree.members["relationships"])
        else resource.relationships.None?)
    && IsLinksMember(registry, resource.links, tree.members)
    && IsObject(resource.meta, tree.members, "meta")
    && AreRegistered(resource.additional, registry, ResourceScope, tree.members)
  }

  ghost predicate AreResources(registry: Registry, resources: seq<Resource>, tree: Tree) {
    && tree.Array? && |resources| == |tree.items|
    && forall i :: 0 <= i < |resources| ==> IsResource(registry, resources[i], tree.items[i])
  }

  ghost predicate IsPrimaryData(registry: Registry, data: PrimaryData, tree: Tree) {
    match tree
    case Null => data == NullData
    case Object(_) => data.ResourceData? && IsResource(registry, data.one, tree)
    case Array(_) => data.ResourceCollection? && AreResources(registry, data.many, tree)
    case _ => false
  }

  ghost predicate IsErrorSource(registry: Registry, source: ErrorSource, tree: Tree) {
    && tree.Object?
    && IsText(source.pointer, tree.members, "pointer")
    && IsText(source.parameter, tree.members, "parameter")
    && IsText(source.header, tree.members, "header")
    && AreRegistered(source.additional, registry, ErrorSourceScope, tree.members)
  }

  ghost predicate IsError(registry: Registry, error: ErrorObject, tree: Tree) {
    && tree.Object?
    && IsText(error.id, tree.members, "id")
    && IsLinksMember(registry, error.links, tree.members)
    && IsText(error.status, tree.members, "status")
    && IsText(error.code, tree.members, "code")
    && IsText(error.title, tree.members, "title")
    && IsText(error.detail, tree.members, "detail")
    && (if "source" in tree.members
        then error.source.Some? && IsErrorSource(registry, error.source.value, tree.members["source"])
        else error.source.None?)
    && IsObject(error.meta, tree.members, "meta")
    && AreRegistered(error.additional, registry, ErrorScope, tree.members)
  }

  ghost predicate AreErrors(registry: Registry, errors: seq<ErrorObject>, tree: Tree) {
    && tree.Array? && |errors| == |tree.items|
    && forall i :: 0 <= i < |errors| ==> IsError(registry, errors[i], tree.items[i])
  }

  ghost predicate IsDocument(registry: Registry, document: Document, tree: Tree) {
    && tree.Object?
    && (if "jsonapi" in tree.members
        then document.jsonapi.Some? && IsJSONAPI(registry, document.jsonapi.value, tree.members["jsonapi"])
        else document.jsonapi.None?)
    && IsLinksMember(registry, document.links, tree.members)
    && (if "data" in tree.members
        then document.data.Some? && IsPrimaryData(registry, document.data.value, tree.members["data"])
        else document.data.None?)
    && (if "included" in tree.members
        then document.included.Some? && AreResources(registry, document.included.value, tree.members["included"])
        else document.included.None?)
    && (if "errors" in tree.members
        then document.errors.Some? && AreErrors(registry, document.errors.value, tree.members["errors"])
        else document.errors.None?)
    && IsObject(document.meta, tree.members, "meta")
    && AreRegistered(document.additional, registry, TopLevelScope, tree.members)
  }

  // Decoding is this relation.

  lemma TextIsRead(field: Field, members: Members, name: string)
    ensures DecodeString(Get(members, name)) == Some(field) <==> IsText(field, members, name)
  {
  }

  lemma TypeIsRead(resourceType: string, members: Members)
    ensures DecodeString(Get(members, "type")).Some? && DecodeString(Get(members, "type")).value.value == resourceType
      <==> IsType(resourceType, members)
  {
  }

  lemma ObjectIsRead(value: Option<Members>, members: Members, name: string)
    ensures Lift(DecodeMembers, Get(members, name)) == Some(value) <==> IsObject(value, members, name)
  {
    hide IsPruned, StripMembers;
    if name in members && members[name].Object? && value.Some? {
      PrunedMembersAreStripped(value.value, members[name].members);
    }
  }

  lemma ArrayOfStringsIsRead(values: seq<string>, tree: Tree)
    ensures DecodeStrings(tree) == Some(values) <==> AreStrings(values, tree)
  {
    if AreStrings(values, tree) {
      assert DecodeStrings(tree).value == values;
    }
  }

  lemma StringsAreRead(values: Option<seq<string>>, members: Members, name: string)
    ensures Lift(DecodeStrings, Get(members, name)) == Some(values) <==> IsStrings(values, members, name)
  {
    hide DecodeStrings, AreStrings;
    if name in members && values.Some? {
      ArrayOfStringsIsRead(values.value, members[name]);
    }
  }

  lemma RegisteredAreRead(additional: Members, registry: Registry, scope: Scope, members: Members)
    ensures ExtractMembers(registry, scope, members) == Some(additional)
      <==> AreRegistered(additional, registry, scope, members)
  {
    hide IsPruned, StripAtMembers, ExtractMembers;
    forall name | name in additional && name in members
      ensures IsPruned(additional[name], members[name]) <==> additional[name] == StripAtMembers(members[name])
    {
      PrunedIsStripped(additional[name], members[name]);
    }
    ExtractedMembers(additional, registry, scope, members);
  }

  lemma ExtractedMembers(additional: Members, registry: Registry, scope: Scope, members: Members)
    ensures ExtractMembers(registry, scope, members) == Some(additional) <==>
      && (forall name :: name in additional <==>
            name in members && scope in registry.rules && name in registry.rules[scope])
      && forall name :: name in additional ==>
           additional[name] == StripAtMembers(members[name]) && registry.rules[scope][name](additional[name])
  {
    hide StripAtMembers;
    if ExtractMembers(registry, scope, members).Some? {
      SameMembers(additional, ExtractMembers(registry, scope, members).value);
    } else {
      var name :| name in members && registry.Registered(scope, name)
        && !registry.Accepts(scope, name, StripAtMembers(members[name]));
      assert name in additional && additional[name] == StripAtMembers(members[name]) ==>
        !registry.rules[scope][name](additional[name]);
    }
  }

  lemma SameMembers(first: Members, second: Members)
    ensures first == second <==>
      (forall name :: name in first <==> name in second) && forall name :: name in first ==> first[name] == second[name]
  {
  }

  lemma JSONAPIIsRead(registry: Registry, jsonapi: JSONAPI, tree: Tree)
    ensures DecodeJSONAPI(registry, tree) == Some(jsonapi) <==> IsJSONAPI(registry, jsonapi, tree)
  {
    hide IsText, IsStrings, IsObject, AreRegistered, DecodeString, DecodeStrings, DecodeMembers, ExtractMembers;
    if tree.Object? {
      var members := tree.members;
      TextIsRead(jsonapi.version, members, "version");
      StringsAreRead(jsonapi.ext, members, "ext");
      StringsAreRead(jsonapi.profile, members, "profile");
      ObjectIsRead(jsonapi.meta, members, "meta");
      RegisteredAreRead(jsonapi.additional, registry, JSONAPIScope, members);
    }
  }

  lemma HreflangIsRead(hreflang: Option<Hreflang>, members: Members)
    ensures Lift(DecodeHreflang, Get(members, "hreflang")) == Some(hreflang) <==> IsHreflang(hreflang, members)
  {
    hide DecodeStrings, AreStrings;
    if "hreflang" in members && hreflang.Some? {
      ArrayOfStringsIsRead(hreflang.value.values, members["hreflang"]);
      OnlyArraysAreStrings(members["hreflang"]);
      if !hreflang.value.many && |hreflang.value.values| == 1 {
        assert hreflang.value.values == [hreflang.value.values[0]];
      }
    }
  }

  lemma OnlyArraysAreStrings(tree: Tree)
    ensures DecodeStrings(tree).Some? ==> tree.Array?
    ensures forall values :: AreStrings(values, tree) ==> tree.Array?
  {
  }

  lemma {:induction false} LinkIsRead(registry: Registry, link: Link, tree: Tree)
    ensures DecodeLink(registry, tree) == Some(link) <==> IsLink(registry, link, tree)
    decreases tree
  {
    if tree.Object? {
      if "describedby" in tree.members {
        var decoded := DecodeLink(registry, tree.members["describedby"]);
        forall target ensures decoded == Some(target) <==> IsLink(registry, target, tree.members["describedby"]) {
          LinkIsRead(registry, target, tree.members["describedby"]);
        }
      }
      LinkObjectIsRead(registry, link, tree.members);
    } else {
      ScalarLinkIsRead(registry, link, tree);
    }
  }

  lemma ScalarLinkIsRead(registry: Registry, link: Link, tree: Tree)
    requires !tree.Object?
    ensures DecodeLink(registry, tree) == Some(link) <==> IsLink(registry, link, tree)
  {
  }

  lemma LinkObjectIsRead(registry: Registry, link: Link, members: Members)
    requires "describedby" in members ==> forall target ::
      DecodeLink(registry, members["describedby"]) == Some(target) <==> IsLink(registry, target, members["describedby"])
    ensures DecodeLink(registry, Object(members)) == Some(link) <==> IsLink(registry, link, Object(members))
  {
    hide IsText, IsHreflang, IsObject, AreRegistered, DecodeString, DecodeHreflang, DecodeMembers, ExtractMembers;
    TextIsRead(link.href, members, "href");
    TextIsRead(link.rel, members, "rel");
    TextIsRead(link.title, members, "title");
    TextIsRead(link.targetType, members, "type");
    HreflangIsRead(link.hreflang, members);
    ObjectIsRead(link.meta, members, "meta");
    RegisteredAreRead(link.additional, registry, LinkObjectScope, members);
    LinkLeavesAre(members, link);
  }

  /** What is decoded of a link object before its descriptor and its registered members are filled in. */
  lemma LinkLeavesAre(members: Members, link: Link)
    ensures (DecodeLinkLeaves(members).Some?
             && link == DecodeLinkLeaves(members).value.(describedBy := link.describedBy, additional := link.additional)) <==>
        && link.isObject && !link.isNull && link.extension.None?
        && DecodeString(Get(members, "href")) == Some(link.href)
        && DecodeString(Get(members, "rel")) == Some(link.rel)
        && DecodeString(Get(members, "title")) == Some(link.title)
        && DecodeString(Get(members, "type")) == Some(link.targetType)
        && Lift(DecodeHreflang, Get(members, "hreflang")) == Some(link.hreflang)
        && Lift(DecodeMembers, Get(members, "meta")) == Some(link.meta)
  {
    hide DecodeString, DecodeHreflang, DecodeMembers;
  }

  lemma EntryIsRead(registry: Registry, name: string, link: Link, tree: Tree)
    ensures DecodeLinksMember(registry, name, tree) == Some(link) <==> IsEntry(registry, name, link, tree)
  {
    hide IsLink, DecodeLink, IsPruned, StripAtMembers;
    LinkIsRead(registry, link, tree);
    if link.extension.Some? {
      PrunedIsStripped(link.extension.value, tree);
    }
  }

  lemma LinksAreRead(registry: Registry, links: Links, tree: Tree)
    ensures DecodeLinks(registry, tree) == Some(links) <==> AreLinks(registry, links, tree)
  {
    hide IsEntry, DecodeLinksMember;
    if tree.Object? {
      forall name | name in links && name in tree.members
        ensures DecodeLinksMember(registry, name, tree.members[name]) == Some(links[name]) <==>
          IsEntry(registry, name, links[name], tree.members[name])
      {
        EntryIsRead(registry, name, links[name], tree.members[name]);
      }
      if AreLinks(registry, links, tree) {
        assert forall name | name in tree.members && !IsAtName(name) ::
          name in links && DecodeLinksMember(registry, name, tree.members[name]) == Some(links[name]);
        assert DecodeLinks(registry, tree).value == links;
      }
    }
  }

  lemma LinksMemberIsRead(registry: Registry, links: Option<Links>, members: Members)
    ensures DecodeOptionalLinks(registry, Get(members, "links")) == Some(links)
      <==> IsLinksMember(registry, links, members)
  {
    hide DecodeLinks, AreLinks;
    if "links" in members && links.Some? {
      LinksAreRead(registry, links.value, members["links"]);
    }
  }

  lemma IdentifierIsRead(registry: Registry, identifier: Identifier, tree: Tree)
    ensures DecodeIdentifier(registry, tree) == Some(identifier) <==> IsIdentifier(registry, identifier, tree)
  {
    hide IsType, IsText, IsObject, AreRegistered, DecodeString, DecodeMembers, ExtractMembers;
    if tree.Object? {
      var members := tree.members;
      TypeIsRead(identifier.resourceType, members);
      TextIsRead(identifier.id, members, "id");
      TextIsRead(identifier.lid, members, "lid");
      ObjectIsRead(identifier.meta, members, "meta");
      RegisteredAreRead(identifier.additional, registry, IdentifierScope, members);
    }
  }

  lemma LinkageIsRead(registry: Registry, data: RelationshipData, tree: Tree)
    ensures DecodeRelationshipData(registry, tree) == Some(data) <==> IsLinkage(registry, data, tree)
  {
    hide IsIdentifier, DecodeIdentifier;
    if tree.Object? && data.ToOne? {
      IdentifierIsRead(registry, data.one, tree);
    }
    if tree.Array? && data.ToMany? && |data.many| == |tree.items| {
      forall i | 0 <= i < |tree.items|
        ensures DecodeIdentifier(registry, tree.items[i]) == Some(data.many[i])
          <==> IsIdentifier(registry, data.many[i], tree.items[i])
      {
        IdentifierIsRead(registry, data.many[i], tree.items[i]);
      }
      if IsLinkage(registry, data, tree) {
        assert DecodeRelationshipData(registry, tree).value.many == data.many;
      }
    }
  }

  lemma RelationshipIsRead(registry: Registry, relationship: Relationship, tree: Tree)
    ensures DecodeRelationship(registry, tree) == Some(relationship) <==> IsRelationship(registry, relationship, tree)
  {
    hide IsLinksMember, IsLinkage, IsObject, AreRegistered, DecodeLinks, DecodeRelationshipData, DecodeMembers;
    hide ExtractMembers, DecodeOptionalLinks;
    if tree.Object? {
      var members := tree.members;
      LinksMemberIsRead(registry, relationship.links, members);
      if "data" in members && relationship.data.Some? {
        LinkageIsRead(registry, relationship.data.value, members["data"]);
      }
      ObjectIsRead(relationship.meta, members, "meta");
      RegisteredAreRead(relationship.additional, registry, RelationshipScope, members);
    }
  }

  lemma RelationshipsAreRead(registry: Registry, relationships: Relationships, tree: Tree)
    ensures DecodeRelationships(registry, tree) == Some(relationships)
      <==> AreRelationships(registry, relationships, tree)
  {
    hide IsRelationship, DecodeRelationship;
    if tree.Object? {
      forall name | name in relationships && name in tree.members
        ensures DecodeRelationship(registry, tree.members[name]) == Some(relationships[name]) <==>
          IsRelationship(registry, relationships[name], tree.members[name])
      {
        RelationshipIsRead(registry, relationships[name], tree.members[name]);
      }
      if AreRelationships(registry, relationships, tree) {
        assert forall name | name in tree.members && !IsAtName(name) ::
          name in relationships && DecodeRelationship(registry, tree.members[name]) == Some(relationships[name]);
        assert DecodeRelationships(registry, tree).value == relationships;
      }
    }
  }

  lemma ResourceIsRead(registry: Registry, resource: Resource, tree: Tree)
    ensures DecodeResource(registry, tree) == Some(resource) <==> IsResource(registry, resource, tree)
  {
    hide IsType, IsText, IsObject, IsLinksMember, AreRelationships, AreRegistered, DecodeString, DecodeMembers;
    hide DecodeRelationships, DecodeOptionalLinks, ExtractMembers;
    if tree.Object? {
      var members := tree.members;
      TypeIsRead(resource.resourceType, members);
      TextIsRead(resource.id, members, "id");
      TextIsRead(resource.lid, members, "lid");
      ObjectIsRead(resource.attributes, members, "attributes");
      ObjectIsRead(resource.meta, members, "meta");
      if "relationships" in members && resource.relationships.Some? {
        RelationshipsAreRead(registry, resource.relationships.value, members["relationships"]);
      }
      LinksMemberIsRead(registry, resource.links, members);
      RegisteredAreRead(resource.additional, registry, ResourceScope, members);
    }
  }

  lemma ResourcesAreRead(registry: Registry, resources: seq<Resource>, tree: Tree)
    ensures DecodeResources(registry, tree) == Some(resources) <==> AreResources(registry, resources, tree)
  {
    hide IsResource, DecodeResource;
    if tree.Array? && |resources| == |tree.items| {
      forall i | 0 <= i < |resources|
        ensures DecodeResource(registry, tree.items[i]) == Some(resources[i])
          <==> IsResource(registry, resources[i], tree.items[i])
      {
        ResourceIsRead(registry, resources[i], tree.items[i]);
      }
      if AreResources(registry, resources, tree) {
        assert DecodeResources(registry, tree).value == resources;
      }
    }
  }

  lemma PrimaryDataIsRead(registry: Registry, data: PrimaryData, tree: Tree)
    ensures DecodePrimaryData(registry, tree) == Some(data) <==> IsPrimaryData(registry, data, tree)
  {
    hide IsResource, AreResources, DecodeResource, DecodeResources;
    if data.ResourceData? {
      ResourceIsRead(registry, data.one, tree);
    }
    if data.ResourceCollection? {
      ResourcesAreRead(registry, data.many, tree);
    }
  }

  lemma ErrorSourceIsRead(registry: Registry, source: ErrorSource, tree: Tree)
    ensures DecodeErrorSource(registry, tree) == Some(source) <==> IsErrorSource(registry, source, tree)
  {
    hide IsText, AreRegistered, DecodeString, ExtractMembers;
    if tree.Object? {
      TextIsRead(source.pointer, tree.members, "pointer");
      TextIsRead(source.parameter, tree.members, "parameter");
      TextIsRead(source.header, tree.members, "header");
      RegisteredAreRead(source.additional, registry, ErrorSourceScope, tree.members);
    }
  }

  lemma ErrorIsRead(registry: Registry, error: ErrorObject, tree: Tree)
    ensures DecodeError(registry, tree) == Some(error) <==> IsError(registry, error, tree)
  {
    hide IsText, IsObject, IsLinksMember, IsErrorSource, AreRegistered, DecodeString, DecodeMembers, DecodeErrorSource;
    hide DecodeOptionalLinks, ExtractMembers;
    if tree.Object? {
      var members := tree.members;
      TextIsRead(error.id, members, "id");
      TextIsRead(error.status, members, "status");
      TextIsRead(error.code, members, "code");
      TextIsRead(error.title, members, "title");
      TextIsRead(error.detail, members, "detail");
      LinksMemberIsRead(registry, error.links, members);
      if "source" in members && error.source.Some? {
        ErrorSourceIsRead(registry, error.source.value, members["source"]);
      }
      ObjectIsRead(error.meta, members, "meta");
      RegisteredAreRead(error.additional, registry, ErrorScope, members);
    }
  }

  lemma ErrorsAreRead(registry: Registry, errors: seq<ErrorObject>, tree: Tree)
    ensures DecodeErrors(registry, tree) == Some(errors) <==> AreErrors(registry, errors, tree)
  {
    hide IsError, DecodeError;
    if tree.Array? && |errors| == |tree.items| {
      forall i | 0 <= i < |errors|
        ensures DecodeError(registry, tree.items[i]) == Some(errors[i]) <==> IsError(registry, errors[i], tree.items[i])
      {
        ErrorIsRead(registry, errors[i], tree.items[i]);
      }
      if AreErrors(registry, errors, tree) {
        assert DecodeErrors(registry, tree).value == errors;
      }
    }
  }

  /**
    Decoding, of every tree: it succeeds exactly when the tree says some document, and then it gives
    that document, with every registered member in its scope and every other value pruned.
   */
  lemma DocumentIsRead(registry: Registry, document: Document, tree: Tree)
    ensures DecodeDocument(registry, tree) == Some(document) <==> IsDocument(registry, document, tree)
  {
    hide IsJSONAPI, IsLinksMember, IsPrimaryData, AreResources, AreErrors, IsObject, AreRegistered, DecodeJSONAPI;
    hide DecodeOptionalLinks, DecodePrimaryData, DecodeResources, DecodeErrors, DecodeMembers, ExtractMembers;
    if tree.Object? {
      var members := tree.members;
      if "jsonapi" in members && document.jsonapi.Some? {
        JSONAPIIsRead(registry, document.jsonapi.value, members["jsonapi"]);
      }
      LinksMemberIsRead(registry, document.links, members);
      if "data" in members && document.data.Some? {
        PrimaryDataIsRead(registry, document.data.value, members["data"]);
      }
      if "included" in members && document.included.Some? {
        ResourcesAreRead(registry, document.included.value, members["included"]);
      }
      if "errors" in members && document.errors.Some? {
        ErrorsAreRead(registry, document.errors.value, members["errors"]);
      }
      ObjectIsRead(document.meta, members, "meta");
      RegisteredAreRead(document.additional, registry, TopLevelScope, members);
    }
  }

  /** A top-level member that is neither defined by the format nor registered has no influence. */
  lemma UnknownMemberIsIgnored(registry: Registry, members: Members, name: string, value: Tree)
    requires name !in {"jsonapi", "links", "data", "included", "errors", "meta"}
    requires !(TopLevelScope in registry.rules && name in registry.rules[TopLevelScope])
    ensures DecodeDocument(registry, Object(members[name := value])) == DecodeDocument(registry, Object(members))
  {
    hide DecodeDocument, IsJSONAPI, IsPrimaryData, AreResources, AreErrors, AreLinks, IsPruned;
    var before, after := DecodeDocument(registry, Object(members)), DecodeDocument(registry, Object(members[name := value]));
    if before.Some? {
      DocumentIsRead(registry, before.value, Object(members));
      DocumentIsRead(registry, before.value, Object(members[name := value]));
    }
    if after.Some? {
      DocumentIsRead(registry, after.value, Object(members));
      DocumentIsRead(registry, after.value, Object(members[name := value]));
    }
  }

  /** A link that is a number, a boolean or an array makes its links object unreadable. */
  lemma OtherLinksAreRefused(registry: Registry, members: Members, name: string)
    requires name in members && !(name != "" && name[0] == '@')
    requires !(LinksObjectScope in registry.rules && name in registry.rules[LinksObjectScope])
    requires members[name].Number? || members[name].Bool? || members[name].Array?
    ensures DecodeLinks(registry, Object(members)).None?
  {
    hide DecodeLinks;
    if DecodeLinks(registry, Object(members)).Some? {
      LinksAreRead(registry, DecodeLinks(registry, Object(members)).value, Object(members));
    }
  }
}
