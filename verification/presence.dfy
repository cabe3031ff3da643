/**
  Presence: what a decoded document says about the object it was read from. At every level each
  member is found under its own name, and absent, null, an empty string, an empty array and an empty
  object stay apart wherever the format distinguishes them.
 */
module Presence {
  import opened Documents
  import opened Registries
  import opened Decoder
  import opened Reading

  /** An object, present, in which nothing has a meaning. */
  ghost predicate IsEmptyObject(members: Members, name: string) {
    name in members && members[name].Object? && forall other :: other in members[name].members ==> IsAtName(other)
  }

  ghost predicate IsLinks(links: Option<Links>, members: Members) {
    (links.None? <==> "links" !in members) && (links == Some(map[]) <==> IsEmptyObject(members, "links"))
  }

  lemma LinksPresence(registry: Registry, members: Members, links: Option<Links>)
    requires DecodeOptionalLinks(registry, Get(members, "links")) == Some(links)
    ensures IsLinks(links, members)
  {
    if "links" in members && members["links"].Object? {
      NamedPresence(registry, members["links"].members);
      EmptyMaps(members["links"].members, links.value);
    }
  }

  lemma EmptyMaps<V>(members: Members, decoded: map<string, V>)
    requires forall name :: name in decoded <==> name in members && !IsAtName(name)
    ensures decoded == map[] <==> forall name :: name in members ==> IsAtName(name)
  {
    if forall name :: name in members ==> IsAtName(name) {
      assert decoded.Keys == {};
    }
    if decoded == map[] {
      forall name | name in members ensures IsAtName(name) {
        assert name !in decoded;
      }
    }
  }

  /** Only an empty array is read as an empty sequence. */
  lemma EmptyArrays(registry: Registry, value: Tree)
    ensures DecodeResources(registry, value) == Some([]) <==> value == Array([])
    ensures DecodeErrors(registry, value) == Some([]) <==> value == Array([])
    ensures DecodeRelationshipData(registry, value) == Some(ToMany([])) <==> value == Array([])
    ensures DecodePrimaryData(registry, value) == Some(ResourceCollection([])) <==> value == Array([])
  {
    hide DecodeResource, DecodeError, DecodeIdentifier;
    var resources, errors := DecodeResources(registry, value), DecodeErrors(registry, value);
    assert value.Array? && resources.Some? ==> |resources.value| == |value.items|;
    assert value.Array? && errors.Some? ==> |errors.value| == |value.items|;
    if value == Array([]) {
      assert resources.value == [] && errors.value == [];
      assert DecodeRelationshipData(registry, value).value.many == [];
    }
  }

  lemma DocumentPresence(registry: Registry, members: Members)
    requires DecodeDocument(registry, Object(members)).Some?
    ensures var document := DecodeDocument(registry, Object(members)).value;
      && (document.jsonapi.None? <==> "jsonapi" !in members)
      && IsLinks(document.links, members)
      && (document.data.None? <==> "data" !in members)
      && (document.data == Some(NullData) <==> Get(members, "data") == Some(Null))
      && (document.data == Some(ResourceCollection([])) <==> Get(members, "data") == Some(Array([])))
      && (document.included.None? <==> "included" !in members)
      && (document.included == Some([]) <==> Get(members, "included") == Some(Array([])))
      && (document.errors.None? <==> "errors" !in members)
      && (document.errors == Some([]) <==> Get(members, "errors") == Some(Array([])))
      && IsObject(document.meta, members, "meta")
  {
    hide DecodeDocument, DecodeLinks, DecodePrimaryData, DecodeResources, DecodeErrors, IsObject, AreRegistered;
    hide IsLinksMember, IsLinks, IsJSONAPI, IsResource, IsError;
    var document := DecodeDocument(registry, Object(members)).value;
    DocumentIsRead(registry, document, Object(members));
    LinksMemberIsRead(registry, document.links, members);
    LinksPresence(registry, members, document.links);
  }

  lemma JSONAPIPresence(registry: Registry, members: Members)
    requires DecodeJSONAPI(registry, Object(members)).Some?
    ensures var jsonapi := DecodeJSONAPI(registry, Object(members)).value;
      && IsText(jsonapi.version, members, "version")
      && IsStrings(jsonapi.ext, members, "ext")
      && IsStrings(jsonapi.profile, members, "profile")
      && IsObject(jsonapi.meta, members, "meta")
  {
    hide DecodeJSONAPI, IsText, IsStrings, IsObject, AreRegistered;
    JSONAPIIsRead(registry, DecodeJSONAPI(registry, Object(members)).value, Object(members));
  }

  lemma ResourcePresence(registry: Registry, members: Members)
    requires DecodeResource(registry, Object(members)).Some?
    ensures var resource := DecodeResource(registry, Object(members)).value;
      && IsText(Field(resource.resourceType, "type" in members), members, "type")
      && IsText(resource.id, members, "id")
      && IsText(resource.lid, members, "lid")
      && IsObject(resource.attributes, members, "attributes")
      && (resource.relationships.None? <==> "relationships" !in members)
      && (resource.relationships == Some(map[]) <==> IsEmptyObject(members, "relationships"))
      && IsLinks(resource.links, members)
      && IsObject(resource.meta, members, "meta")
  {
    hide DecodeResource, DecodeLinks, DecodeRelationships, IsObject, AreRegistered, IsLinksMember, AreRelationships;
    hide IsLinks, IsEmptyObject;
    var resource := DecodeResource(registry, Object(members)).value;
    ResourceIsRead(registry, resource, Object(members));
    LinksMemberIsRead(registry, resource.links, members);
    LinksPresence(registry, members, resource.links);
    if "relationships" in members {
      RelationshipsAreRead(registry, resource.relationships.value, members["relationships"]);
    }
    RelationshipsPresence(registry, members, resource.relationships);
  }

  lemma RelationshipsPresence(registry: Registry, members: Members, relationships: Option<Relationships>)
    requires DecodeOptionalRelationships(registry, Get(members, "relationships")) == Some(relationships)
    ensures relationships == Some(map[]) <==> IsEmptyObject(members, "relationships")
  {
    if "relationships" in members && members["relationships"].Object? {
      NamedPresence(registry, members["relationships"].members);
      EmptyMaps(members["relationships"].members, relationships.value);
    }
  }

  lemma RelationshipPresence(registry: Registry, members: Members)
    requires DecodeRelationship(registry, Object(members)).Some?
    ensures var relationship := DecodeRelationship(registry, Object(members)).value;
      && IsLinks(relationship.links, members)
      && (relationship.data.None? <==> "data" !in members)
      && (relationship.data == Some(NullRelationship) <==> Get(members, "data") == Some(Null))
      && (relationship.data == Some(ToMany([])) <==> Get(members, "data") == Some(Array([])))
      && IsObject(relationship.meta, members, "meta")
  {
    hide DecodeRelationship, DecodeIdentifier, DecodeLinks, IsObject, AreRegistered, IsLinksMember, IsLinks, IsIdentifier;
    var relationship := DecodeRelationship(registry, Object(members)).value;
    RelationshipIsRead(registry, relationship, Object(members));
    LinksMemberIsRead(registry, relationship.links, members);
    LinksPresence(registry, members, relationship.links);
    if "data" in members {
      EmptyArrays(registry, members["data"]);
    }
  }

  lemma IdentifierPresence(registry: Registry, members: Members)
    requires DecodeIdentifier(registry, Object(members)).Some?
    ensures var identifier := DecodeIdentifier(registry, Object(members)).value;
      && IsText(Field(identifier.resourceType, "type" in members), members, "type")
      && IsText(identifier.id, members, "id")
      && IsText(identifier.lid, members, "lid")
      && IsObject(identifier.meta, members, "meta")
  {
    hide DecodeIdentifier, IsObject, AreRegistered;
    IdentifierIsRead(registry, DecodeIdentifier(registry, Object(members)).value, Object(members));
  }

  /** The same at every `describedby` level; the scalar and array forms of hreflang differ. */
  lemma LinkPresence(registry: Registry, members: Members)
    requires DecodeLink(registry, Object(members)).Some?
    ensures var link := DecodeLink(registry, Object(members)).value;
      && link.isObject && !link.isNull
      && IsText(link.href, members, "href")
      && IsText(link.rel, members, "rel")
      && IsText(link.title, members, "title")
      && IsText(link.targetType, members, "type")
      && (link.describedBy.None? <==> "describedby" !in members)
      && (link.describedBy.Some? ==> DecodeLink(registry, members["describedby"]) == link.describedBy)
      && (link.hreflang.None? <==> "hreflang" !in members)
      && (link.hreflang.Some? ==> (link.hreflang.value.many <==> members["hreflang"].Array?))
      && (link.hreflang.Some? ==>
            if link.hreflang.value.many then AreStrings(link.hreflang.value.values, members["hreflang"])
            else |link.hreflang.value.values| == 1 && members["hreflang"] == String(link.hreflang.value.values[0]))
      && IsObject(link.meta, members, "meta")
  {
    hide DecodeLink, IsText, IsObject, AreRegistered, IsLink;
    var link := DecodeLink(registry, Object(members)).value;
    LinkIsRead(registry, link, Object(members));
    LinkObjectSays(registry, link, members);
    if "describedby" in members {
      LinkIsRead(registry, link.describedBy.value, members["describedby"]);
    }
  }

  lemma ErrorPresence(registry: Registry, members: Members)
    requires DecodeError(registry, Object(members)).Some?
    ensures var error := DecodeError(registry, Object(members)).value;
      && IsText(error.id, members, "id")
      && IsText(error.status, members, "status")
      && IsText(error.code, members, "code")
      && IsText(error.title, members, "title")
      && IsText(error.detail, members, "detail")
      && IsLinks(error.links, members)
      && (error.source.None? <==> "source" !in members)
      && IsObject(error.meta, members, "meta")
  {
    hide DecodeError, DecodeLinks, IsText, IsObject, AreRegistered, IsLinksMember, IsErrorSource, IsLinks;
    var error := DecodeError(registry, Object(members)).value;
    ErrorIsRead(registry, error, Object(members));
    LinksMemberIsRead(registry, error.links, members);
    LinksPresence(registry, members, error.links);
  }

  lemma ErrorSourcePresence(registry: Registry, members: Members)
    requires DecodeErrorSource(registry, Object(members)).Some?
    ensures var source := DecodeErrorSource(registry, Object(members)).value;
      && IsText(source.pointer, members, "pointer")
      && IsText(source.parameter, members, "parameter")
      && IsText(source.header, members, "header")
  {
    hide DecodeErrorSource, IsText, AreRegistered;
    ErrorSourceIsRead(registry, DecodeErrorSource(registry, Object(members)).value, Object(members));
  }

  lemma LinkObjectSays(registry: Registry, link: Link, members: Members)
    requires IsLink(registry, link, Object(members))
    ensures link.isObject && !link.isNull
    ensures IsText(link.href, members, "href") && IsText(link.rel, members, "rel")
    ensures IsText(link.title, members, "title") && IsText(link.targetType, members, "type")
    ensures IsHreflang(link.hreflang, members) && IsObject(link.meta, members, "meta")
    ensures link.describedBy.Some? <==> "describedby" in members
    ensures link.describedBy.Some? ==> IsLink(registry, link.describedBy.value, members["describedby"])
  {
  }

  /** Each decoded entry of a links object or relationships object is the one under its own name. */
  lemma NamedPresence(registry: Registry, members: Members)
    ensures DecodeLinks(registry, Object(members)).Some? ==>
      var links := DecodeLinks(registry, Object(members)).value;
      && (forall name :: name in links <==> name in members && !IsAtName(name))
      && forall name :: name in links ==> Some(links[name]) == DecodeLinksMember(registry, name, members[name])
    ensures DecodeRelationships(registry, Object(members)).Some? ==>
      var relationships := DecodeRelationships(registry, Object(members)).value;
      && (forall name :: name in relationships <==> name in members && !IsAtName(name))
      && forall name :: name in relationships ==>
           Some(relationships[name]) == DecodeRelationship(registry, members[name])
  {
    hide DecodeLinksMember, DecodeRelationship;
  }
}
