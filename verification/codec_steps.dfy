/**
  The core decoders step by step, as `codec.go` runs them: maps visited in arbitrary order,
  structs filled field by field, an early return on the first refusal. Each is proved to compute
  the decoder of the module `Decoder` with nothing registered, whatever the visiting order.
 */
module CodecSteps {
  import opened Documents
  import opened Registries
  import opened Decoder
  import opened RoundTrip
  import opened TwoPass

  /** `stripAtMembers` edits the decoded map or slice it is given. */
  method Strip(value: Tree) returns (stripped: Tree)
    ensures stripped == StripAtMembers(value)
    decreases value
  {
    match value
    case Object(members) =>
      var typed := members;
      var pending := members.Keys;
      while pending != {}
        invariant pending <= members.Keys
        invariant typed.Keys == set name | name in members && (name in pending || !IsAtName(name))
        invariant forall name :: name in typed ==>
          typed[name] == if name in pending then members[name] else StripAtMembers(members[name])
        decreases pending
      {
        var name :| name in pending;
        pending := pending - {name};
        if IsAtName(name) {
          typed := typed - {name};
        } else {
          var child := Strip(members[name]);
          typed := typed[name := child];
        }
      }
      assert typed == StripAtMembers(value).members;
      return Object(typed);
    case Array(items) =>
      var typed := items;
      for index := 0 to |items|
        invariant |typed| == |items|
        invariant forall i :: 0 <= i < |items| ==> typed[i] == if i < index then StripAtMembers(items[i]) else items[i]
      {
        var child := Strip(items[index]);
        typed := typed[index := child];
      }
      assert typed == StripAtMembers(value).items;
      return Array(typed);
    case _ =>
      return value;
  }

  /** `discardUnknown` deletes every member a decoder does not recognize. */
  method DiscardUnknown(members: Members, allowed: set<string>) returns (known: Members)
    ensures known == map name | name in members && name in allowed :: members[name]
    ensures forall name :: name in allowed ==> Get(known, name) == Get(members, name)
  {
    known := members;
    var pending := members.Keys;
    while pending != {}
      invariant pending <= members.Keys
      invariant known == map name | name in members && (name in pending || name in allowed) :: members[name]
      decreases pending
    {
      var name :| name in pending;
      pending := pending - {name};
      if name !in allowed {
        known := known - {name};
      }
    }
  }

  /** `decodeAttributes` and `decodeMeta`. */
  method DecodeMemberMap(value: Tree) returns (decoded: Option<Members>)
    ensures decoded == DecodeMembers(value)
  {
    if !value.Object? {
      return None;
    }
    var members: Members := map[];
    var pending := value.members.Keys;
    while pending != {}
      invariant pending <= value.members.Keys
      invariant members == map name | name in value.members && name !in pending && !IsAtName(name) ::
        StripAtMembers(value.members[name])
      decreases pending
    {
      var name :| name in pending;
      pending := pending - {name};
      if !IsAtName(name) {
        var child := Strip(value.members[name]);
        members := members[name := child];
      }
    }
    assert members == StripMembers(value.members);
    return Some(members);
  }

  method DecodeOptionalMemberMap(value: Option<Tree>) returns (decoded: Option<Option<Members>>)
    ensures decoded == Lift(DecodeMembers, value)
  {
    if value.None? {
      return Some(None);
    }
    var members := DecodeMemberMap(value.value);
    return if members.Some? then Some(members) else None;
  }

  /** The loop over `type`, `id` and `lid` that resources and identifiers share. */
  method DecodeIdentity(members: Members) returns (decoded: Option<(string, Field, Field)>)
    ensures decoded.Some? <==>
      && DecodeString(Get(members, "type")).Some?
      && DecodeString(Get(members, "id")).Some?
      && DecodeString(Get(members, "lid")).Some?
    ensures decoded.Some? ==> decoded.value == (
      DecodeString(Get(members, "type")).value.value,
      DecodeString(Get(members, "id")).value,
      DecodeString(Get(members, "lid")).value)
  {
    var resourceType, id, lid := "", ABSENT_FIELD, ABSENT_FIELD;
    var pending := {"type", "id", "lid"};
    while pending != {}
      invariant pending <= {"type", "id", "lid"}
      invariant "type" in pending ==> resourceType == ""
      invariant "type" !in pending ==>
        DecodeString(Get(members, "type")) == Some(Field(resourceType, "type" in members))
      invariant "id" in pending ==> id == ABSENT_FIELD
      invariant "id" !in pending ==> DecodeString(Get(members, "id")) == Some(id)
      invariant "lid" in pending ==> lid == ABSENT_FIELD
      invariant "lid" !in pending ==> DecodeString(Get(members, "lid")) == Some(lid)
      decreases pending
    {
      var name :| name in pending;
      pending := pending - {name};
      if name in members {
        if !members[name].String? {
          return None;
        }
        if name == "type" {
          resourceType := members[name].s;
        } else if name == "id" {
          id := Field(members[name].s, true);
        } else {
          lid := Field(members[name].s, true);
        }
      }
    }
    return Some((resourceType, id, lid));
  }

  method DecodeOneIdentifier(value: Tree) returns (decoded: Option<Identifier>)
    ensures decoded == DecodeIdentifier(NO_EXTENSIONS, value)
  {
    if !value.Object? {
      return None;
    }
    NothingRegistered(IdentifierScope, value.members);
    var members := DiscardUnknown(value.members, {"type", "id", "lid", "meta"});
    var identity := DecodeIdentity(members);
    if identity.None? {
      return None;
    }
    var identifier := Identifier(identity.value.0, identity.value.1, identity.value.2, None, map[]);
    if "meta" in members {
      var meta := DecodeMemberMap(members["meta"]);
      if meta.None? {
        return None;
      }
      identifier := identifier.(meta := meta);
    }
    assert Lift(DecodeMembers, Get(value.members, "meta")) == Some(identifier.meta);
    return Some(identifier);
  }

  method DecodeLinkage(value: Tree) returns (decoded: Option<RelationshipData>)
    ensures decoded == DecodeRelationshipData(NO_EXTENSIONS, value)
  {
    match value
    case Null =>
      return Some(NullRelationship);
    case Object(_) =>
      var one := DecodeOneIdentifier(value);
      return if one.Some? then Some(ToOne(one.value)) else None;
    case Array(items) =>
      var identifiers: seq<Identifier> := [];
      for index := 0 to |items|
        invariant |identifiers| == index
        invariant forall i :: 0 <= i < index ==> DecodeIdentifier(NO_EXTENSIONS, items[i]) == Some(identifiers[i])
      {
        var identifier := DecodeOneIdentifier(items[index]);
        if identifier.None? {
          return None;
        }
        identifiers := identifiers + [identifier.value];
      }
      assert DecodeRelationshipData(NO_EXTENSIONS, value).value.many == identifiers;
      return Some(ToMany(identifiers));
    case _ =>
      return None;
  }

  /** The leaves of a link object; `rel`, `title` and `type` are visited in arbitrary order. */
  method DecodeLeavesOfLink(members: Members) returns (decoded: Option<Link>)
    ensures decoded == DecodeLinkLeaves(members)
  {
    var link := Link(ABSENT_FIELD, ABSENT_FIELD, None, ABSENT_FIELD, ABSENT_FIELD, None, None, map[], true, false, None);
    if "href" in members {
      if !members["href"].String? {
        return None;
      }
      link := link.(href := Field(members["href"].s, true));
    }
    assert DecodeString(Get(members, "href")) == Some(link.href);
    var pending := {"rel", "title", "type"};
    while pending != {}
      invariant pending <= {"rel", "title", "type"}
      invariant link == Link(link.href, link.rel, None, link.title, link.targetType, None, None, map[], true, false, None)
      invariant DecodeString(Get(members, "href")) == Some(link.href)
      invariant if "rel" in pending then link.rel == ABSENT_FIELD else DecodeString(Get(members, "rel")) == Some(link.rel)
      invariant if "title" in pending then link.title == ABSENT_FIELD
                else DecodeString(Get(members, "title")) == Some(link.title)
      invariant if "type" in pending then link.targetType == ABSENT_FIELD
                else DecodeString(Get(members, "type")) == Some(link.targetType)
      decreases pending
    {
      var name :| name in pending;
      pending := pending - {name};
      if name in members {
        if !members[name].String? {
          return None;
        }
        var field := Field(members[name].s, true);
        if name == "rel" {
          link := link.(rel := field);
        } else if name == "title" {
          link := link.(title := field);
        } else {
          link := link.(targetType := field);
        }
      }
    }
    var hreflang := Lift(DecodeHreflang, Get(members, "hreflang"));
    if hreflang.None? {
      return None;
    }
    var meta := DecodeOptionalMemberMap(Get(members, "meta"));
    if meta.None? {
      return None;
    }
    return Some(link.(hreflang := hreflang.value, meta := meta.value));
  }

  method DecodeOneLink(value: Tree) returns (decoded: Option<Link>)
    ensures decoded == DecodeLink(NO_EXTENSIONS, value)
    decreases value
  {
    match value
    case Null =>
      return Some(NullLink());
    case String(href) =>
      return Some(URI(href));
    case Object(all) =>
      NothingRegistered(LinkObjectScope, all);
      var members := DiscardUnknown(all, {"href", "rel", "describedby", "title", "type", "hreflang", "meta"});
      LinkLeavesAgree(all, members);
      var link := DecodeLeavesOfLink(members);
      if link.None? {
        return None;
      }
      assert Get(members, "describedby") == Get(all, "describedby");
      if "describedby" in members {
        var target := DecodeOneLink(members["describedby"]);
        if target.None? {
          return None;
        }
        return Some(link.value.(describedBy := target));
      }
      return link;
    case _ =>
      return None;
  }

  method DecodeLinkMap(value: Tree) returns (decoded: Option<Links>)
    ensures decoded == DecodeLinks(NO_EXTENSIONS, value)
  {
    if !value.Object? {
      return None;
    }
    var links: Links := map[];
    var pending := value.members.Keys;
    while pending != {}
      invariant pending <= value.members.Keys
      invariant links.Keys == set name | name in value.members && name !in pending && !IsAtName(name)
      invariant forall name :: name in links ==>
        DecodeLinksMember(NO_EXTENSIONS, name, value.members[name]) == Some(links[name])
      decreases pending
    {
      var name :| name in pending;
      pending := pending - {name};
      if !IsAtName(name) {
        var link := DecodeOneLink(value.members[name]);
        if link.None? {
          return None;
        }
        links := links[name := link.value];
      }
    }
    assert links == DecodeLinks(NO_EXTENSIONS, value).value;
    return Some(links);
  }

  method DecodeOptionalLinkMap(value: Option<Tree>) returns (decoded: Option<Option<Links>>)
    ensures decoded == DecodeOptionalLinks(NO_EXTENSIONS, value)
  {
    if value.None? {
      return Some(None);
    }
    var links := DecodeLinkMap(value.value);
    return if links.Some? then Some(links) else None;
  }

  method DecodeOneRelationship(value: Tree) returns (decoded: Option<Relationship>)
    ensures decoded == DecodeRelationship(NO_EXTENSIONS, value)
  {
    if !value.Object? {
      return None;
    }
    NothingRegistered(RelationshipScope, value.members);
    var members := DiscardUnknown(value.members, {"links", "data", "meta"});
    var relationship := Relationship(None, None, None, map[]);
    var links := DecodeOptionalLinkMap(Get(members, "links"));
    if links.None? {
      return None;
    }
    relationship := relationship.(links := links.value);
    if "data" in members {
      var data := DecodeLinkage(members["data"]);
      if data.None? {
        return None;
      }
      relationship := relationship.(data := data);
    }
    assert DecodeOptionalRelationshipData(NO_EXTENSIONS, Get(value.members, "data")) == Some(relationship.data);
    var meta := DecodeOptionalMemberMap(Get(members, "meta"));
    if meta.None? {
      return None;
    }
    return Some(relationship.(meta := meta.value));
  }

  method DecodeRelationshipMap(value: Tree) returns (decoded: Option<Relationships>)
    ensures decoded == DecodeRelationships(NO_EXTENSIONS, value)
  {
    if !value.Object? {
      return None;
    }
    var relationships: Relationships := map[];
    var pending := value.members.Keys;
    while pending != {}
      invariant pending <= value.members.Keys
      invariant relationships.Keys == set name | name in value.members && name !in pending && !IsAtName(name)
      invariant forall name :: name in relationships ==>
        DecodeRelationship(NO_EXTENSIONS, value.members[name]) == Some(relationships[name])
      decreases pending
    {
      var name :| name in pending;
      pending := pending - {name};
      if !IsAtName(name) {
        var relationship := DecodeOneRelationship(value.members[name]);
        if relationship.None? {
          return None;
        }
        relationships := relationships[name := relationship.value];
      }
    }
    assert relationships == DecodeRelationships(NO_EXTENSIONS, value).value;
    return Some(relationships);
  }

  method DecodeOneResource(value: Tree) returns (decoded: Option<Resource>)
    ensures decoded == DecodeResource(NO_EXTENSIONS, value)
  {
    if !value.Object? {
      return None;
    }
    NothingRegistered(ResourceScope, value.members);
    var members := DiscardUnknown(value.members,
      {"type", "id", "lid", "attributes", "relationships", "links", "meta"});
    ResourceLeavesAgree(value.members, members);
    var identity := DecodeIdentity(members);
    if identity.None? {
      return None;
    }
    var attributes := DecodeOptionalMemberMap(Get(members, "attributes"));
    if attributes.None? {
      return None;
    }
    var relationships: Option<Relationships> := None;
    if "relationships" in members {
      relationships := DecodeRelationshipMap(members["relationships"]);
      if relationships.None? {
        return None;
      }
    }
    assert DecodeOptionalRelationships(NO_EXTENSIONS, Get(value.members, "relationships")) == Some(relationships);
    var links := DecodeOptionalLinkMap(Get(members, "links"));
    if links.None? {
      return None;
    }
    var meta := DecodeOptionalMemberMap(Get(members, "meta"));
    if meta.None? {
      return None;
    }
    return Some(Resource(identity.value.0, identity.value.1, identity.value.2, attributes.value,
                  relationships, links.value, meta.value, map[]));
  }

  method DecodeResourceArray(value: Tree) returns (decoded: Option<seq<Resource>>)
    ensures decoded == DecodeResources(NO_EXTENSIONS, value)
  {
    if !value.Array? {
      return None;
    }
    var resources: seq<Resource> := [];
    for index := 0 to |value.items|
      invariant |resources| == index
      invariant forall i :: 0 <= i < index ==> DecodeResource(NO_EXTENSIONS, value.items[i]) == Some(resources[i])
    {
      var resource := DecodeOneResource(value.items[index]);
      if resource.None? {
        return None;
      }
      resources := resources + [resource.value];
    }
    assert DecodeResources(NO_EXTENSIONS, value).value == resources;
    return Some(resources);
  }

  method DecodePrimary(value: Tree) returns (decoded: Option<PrimaryData>)
    ensures decoded == DecodePrimaryData(NO_EXTENSIONS, value)
  {
    match value
    case Null =>
      return Some(NullData);
    case Object(_) =>
      var resource := DecodeOneResource(value);
      return if resource.Some? then Some(ResourceData(resource.value)) else None;
    case Array(_) =>
      var resources := DecodeResourceArray(value);
      return if resources.Some? then Some(ResourceCollection(resources.value)) else None;
    case _ =>
      return None;
  }

  /** Fills the string fields named in `names`, in order, setting each presence bit. */
  method DecodeFields(members: Members, names: seq<string>) returns (decoded: Option<seq<Field>>)
    ensures decoded.Some? <==> forall i :: 0 <= i < |names| ==> DecodeString(Get(members, names[i])).Some?
    ensures decoded.Some? ==> |decoded.value| == |names|
    ensures decoded.Some? ==>
      forall i :: 0 <= i < |names| ==> DecodeString(Get(members, names[i])) == Some(decoded.value[i])
  {
    var fields: seq<Field> := [];
    for index := 0 to |names|
      invariant |fields| == index
      invariant forall i :: 0 <= i < index ==> DecodeString(Get(members, names[i])) == Some(fields[i])
    {
      var field := ABSENT_FIELD;
      if names[index] in members {
        if !members[names[index]].String? {
          return None;
        }
        field := Field(members[names[index]].s, true);
      }
      fields := fields + [field];
    }
    return Some(fields);
  }

  method DecodeSourceObject(value: Tree) returns (decoded: Option<ErrorSource>)
    ensures decoded == DecodeErrorSource(NO_EXTENSIONS, value)
  {
    if !value.Object? {
      return None;
    }
    NothingRegistered(ErrorSourceScope, value.members);
    var members := DiscardUnknown(value.members, {"pointer", "parameter", "header"});
    var names := ["pointer", "parameter", "header"];
    var fields := DecodeFields(members, names);
    assert names[0] == "pointer" && names[1] == "parameter" && names[2] == "header";
    if fields.None? {
      return None;
    }
    return Some(ErrorSource(fields.value[0], fields.value[1], fields.value[2], map[]));
  }

  method DecodeLeavesOfError(members: Members) returns (decoded: Option<ErrorObject>)
    ensures decoded == DecodeErrorLeaves(members)
  {
    var names := ["id", "status", "code", "title", "detail"];
    var fields := DecodeFields(members, names);
    assert names[0] == "id" && names[1] == "status" && names[2] == "code" && names[3] == "title" && names[4] == "detail";
    if fields.None? {
      return None;
    }
    var meta := DecodeOptionalMemberMap(Get(members, "meta"));
    if meta.None? {
      return None;
    }
    return Some(ErrorObject(fields.value[0], None, fields.value[1], fields.value[2], fields.value[3],
                  fields.value[4], None, meta.value, map[]));
  }

  method DecodeOneError(value: Tree) returns (decoded: Option<ErrorObject>)
    ensures decoded == DecodeError(NO_EXTENSIONS, value)
  {
    if !value.Object? {
      return None;
    }
    NothingRegistered(ErrorScope, value.members);
    var members := DiscardUnknown(value.members,
      {"id", "links", "status", "code", "title", "detail", "source", "meta"});
    ErrorLeavesAgree(value.members, members);
    var leaves := DecodeLeavesOfError(members);
    if leaves.None? {
      return None;
    }
    var links := DecodeOptionalLinkMap(Get(members, "links"));
    if links.None? {
      return None;
    }
    var source: Option<ErrorSource> := None;
    if "source" in members {
      source := DecodeSourceObject(members["source"]);
      if source.None? {
        return None;
      }
    }
    assert DecodeOptionalErrorSource(NO_EXTENSIONS, Get(value.members, "source")) == Some(source);
    return Some(leaves.value.(links := links.value, source := source));
  }

  method DecodeErrorArray(value: Tree) returns (decoded: Option<seq<ErrorObject>>)
    ensures decoded == DecodeErrors(NO_EXTENSIONS, value)
  {
    if !value.Array? {
      return None;
    }
    var errors: seq<ErrorObject> := [];
    for index := 0 to |value.items|
      invariant |errors| == index
      invariant forall i :: 0 <= i < index ==> DecodeError(NO_EXTENSIONS, value.items[i]) == Some(errors[i])
    {
      var error := DecodeOneError(value.items[index]);
      if error.None? {
        return None;
      }
      errors := errors + [error.value];
    }
    assert DecodeErrors(NO_EXTENSIONS, value).value == errors;
    return Some(errors);
  }

  method DecodeImplementation(value: Tree) returns (decoded: Option<JSONAPI>)
    ensures decoded == DecodeJSONAPI(NO_EXTENSIONS, value)
  {
    if !value.Object? {
      return None;
    }
    NothingRegistered(JSONAPIScope, value.members);
    var members := DiscardUnknown(value.members, {"version", "ext", "profile", "meta"});
    var version := DecodeString(Get(members, "version"));
    var ext := Lift(DecodeStrings, Get(members, "ext"));
    var profile := Lift(DecodeStrings, Get(members, "profile"));
    var meta := DecodeOptionalMemberMap(Get(members, "meta"));
    if version.None? || ext.None? || profile.None? || meta.None? {
      return None;
    }
    return Some(JSONAPI(version.value, ext.value, profile.value, meta.value, map[]));
  }

  method DecodeCompound(value: Option<Tree>) returns (decoded: Option<Option<seq<Resource>>>)
    ensures decoded == DecodeOptionalResources(NO_EXTENSIONS, value)
  {
    if value.None? {
      return Some(None);
    }
    var resources := DecodeResourceArray(value.value);
    return if resources.Some? then Some(resources) else None;
  }

  /** `decodeDocument`: each top-level member in turn, the first refusal ending the call. */
  method DecodeTopLevel(value: Tree) returns (decoded: Option<Document>)
    ensures decoded == DecodeDocument(NO_EXTENSIONS, value)
  {
    if !value.Object? {
      return None;
    }
    NothingRegistered(TopLevelScope, value.members);
    var root := DiscardUnknown(value.members, {"jsonapi", "links", "data", "included", "errors", "meta"});
    var document := Document(None, None, None, None, None, None, map[]);
    if "jsonapi" in root {
      var jsonapi := DecodeImplementation(root["jsonapi"]);
      if jsonapi.None? {
        return None;
      }
      document := document.(jsonapi := jsonapi);
    }
    assert DecodeOptionalJSONAPI(NO_EXTENSIONS, Get(root, "jsonapi")) == Some(document.jsonapi);
    var links := DecodeOptionalLinkMap(Get(root, "links"));
    if links.None? {
      return None;
    }
    document := document.(links := links.value);
    if "data" in root {
      var data := DecodePrimary(root["data"]);
      if data.None? {
        return None;
      }
      document := document.(data := data);
    }
    assert DecodeOptionalPrimaryData(NO_EXTENSIONS, Get(root, "data")) == Some(document.data);
    var included := DecodeCompound(Get(root, "included"));
    if included.None? {
      return None;
    }
    document := document.(included := included.value);
    if "errors" in root {
      var errors := DecodeErrorArray(root["errors"]);
      if errors.None? {
        return None;
      }
      document := document.(errors := errors);
    }
    assert DecodeOptionalErrors(NO_EXTENSIONS, Get(root, "errors")) == Some(document.errors);
    var meta := DecodeOptionalMemberMap(Get(root, "meta"));
    if meta.None? {
      return None;
    }
    return Some(document.(meta := meta.value));
  }
}
