/**
  The configured codec step by step: sanitizers delete from and overwrite the object they walk,
  and attachment writes members back through the decoded document.
 */
module MemberCodecSteps {
  import opened Documents
  import opened Registries
  import opened Decoder
  import opened RoundTrip
  import opened MemberCodec
  import opened TwoPass
  import CodecSteps

  /**
    `extractMembers`: registered names are looked up one by one and deleted from the object.
    The outcome does not depend on the order of the names.
   */
  method ExtractByRules(rules: map<string, Tree -> bool>, members: Members)
    returns (accepted: bool, rest: Members, extracted: Members)
    ensures accepted <==>
      forall name :: name in members && name in rules ==> rules[name](StripAtMembers(members[name]))
    ensures accepted ==> rest == members - rules.Keys
    ensures accepted ==> extracted.Keys == members.Keys * rules.Keys
    ensures accepted ==> forall name :: name in extracted ==> extracted[name] == StripAtMembers(members[name])
  {
    var pending := rules.Keys;
    rest := members;
    extracted := map[];
    while pending != {}
      invariant pending <= rules.Keys
      invariant rest == members - (rules.Keys - pending)
      invariant extracted.Keys == members.Keys * (rules.Keys - pending)
      invariant forall name :: name in extracted ==>
        extracted[name] == StripAtMembers(members[name]) && rules[name](extracted[name])
      decreases pending
    {
      var name :| name in pending;
      pending := pending - {name};
      if name in rest {
        var value := CodecSteps.Strip(members[name]);
        if !rules[name](value) {
          return false, map[], map[];
        }
        extracted := extracted[name := value];
        rest := rest - {name};
      }
    }
    forall name | name in members && name in rules
      ensures rules[name](StripAtMembers(members[name]))
    {
      assert name in extracted;
    }
    accepted := true;
  }

  lemma RulesOfScope(registry: Registry, scope: Scope, rules: map<string, Tree -> bool>, members: Members)
    requires rules == if scope in registry.rules then registry.rules[scope] else map[]
    ensures ExtractMembers(registry, scope, members).Some? <==>
      forall name :: name in members && name in rules ==> rules[name](StripAtMembers(members[name]))
    ensures ExtractMembers(registry, scope, members).Some? ==>
      ExtractMembers(registry, scope, members).value
        == map name | name in members.Keys * rules.Keys :: StripAtMembers(members[name])
    ensures WithoutRegistered(registry, scope, members) == members - rules.Keys
  {
    forall name ensures registry.Registered(scope, name) <==> name in rules {
    }
  }

  method Extract(registry: Registry, scope: Scope, members: Members) returns (result: Option<(Tree, Members)>)
    ensures result == SanitizeObject(registry, scope, Object(members))
  {
    hide StripAtMembers, ExtractMembers, WithoutRegistered;
    var rules := if scope in registry.rules then registry.rules[scope] else map[];
    RulesOfScope(registry, scope, rules, members);
    var accepted, rest, extracted := ExtractByRules(rules, members);
    if accepted {
      assert extracted == ExtractMembers(registry, scope, members).value;
    }
    return if accepted then Some((Object(rest), extracted)) else None;
  }

  method SanitizeOneObject(registry: Registry, scope: Scope, value: Tree) returns (result: Option<(Tree, Members)>)
    ensures result == SanitizeObject(registry, scope, value)
  {
    if !value.Object? {
      return None;
    }
    result := Extract(registry, scope, value.members);
  }

  method SanitizeOneLinkObject(registry: Registry, value: Tree) returns (result: Option<(Tree, LinkState)>)
    requires value.Object?
    ensures result == SanitizeLinkObject(registry, value)
    decreases value
  {
    var outer := Extract(registry, LinkObjectScope, value.members);
    if outer.None? {
      return None;
    }
    var rest := outer.value.0.members;
    var state := LinkState(outer.value.1, None);
    if "describedby" in rest && rest["describedby"].Object? {
      var nested := SanitizeOneLinkObject(registry, rest["describedby"]);
      if nested.None? {
        return None;
      }
      rest := rest["describedby" := nested.value.0];
      state := state.(describedBy := Some(nested.value.1));
    }
    return Some((Object(rest), state));
  }

  lemma SplitLinksAreSanitized(registry: Registry, members: Members, rest: Members, state: LinksState)
    requires LinksSplit(registry, members, rest, state)
    ensures SanitizeLinks(registry, Object(members)) == Some((Object(rest), state))
  {
    var pair := SanitizeLinks(registry, Object(members)).value;
    assert pair.0.members == rest;
    assert pair.1.links == state.links;
  }

  lemma SplitRelationshipsAreSanitized(
    registry: Registry, members: Members, rest: Members, states: map<string, RelationshipState>)
    requires RelationshipsSplit(registry, members, rest, states)
    ensures SanitizeRelationships(registry, Object(members)) == Some((Object(rest), states))
  {
    SanitizedRelationshipsSplit(registry, members);
    var pair := SanitizeRelationships(registry, Object(members)).value;
    assert pair.0.members == rest && pair.1 == states by {
      SplitIsUnique(registry, members, rest, states, pair.0.members, pair.1);
    }
  }

  lemma SplitIsUnique(
    registry: Registry, members: Members, rest: Members, states: map<string, RelationshipState>,
    otherRest: Members, otherStates: map<string, RelationshipState>)
    requires RelationshipsSplit(registry, members, rest, states)
    requires RelationshipsSplit(registry, members, otherRest, otherStates)
    ensures rest == otherRest && states == otherStates
  {
  }

  method SanitizeLinkMap(registry: Registry, value: Tree) returns (result: Option<(Tree, LinksState)>)
    ensures result == SanitizeLinks(registry, value)
  {
    var outer := SanitizeOneObject(registry, LinksObjectScope, value);
    if outer.None? {
      return None;
    }
    var original := outer.value.0.members;
    var current := original;
    var states: map<string, LinkState> := map[];
    var pending := original.Keys;
    while pending != {}
      invariant pending <= original.Keys == current.Keys
      invariant forall name :: name in pending ==> current[name] == original[name]
      invariant forall name :: name in current && name !in pending ==>
        SanitizeLink(registry, original[name])
          == Some((current[name], if name in states then Some(states[name]) else None))
      invariant states.Keys <= original.Keys - pending
      decreases pending
    {
      var name :| name in pending;
      pending := pending - {name};
      if original[name].Object? {
        var sanitized := SanitizeOneLinkObject(registry, original[name]);
        if sanitized.None? {
          assert SanitizeLink(registry, original[name]).None?;
          return None;
        }
        current := current[name := sanitized.value.0];
        states := states[name := sanitized.value.1];
      }
    }
    SplitLinksAreSanitized(registry, value.members, current, LinksState(outer.value.1, states));
    return Some((Object(current), LinksState(outer.value.1, states)));
  }

  method SanitizeOptionalLinkMap(registry: Registry, value: Option<Tree>)
    returns (result: Option<(Option<Tree>, LinksState)>)
    ensures result == SanitizeOptionalLinks(registry, value)
  {
    if value.None? {
      return Some((None, NO_LINKS));
    }
    var links := SanitizeLinkMap(registry, value.value);
    return if links.Some? then Some((Some(links.value.0), links.value.1)) else None;
  }

  method SanitizeLinkage(registry: Registry, value: Tree) returns (result: Option<(Tree, seq<Members>)>)
    ensures result == SanitizeIdentifierData(registry, value)
  {
    match value
    case Object(_) =>
      var one := SanitizeOneObject(registry, IdentifierScope, value);
      return if one.Some? then Some((one.value.0, [one.value.1])) else None;
    case Array(items) =>
      var current := items;
      var states: seq<Members> := [];
      for index := 0 to |items|
        invariant |current| == |items| && |states| == index
        invariant forall i :: index <= i < |items| ==> current[i] == items[i]
        invariant forall i :: 0 <= i < index ==>
          SanitizeObject(registry, IdentifierScope, items[i]) == Some((current[i], states[i]))
      {
        var sanitized := SanitizeOneObject(registry, IdentifierScope, items[index]);
        if sanitized.None? {
          return None;
        }
        current := current[index := sanitized.value.0];
        states := states + [sanitized.value.1];
      }
      var pairs := SanitizeIdentifiers(registry, items).value;
      assert Firsts(pairs) == current;
      assert Seconds(pairs) == states;
      return Some((Array(current), states));
    case _ =>
      return Some((value, []));
  }

  method SanitizeOneRelationship(registry: Registry, value: Tree) returns (result: Option<(Tree, RelationshipState)>)
    ensures result == SanitizeRelationship(registry, value)
  {
    var outer := SanitizeOneObject(registry, RelationshipScope, value);
    if outer.None? {
      return None;
    }
    var rest := outer.value.0.members;
    var links := SanitizeOptionalLinkMap(registry, Get(rest, "links"));
    if links.None? {
      return None;
    }
    var replaced := Replace(rest, "links", links.value.0);
    var state := RelationshipState(outer.value.1, links.value.1, []);
    if "data" in rest {
      var data := SanitizeLinkage(registry, rest["data"]);
      if data.None? {
        return None;
      }
      replaced := replaced["data" := data.value.0];
      state := state.(identifiers := data.value.1);
    }
    return Some((Object(replaced), state));
  }

  method SanitizeRelationshipMap(registry: Registry, value: Tree)
    returns (result: Option<(Tree, map<string, RelationshipState>)>)
    ensures result == SanitizeRelationships(registry, value)
  {
    if !value.Object? {
      return None;
    }
    var original := value.members;
    var current := original;
    var states: map<string, RelationshipState> := map[];
    var pending := original.Keys;
    while pending != {}
      invariant pending <= original.Keys == current.Keys
      invariant forall name :: name in pending ==> current[name] == original[name]
      invariant states.Keys == original.Keys - pending
      invariant forall name :: name in states ==>
        SanitizeRelationship(registry, original[name]) == Some((current[name], states[name]))
      decreases pending
    {
      var name :| name in pending;
      pending := pending - {name};
      var sanitized := SanitizeOneRelationship(registry, original[name]);
      if sanitized.None? {
        return None;
      }
      current := current[name := sanitized.value.0];
      states := states[name := sanitized.value.1];
    }
    SplitRelationshipsAreSanitized(registry, original, current, states);
    return Some((Object(current), states));
  }

  method SanitizeOneResource(registry: Registry, value: Tree) returns (result: Option<(Tree, ResourceState)>)
    ensures result == SanitizeResource(registry, value)
  {
    var outer := SanitizeOneObject(registry, ResourceScope, value);
    if outer.None? {
      return None;
    }
    var rest := outer.value.0.members;
    var links := SanitizeOptionalLinkMap(registry, Get(rest, "links"));
    if links.None? {
      return None;
    }
    var replaced := Replace(rest, "links", links.value.0);
    var state := ResourceState(outer.value.1, links.value.1, map[]);
    if "relationships" in rest {
      var relationships := SanitizeRelationshipMap(registry, rest["relationships"]);
      if relationships.None? {
        return None;
      }
      replaced := replaced["relationships" := relationships.value.0];
      state := state.(relationships := relationships.value.1);
    }
    return Some((Object(replaced), state));
  }

  method SanitizeResourceArray(registry: Registry, value: Tree) returns (result: Option<(Tree, seq<ResourceState>)>)
    ensures result == SanitizeResources(registry, value)
  {
    if !value.Array? {
      return None;
    }
    var current := value.items;
    var states: seq<ResourceState> := [];
    for index := 0 to |value.items|
      invariant |current| == |value.items| && |states| == index
      invariant forall i :: index <= i < |current| ==> current[i] == value.items[i]
      invariant forall i :: 0 <= i < index ==> SanitizeResource(registry, value.items[i]) == Some((current[i], states[i]))
    {
      var sanitized := SanitizeOneResource(registry, value.items[index]);
      if sanitized.None? {
        return None;
      }
      current := current[index := sanitized.value.0];
      states := states + [sanitized.value.1];
    }
    var expected := SanitizeResources(registry, value).value;
    assert expected.0.items == current;
    assert expected.1 == states;
    return Some((Array(current), states));
  }

  method SanitizePrimary(registry: Registry, value: Tree) returns (result: Option<(Tree, seq<ResourceState>)>)
    ensures result == SanitizePrimaryData(registry, value)
  {
    match value
    case Null =>
      return Some((value, []));
    case Array(_) =>
      result := SanitizeResourceArray(registry, value);
    case Object(_) =>
      var one := SanitizeOneResource(registry, value);
      return if one.Some? then Some((one.value.0, [one.value.1])) else None;
    case _ =>
      return None;
  }

  method SanitizeOneError(registry: Registry, value: Tree) returns (result: Option<(Tree, ErrorState)>)
    ensures result == SanitizeError(registry, value)
  {
    var outer := SanitizeOneObject(registry, ErrorScope, value);
    if outer.None? {
      return None;
    }
    var rest := outer.value.0.members;
    var links := SanitizeOptionalLinkMap(registry, Get(rest, "links"));
    if links.None? {
      return None;
    }
    var replaced := Replace(rest, "links", links.value.0);
    var state := ErrorState(outer.value.1, map[], links.value.1);
    if "source" in rest {
      var source := SanitizeOneObject(registry, ErrorSourceScope, rest["source"]);
      if source.None? {
        return None;
      }
      replaced := replaced["source" := source.value.0];
      state := state.(source := source.value.1);
    }
    return Some((Object(replaced), state));
  }

  method SanitizeErrorArray(registry: Registry, value: Tree) returns (result: Option<(Tree, seq<ErrorState>)>)
    ensures result == SanitizeErrors(registry, value)
  {
    if !value.Array? {
      return None;
    }
    var current := value.items;
    var states: seq<ErrorState> := [];
    for index := 0 to |value.items|
      invariant |current| == |value.items| && |states| == index
      invariant forall i :: index <= i < |current| ==> current[i] == value.items[i]
      invariant forall i :: 0 <= i < index ==> SanitizeError(registry, value.items[i]) == Some((current[i], states[i]))
    {
      var sanitized := SanitizeOneError(registry, value.items[index]);
      if sanitized.None? {
        return None;
      }
      current := current[index := sanitized.value.0];
      states := states + [sanitized.value.1];
    }
    var expected := SanitizeErrors(registry, value).value;
    assert expected.0.items == current;
    assert expected.1 == states;
    return Some((Array(current), states));
  }

  // Attachment.

  /** `attachLinkMembers`: extension members first, then the members of links that are still there. */
  method AttachToLinks(links: Links, state: LinksState) returns (attached: Links)
    ensures attached == AttachLinks(links, state)
  {
    var all := AddExtensionLinks(links, state.members);
    attached := AddLinkMembers(all, state.links);
  }

  method AddExtensionLinks(links: Links, members: Members) returns (attached: Links)
    ensures attached == links + map name | name in members :: ExtensionLink(members[name])
  {
    attached := links;
    var pending := members.Keys;
    while pending != {}
      invariant pending <= members.Keys
      invariant attached.Keys == links.Keys + (members.Keys - pending)
      invariant forall name :: name in attached ==>
        attached[name] == if name in members && name !in pending then ExtensionLink(members[name]) else links[name]
      decreases pending
    {
      var name :| name in pending;
      pending := pending - {name};
      attached := attached[name := ExtensionLink(members[name])];
    }
  }

  method AddLinkMembers(links: Links, states: map<string, LinkState>) returns (attached: Links)
    ensures attached == map name | name in links ::
      if name in states then AttachLink(links[name], states[name]) else links[name]
  {
    attached := links;
    var pending := states.Keys;
    while pending != {}
      invariant pending <= states.Keys
      invariant attached.Keys == links.Keys
      invariant forall name :: name in links ==>
        attached[name] ==
          if name in states && name !in pending then AttachLink(links[name], states[name]) else links[name]
      decreases pending
    {
      var name :| name in pending;
      pending := pending - {name};
      if name in attached {
        attached := attached[name := AttachLink(attached[name], states[name])];
      }
    }
  }

  method AttachToOptionalLinks(links: Option<Links>, state: LinksState) returns (attached: Option<Links>)
    ensures attached == AttachOptionalLinks(links, state)
  {
    if links.None? {
      return None;
    }
    var present := AttachToLinks(links.value, state);
    return Some(present);
  }

  /** `attachIdentifierMembers`: the collected members are paired with identifiers by position. */
  method AttachToLinkage(data: RelationshipData, members: seq<Members>) returns (attached: RelationshipData)
    ensures attached == AttachIdentifiers(data, members)
  {
    match data
    case NullRelationship =>
      return data;
    case ToOne(one) =>
      return if |members| > 0 then ToOne(one.(additional := members[0])) else data;
    case ToMany(many) =>
      var identifiers := many;
      var paired := if |members| < |many| then |members| else |many|;
      for index := 0 to paired
        invariant |identifiers| == |many|
        invariant forall i :: 0 <= i < |many| ==>
          identifiers[i] == if i < index then many[i].(additional := members[i]) else many[i]
      {
        identifiers := identifiers[index := identifiers[index].(additional := members[index])];
      }
      assert identifiers == AttachIdentifiers(data, members).many;
      return ToMany(identifiers);
  }

  /** `attachResourceMembers`: relationships are found again by name. */
  method AttachToResource(resource: Resource, state: ResourceState) returns (attached: Resource)
    ensures attached == AttachResource(resource, state)
  {
    attached := resource.(additional := state.members);
    var links := AttachToOptionalLinks(resource.links, state.links);
    attached := attached.(links := links);
    if resource.relationships.Some? {
      var original := resource.relationships.value;
      var relationships := original;
      var pending := state.relationships.Keys;
      while pending != {}
        invariant pending <= state.relationships.Keys
        invariant relationships.Keys == original.Keys
        invariant forall name :: name in original ==>
          relationships[name] ==
            if name in state.relationships && name !in pending
            then AttachRelationship(original[name], state.relationships[name])
            else original[name]
        decreases pending
      {
        var name :| name in pending;
        pending := pending - {name};
        if name in relationships {
          var relationship := AttachToRelationship(relationships[name], state.relationships[name]);
          relationships := relationships[name := relationship];
        }
      }
      assert relationships == AttachRelationships(original, state.relationships);
      attached := attached.(relationships := Some(relationships));
    }
  }

  method AttachToRelationship(relationship: Relationship, state: RelationshipState) returns (attached: Relationship)
    ensures attached == AttachRelationship(relationship, state)
  {
    attached := relationship.(additional := state.members);
    var links := AttachToOptionalLinks(relationship.links, state.links);
    attached := attached.(links := links);
    if relationship.data.Some? {
      var data := AttachToLinkage(relationship.data.value, state.identifiers);
      attached := attached.(data := Some(data));
    }
  }

  /** The loops of `attachPrimaryMembers` and of `Unmarshal` over included resources. */
  method AttachToResources(resources: seq<Resource>, states: seq<ResourceState>) returns (attached: seq<Resource>)
    ensures attached == AttachResources(resources, states)
  {
    attached := resources;
    var paired := if |states| < |resources| then |states| else |resources|;
    for index := 0 to paired
      invariant |attached| == |resources|
      invariant forall i :: 0 <= i < |resources| ==>
        attached[i] == if i < index then AttachResource(resources[i], states[i]) else resources[i]
    {
      var resource := AttachToResource(attached[index], states[index]);
      attached := attached[index := resource];
    }
    assert attached == AttachResources(resources, states);
  }

  method AttachToPrimaryData(data: PrimaryData, states: seq<ResourceState>) returns (attached: PrimaryData)
    ensures attached == AttachPrimaryData(data, states)
  {
    match data
    case NullData =>
      return data;
    case ResourceData(one) =>
      if |states| > 0 {
        var resource := AttachToResource(one, states[0]);
        return ResourceData(resource);
      }
      return data;
    case ResourceCollection(many) =>
      var resources := AttachToResources(many, states);
      return ResourceCollection(resources);
  }

  /** `Unmarshal` indexes the collected states directly, which needs one per decoded error. */
  method AttachToErrors(errors: seq<ErrorObject>, states: seq<ErrorState>) returns (attached: seq<ErrorObject>)
    requires |states| == |errors|
    ensures attached == AttachErrors(errors, states)
  {
    attached := errors;
    for index := 0 to |errors|
      invariant |attached| == |errors|
      invariant forall i :: 0 <= i < |errors| ==>
        attached[i] == if i < index then AttachError(errors[i], states[i]) else errors[i]
    {
      var error := attached[index].(additional := states[index].members);
      var links := AttachToOptionalLinks(error.links, states[index].links);
      error := error.(links := links);
      if error.source.Some? {
        error := error.(source := Some(error.source.value.(additional := states[index].source)));
      }
      attached := attached[index := error];
    }
    assert attached == AttachErrors(errors, states);
  }

  method SanitizeTopLevel(registry: Registry, value: Tree) returns (result: Option<(Tree, DocumentState)>)
    ensures result == SanitizeDocument(registry, value)
  {
    var outer := SanitizeOneObject(registry, TopLevelScope, value);
    if outer.None? {
      return None;
    }
    var rest := outer.value.0.members;
    var root := rest;
    var state := DocumentState(outer.value.1, map[], NO_LINKS, [], [], []);
    if "jsonapi" in rest {
      var jsonapi := SanitizeOneObject(registry, JSONAPIScope, rest["jsonapi"]);
      if jsonapi.None? {
        return None;
      }
      root := root["jsonapi" := jsonapi.value.0];
      state := state.(jsonapi := jsonapi.value.1);
    }
    assert SanitizeOptionalObject(registry, JSONAPIScope, Get(rest, "jsonapi")) == Some((Get(root, "jsonapi"), state.jsonapi));
    var links := SanitizeOptionalLinkMap(registry, Get(rest, "links"));
    if links.None? {
      return None;
    }
    root := Replace(root, "links", links.value.0);
    state := state.(links := links.value.1);
    var data := SanitizeDataMember(registry, Get(rest, "data"));
    if data.None? {
      return None;
    }
    root := Replace(root, "data", data.value.0);
    state := state.(data := data.value.1);
    var included := SanitizeIncludedMember(registry, Get(rest, "included"));
    if included.None? {
      return None;
    }
    root := Replace(root, "included", included.value.0);
    state := state.(included := included.value.1);
    var errors := SanitizeErrorsMember(registry, Get(rest, "errors"));
    if errors.None? {
      return None;
    }
    root := Replace(root, "errors", errors.value.0);
    state := state.(errors := errors.value.1);
    return Some((Object(root), state));
  }

  method SanitizeDataMember(registry: Registry, value: Option<Tree>)
    returns (result: Option<(Option<Tree>, seq<ResourceState>)>)
    ensures result == SanitizeOptionalPrimaryData(registry, value)
  {
    if value.None? {
      return Some((None, []));
    }
    var data := SanitizePrimary(registry, value.value);
    return if data.Some? then Some((Some(data.value.0), data.value.1)) else None;
  }

  method SanitizeIncludedMember(registry: Registry, value: Option<Tree>)
    returns (result: Option<(Option<Tree>, seq<ResourceState>)>)
    ensures result == SanitizeOptionalResources(registry, value)
  {
    if value.None? {
      return Some((None, []));
    }
    var included := SanitizeResourceArray(registry, value.value);
    return if included.Some? then Some((Some(included.value.0), included.value.1)) else None;
  }

  method SanitizeErrorsMember(registry: Registry, value: Option<Tree>)
    returns (result: Option<(Option<Tree>, seq<ErrorState>)>)
    ensures result == SanitizeOptionalErrors(registry, value)
  {
    if value.None? {
      return Some((None, []));
    }
    var errors := SanitizeErrorArray(registry, value.value);
    return if errors.Some? then Some((Some(errors.value.0), errors.value.1)) else None;
  }

  /** One error state was collected for each decoded error, so indexing cannot go out of range. */
  lemma OneStatePerError(registry: Registry, members: Members, document: Document, pair: (Tree, DocumentState))
    requires registry.WellFormed() && SanitizeDocument(registry, Object(members)) == Some(pair)
    requires DecodeDocument(NO_EXTENSIONS, pair.0) == Some(document)
    ensures document.errors.Some? ==> |pair.1.errors| == |document.errors.value|
  {
    SanitizedDocumentParts(registry, members);
    var parts :|
      && PartsOf(registry, members, parts)
      && pair.0 == Object(Replaced(registry, members, parts.jsonapi.0, parts.links.0, parts.data.0,
                            parts.included.0, parts.errors.0))
      && pair.1 == DocumentState(pair.1.members, parts.jsonapi.1, parts.links.1, parts.data.1,
                     parts.included.1, parts.errors.1);
    OneStatePerErrorOfParts(registry, members, document, pair.0.members, parts);
  }

  lemma OneStatePerErrorOfParts(
    registry: Registry, members: Members, document: Document, replaced: Members, parts: Parts)
    requires registry.WellFormed() && PartsOf(registry, members, parts)
    requires replaced == Replaced(registry, members, parts.jsonapi.0, parts.links.0, parts.data.0,
                           parts.included.0, parts.errors.0)
    requires DecodeDocument(NO_EXTENSIONS, Object(replaced)) == Some(document)
    ensures document.errors.Some? ==> |parts.errors.1| == |document.errors.value|
  {
    DocumentRemains(registry, members, parts.jsonapi.0, parts.links.0, parts.data.0, parts.included.0, parts.errors.0);
    ErrorsOfDocument(replaced, document);
    OneStatePerSanitizedError(registry, Get(members, "errors"), parts.errors);
  }

  lemma ErrorsOfDocument(members: Members, document: Document)
    requires DecodeDocument(NO_EXTENSIONS, Object(members)) == Some(document)
    ensures DecodeOptionalErrors(NO_EXTENSIONS, Get(members, "errors")) == Some(document.errors)
  {
  }

  lemma OneStatePerSanitizedError(registry: Registry, value: Option<Tree>, sanitized: (Option<Tree>, seq<ErrorState>))
    requires SanitizeOptionalErrors(registry, value) == Some(sanitized)
    ensures var errors := DecodeOptionalErrors(NO_EXTENSIONS, sanitized.0);
      errors.Some? && errors.value.Some? ==> |sanitized.1| == |errors.value.value|
  {
  }

  /** `Codec.Unmarshal` between the structural scan and validation, on a decoded JSON value. */
  method DecodeConfigured(registry: Registry, value: Tree) returns (decoded: Option<Document>)
    requires registry.WellFormed()
    ensures decoded == if SaneDocument(registry, value) then DecodeDocument(registry, value) else None
  {
    TwoPassesAreOnePass(registry, value);
    var sanitized := SanitizeTopLevel(registry, value);
    if sanitized.None? {
      return None;
    }
    var core := CodecSteps.DecodeTopLevel(sanitized.value.0);
    if core.None? {
      return None;
    }
    var state := sanitized.value.1;
    OneStatePerError(registry, value.members, core.value, sanitized.value);
    var document := core.value.(additional := state.members, jsonapi := AttachJSONAPI(core.value.jsonapi, state.jsonapi));
    var links := AttachToOptionalLinks(document.links, state.links);
    document := document.(links := links);
    if document.data.Some? {
      var data := AttachToPrimaryData(document.data.value, state.data);
      document := document.(data := Some(data));
    }
    if document.included.Some? {
      var included := AttachToResources(document.included.value, state.included);
      document := document.(included := Some(included));
    }
    if document.errors.Some? {
      var errors := AttachToErrors(document.errors.value, state.errors);
      document := document.(errors := Some(errors));
    }
    assert document == AttachDocument(core.value, state);
    return Some(document);
  }
}
