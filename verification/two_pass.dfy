/**
  The configured codec against the one-pass decoder: extracting registered members, decoding the
  stripped tree and reattaching gives exactly the document in which every registered value sits on
  the object it came from.

  The two differ in one respect. The sanitizers also enter containers named with a leading `@`,
  which decoding skips, so a malformed one is refused by the codec although it has no meaning.
 */
module TwoPass {
  import opened Documents
  import opened Registries
  import opened Decoder
  import opened RoundTrip
  import opened MemberCodec
  import opened Containers

  // What the sanitizers demand of containers that decoding ignores.

  predicate SaneLinks(registry: Registry, value: Option<Tree>) {
    value.Some? && value.value.Object? ==>
      forall name | name in value.value.members && IsAtName(name) ::
        CleanLink(registry, value.value.members[name])
  }

  predicate SaneRelationship(registry: Registry, value: Tree) {
    value.Object? ==> SaneLinks(registry, Get(value.members, "links"))
  }

  predicate SaneRelationships(registry: Registry, value: Option<Tree>) {
    value.Some? && value.value.Object? ==>
      forall name | name in value.value.members ::
        if IsAtName(name) then CleanRelationship(registry, value.value.members[name])
        else SaneRelationship(registry, value.value.members[name])
  }

  predicate SaneResource(registry: Registry, value: Tree) {
    value.Object? ==>
      && SaneLinks(registry, Get(value.members, "links"))
      && SaneRelationships(registry, Get(value.members, "relationships"))
  }

  predicate SaneResources(registry: Registry, value: Tree) {
    value.Array? ==> forall i | 0 <= i < |value.items| :: SaneResource(registry, value.items[i])
  }

  predicate SaneError(registry: Registry, value: Tree) {
    value.Object? ==> SaneLinks(registry, Get(value.members, "links"))
  }

  predicate SaneErrors(registry: Registry, value: Tree) {
    value.Array? ==> forall i | 0 <= i < |value.items| :: SaneError(registry, value.items[i])
  }

  // Links.

  /** Decoding what a sanitizer left and attaching what it took. */
  function ReattachedLink(sanitized: Option<(Tree, Option<LinkState>)>): Option<Link> {
    var pair :- sanitized;
    var link :- DecodeLink(NO_EXTENSIONS, pair.0);
    Some(if pair.1.Some? then AttachLink(link, pair.1.value) else link)
  }

  lemma LinkLeavesRemain(registry: Registry, members: Members, describedBy: Option<Tree>)
    requires registry.WellFormed()
    ensures var rest := WithoutRegistered(registry, LinkObjectScope, members);
      && Get(rest, "describedby") == Get(members, "describedby")
      && DecodeLinkLeaves(Replace(rest, "describedby", describedBy)) == DecodeLinkLeaves(members)
  {
    var rest := WithoutRegistered(registry, LinkObjectScope, members);
    CoreNamesOfLinks();
    CoreMembersRemain(registry, LinkObjectScope, members);
    LinkLeavesAgree(members, Replace(rest, "describedby", describedBy));
  }

  lemma LinkLeavesAgree(first: Members, second: Members)
    requires Get(first, "href") == Get(second, "href")
    requires Get(first, "rel") == Get(second, "rel")
    requires Get(first, "title") == Get(second, "title")
    requires Get(first, "type") == Get(second, "type")
    requires Get(first, "hreflang") == Get(second, "hreflang")
    requires Get(first, "meta") == Get(second, "meta")
    ensures DecodeLinkLeaves(first) == DecodeLinkLeaves(second)
  {
  }

  lemma NothingRegistered(scope: Scope, members: Members)
    ensures ExtractMembers(NO_EXTENSIONS, scope, members) == Some(map[])
  {
    assert ExtractMembers(NO_EXTENSIONS, scope, members).value == map[];
  }

  lemma {:induction false} LinkInTwoPasses(registry: Registry, value: Tree)
    requires registry.WellFormed()
    ensures ReattachedLink(SanitizeLink(registry, value)) == DecodeLink(registry, value)
  {
    if !value.Object? {
      PlainLinkInTwoPasses(registry, value);
    } else if ExtractMembers(registry, LinkObjectScope, value.members).None? {
      RefusedLinkInTwoPasses(registry, value);
    } else if "describedby" in value.members && value.members["describedby"].Object? {
      LinkInTwoPasses(registry, value.members["describedby"]);
      NestedLinkInTwoPasses(registry, value);
    } else {
      LeafLinkInTwoPasses(registry, value);
    }
  }

  lemma PlainLinkInTwoPasses(registry: Registry, value: Tree)
    requires !value.Object?
    ensures ReattachedLink(SanitizeLink(registry, value)) == DecodeLink(registry, value)
  {
  }

  lemma RefusedLinkInTwoPasses(registry: Registry, value: Tree)
    requires value.Object? && ExtractMembers(registry, LinkObjectScope, value.members).None?
    ensures ReattachedLink(SanitizeLink(registry, value)) == DecodeLink(registry, value)
  {
    assert SanitizeLinkObject(registry, value).None?;
    assert DecodeLink(registry, value).None?;
  }

  lemma LeafLinkInTwoPasses(registry: Registry, value: Tree)
    requires registry.WellFormed() && value.Object? && ExtractMembers(registry, LinkObjectScope, value.members).Some?
    requires !("describedby" in value.members && value.members["describedby"].Object?)
    ensures ReattachedLink(SanitizeLink(registry, value)) == DecodeLink(registry, value)
  {
    hide ExtractMembers, DecodeLinkLeaves, WithoutRegistered;
    var members := value.members;
    var rest := WithoutRegistered(registry, LinkObjectScope, members);
    LinkLeavesRemain(registry, members, None);
    NothingRegistered(LinkObjectScope, rest);
    assert SanitizeLink(registry, value).value.0 == Object(rest);
    if "describedby" in members {
      PlainLinkInTwoPasses(registry, members["describedby"]);
      PlainLinkInTwoPasses(NO_EXTENSIONS, members["describedby"]);
    }
  }

  lemma NestedLinkInTwoPasses(registry: Registry, value: Tree)
    requires registry.WellFormed() && value.Object? && ExtractMembers(registry, LinkObjectScope, value.members).Some?
    requires "describedby" in value.members && value.members["describedby"].Object?
    requires ReattachedLink(SanitizeLink(registry, value.members["describedby"]))
      == DecodeLink(registry, value.members["describedby"])
    ensures ReattachedLink(SanitizeLink(registry, value)) == DecodeLink(registry, value)
  {
    var members := value.members;
    var nested := SanitizeLinkObject(registry, members["describedby"]);
    LinkLeavesRemain(registry, members, None);
    if nested.Some? {
      var rest := WithoutRegistered(registry, LinkObjectScope, members);
      LinkLeavesRemain(registry, members, Some(nested.value.0));
      NothingRegistered(LinkObjectScope, rest["describedby" := nested.value.0]);
    }
  }

  /** Same for a links object. */
  function ReattachedLinks(sanitized: Option<(Tree, LinksState)>): Option<Links> {
    var pair :- sanitized;
    var links :- DecodeLinks(NO_EXTENSIONS, pair.0);
    Some(AttachLinks(links, pair.1))
  }

  /** The pieces of a successful `SanitizeLinks`, entry by entry. */
  ghost predicate LinksSplit(registry: Registry, members: Members, rest: Members, state: LinksState) {
    && rest.Keys == WithoutRegistered(registry, LinksObjectScope, members).Keys
    && ExtractMembers(registry, LinksObjectScope, members) == Some(state.members)
    && state.links.Keys <= rest.Keys
    && forall name | name in rest ::
         SanitizeLink(registry, members[name])
           == Some((rest[name], if name in state.links then Some(state.links[name]) else None))
  }

  lemma SanitizedLinksSplit(registry: Registry, members: Members)
    ensures match SanitizeLinks(registry, Object(members))
      case None =>
        || ExtractMembers(registry, LinksObjectScope, members).None?
        || exists name :: && name in members && !registry.Registered(LinksObjectScope, name)
                          && SanitizeLink(registry, members[name]).None?
      case Some(pair) => pair.0.Object? && LinksSplit(registry, members, pair.0.members, pair.1)
  {
  }

  lemma SplitLinksEntry(registry: Registry, members: Members, rest: Members, state: LinksState, name: string)
    requires registry.WellFormed() && LinksSplit(registry, members, rest, state)
    requires name in members && !IsAtName(name)
    ensures registry.Registered(LinksObjectScope, name) ==>
      && name !in rest && name !in state.links && name in state.members
      && DecodeLinksMember(registry, name, members[name]) == Some(ExtensionLink(state.members[name]))
    ensures !registry.Registered(LinksObjectScope, name) ==>
      && name in rest && name !in state.members
      && DecodeLinksMember(registry, name, members[name])
           == ReattachedLink(Some((rest[name], if name in state.links then Some(state.links[name]) else None)))
  {
    assert name in WithoutRegistered(registry, LinksObjectScope, members)
      <==> !registry.Registered(LinksObjectScope, name);
    if !registry.Registered(LinksObjectScope, name) {
      LinkInTwoPasses(registry, members[name]);
    }
  }

  lemma SplitLinksAttach(registry: Registry, members: Members, rest: Members, state: LinksState)
    requires registry.WellFormed() && LinksSplit(registry, members, rest, state)
    requires DecodeLinks(NO_EXTENSIONS, Object(rest)).Some?
    ensures DecodeLinks(registry, Object(members))
      == Some(AttachLinks(DecodeLinks(NO_EXTENSIONS, Object(rest)).value, state))
  {
    hide DecodeLink, SanitizeLink, StripAtMembers;
    var links := DecodeLinks(NO_EXTENSIONS, Object(rest)).value;
    var attached := AttachLinks(links, state);
    forall name | name in members && !IsAtName(name)
      ensures name in attached && DecodeLinksMember(registry, name, members[name]) == Some(attached[name])
    {
      SplitLinksEntry(registry, members, rest, state, name);
      if name in rest {
        assert links[name] == DecodeLink(NO_EXTENSIONS, rest[name]).value;
      }
    }
    forall name | name in attached
      ensures name in members && !IsAtName(name)
    {
      assert name in links || name in state.members;
      assert registry.Registered(LinksObjectScope, name) || name in rest;
    }
    assert DecodeLinks(registry, Object(members)).value == attached;
  }

  lemma SplitLinksRefuse(registry: Registry, members: Members, rest: Members, state: LinksState)
    requires registry.WellFormed() && LinksSplit(registry, members, rest, state)
    requires DecodeLinks(NO_EXTENSIONS, Object(rest)).None?
    ensures DecodeLinks(registry, Object(members)).None?
  {
    var name :| name in rest && !IsAtName(name) && DecodeLinksMember(NO_EXTENSIONS, name, rest[name]).None?;
    SplitLinksEntry(registry, members, rest, state, name);
  }

  lemma LinksInTwoPasses(registry: Registry, value: Tree)
    requires registry.WellFormed()
    ensures ReattachedLinks(SanitizeLinks(registry, value))
      == if SaneLinks(registry, Some(value)) then DecodeLinks(registry, value) else None
  {
    hide SanitizeLinks, CleanLinks, DecodeLinks, SaneLinks, AttachLinks;
    LinksAreSanitized(registry, value);
    if value.Object? {
      SanitizedLinksSplit(registry, value.members);
      match SanitizeLinks(registry, value)
      case Some(pair) =>
        CleanLinksAreSane(registry, value);
        if DecodeLinks(NO_EXTENSIONS, pair.0).Some? {
          SplitLinksAttach(registry, value.members, pair.0.members, pair.1);
        } else {
          SplitLinksRefuse(registry, value.members, pair.0.members, pair.1);
        }
      case None =>
        UncleanLinks(registry, value.members);
    } else {
      OnlyObjectsHoldLinks(registry, value);
    }
  }

  lemma OnlyObjectsHoldLinks(registry: Registry, value: Tree)
    requires !value.Object?
    ensures DecodeLinks(registry, value).None? && SanitizeLinks(registry, value).None?
  {
  }

  lemma CleanLinksAreSane(registry: Registry, value: Tree)
    requires registry.WellFormed() && CleanLinks(registry, value)
    ensures SaneLinks(registry, Some(value))
  {
    hide CleanLink, ScopeAccepts;
  }

  /** Where a sane links object is not clean, decoding refuses it as well. */
  lemma UncleanLinks(registry: Registry, members: Members)
    requires registry.WellFormed() && !CleanLinks(registry, Object(members))
    ensures SaneLinks(registry, Some(Object(members))) ==> DecodeLinks(registry, Object(members)).None?
  {
    hide CleanLink, StripAtMembers, SanitizeLink, DecodeLink;
    if SaneLinks(registry, Some(Object(members))) {
      var name :| name in members && !IsAtName(name) && DecodeLinksMember(registry, name, members[name]).None? by {
        if ScopeAccepts(registry, LinksObjectScope, members) {
          var name :| name in members && !registry.Registered(LinksObjectScope, name)
            && !CleanLink(registry, members[name]);
          UncleanLink(registry, members[name]);
          assert DecodeLinksMember(registry, name, members[name]).None?;
        } else {
          var name :| name in members && registry.Registered(LinksObjectScope, name)
            && !registry.Accepts(LinksObjectScope, name, StripAtMembers(members[name]));
          assert DecodeLinksMember(registry, name, members[name]).None?;
        }
      }
    }
  }

  lemma UncleanLink(registry: Registry, value: Tree)
    requires registry.WellFormed() && !CleanLink(registry, value)
    ensures DecodeLink(registry, value).None?
  {
    hide CleanLink, SanitizeLink, DecodeLink;
    LinkIsSanitized(registry, value);
    LinkInTwoPasses(registry, value);
  }

  function ReattachedOptionalLinks(sanitized: Option<(Option<Tree>, LinksState)>): Option<Option<Links>> {
    var pair :- sanitized;
    var links :- DecodeOptionalLinks(NO_EXTENSIONS, pair.0);
    Some(AttachOptionalLinks(links, pair.1))
  }

  lemma OptionalLinksInTwoPasses(registry: Registry, value: Option<Tree>)
    requires registry.WellFormed()
    ensures ReattachedOptionalLinks(SanitizeOptionalLinks(registry, value))
      == if SaneLinks(registry, value) then DecodeOptionalLinks(registry, value) else None
  {
    if value.Some? {
      LinksInTwoPasses(registry, value.value);
    }
  }

  // Linkage.

  function ReattachedIdentifier(sanitized: Option<(Tree, Members)>): Option<Identifier> {
    var pair :- sanitized;
    var identifier :- DecodeIdentifier(NO_EXTENSIONS, pair.0);
    Some(identifier.(additional := pair.1))
  }

  lemma IdentifierInTwoPasses(registry: Registry, value: Tree)
    requires registry.WellFormed()
    ensures ReattachedIdentifier(SanitizeObject(registry, IdentifierScope, value)) == DecodeIdentifier(registry, value)
  {
    if value.Object? {
      var rest := WithoutRegistered(registry, IdentifierScope, value.members);
      CoreNamesOfResources();
      CoreMembersRemain(registry, IdentifierScope, value.members);
      NothingRegistered(IdentifierScope, rest);
      assert Get(rest, "type") == Get(value.members, "type");
      assert Get(rest, "id") == Get(value.members, "id");
      assert Get(rest, "lid") == Get(value.members, "lid");
      assert Get(rest, "meta") == Get(value.members, "meta");
    }
  }

  function ReattachedData(sanitized: Option<(Tree, seq<Members>)>): Option<RelationshipData> {
    var pair :- sanitized;
    var data :- DecodeRelationshipData(NO_EXTENSIONS, pair.0);
    Some(AttachIdentifiers(data, pair.1))
  }

  lemma DataInTwoPasses(registry: Registry, value: Tree)
    requires registry.WellFormed()
    ensures ReattachedData(SanitizeIdentifierData(registry, value)) == DecodeRelationshipData(registry, value)
  {
    match value
    case Object(_) =>
      IdentifierInTwoPasses(registry, value);
    case Array(items) =>
      IdentifiersInTwoPasses(registry, items);
    case _ =>
  }

  lemma SanitizedIdentifiersDecode(registry: Registry, items: seq<Tree>, pairs: seq<(Tree, Members)>)
    requires |pairs| == |items|
    requires forall i | 0 <= i < |items| :: ReattachedIdentifier(Some(pairs[i])) == DecodeIdentifier(registry, items[i])
    ensures ReattachedData(Some((Array(Firsts(pairs)), Seconds(pairs)))) == DecodeRelationshipData(registry, Array(items))
  {
    hide DecodeIdentifier;
    if DecodeRelationshipData(registry, Array(items)).Some? {
      var many := DecodeRelationshipData(registry, Array(items)).value.many;
      forall i | 0 <= i < |items|
        ensures DecodeIdentifier(NO_EXTENSIONS, Firsts(pairs)[i]).Some?
        ensures many[i] == DecodeIdentifier(NO_EXTENSIONS, pairs[i].0).value.(additional := pairs[i].1)
      {
        assert ReattachedIdentifier(Some(pairs[i])) == DecodeIdentifier(registry, items[i]);
      }
      assert ReattachedData(Some((Array(Firsts(pairs)), Seconds(pairs)))).value.many == many;
    } else {
      var i :| 0 <= i < |items| && DecodeIdentifier(registry, items[i]).None?;
      assert ReattachedIdentifier(Some(pairs[i])).None?;
      assert DecodeIdentifier(NO_EXTENSIONS, Firsts(pairs)[i]).None?;
    }
  }

  lemma IdentifiersInTwoPasses(registry: Registry, items: seq<Tree>)
    requires registry.WellFormed()
    ensures ReattachedData(SanitizeIdentifierData(registry, Array(items))) == DecodeRelationshipData(registry, Array(items))
  {
    forall i | 0 <= i < |items|
      ensures ReattachedIdentifier(SanitizeObject(registry, IdentifierScope, items[i]))
        == DecodeIdentifier(registry, items[i])
    {
      IdentifierInTwoPasses(registry, items[i]);
    }
    hide DecodeIdentifier, SanitizeObject;
    var sanitized := SanitizeIdentifiers(registry, items);
    if sanitized.Some? {
      SanitizedIdentifiersDecode(registry, items, sanitized.value);
    } else {
      var i :| 0 <= i < |items| && SanitizeObject(registry, IdentifierScope, items[i]).None?;
      assert DecodeIdentifier(registry, items[i]).None?;
    }
  }

  function ReattachedOptionalData(sanitized: Option<(Option<Tree>, seq<Members>)>): Option<Option<RelationshipData>> {
    var pair :- sanitized;
    var data :- DecodeOptionalRelationshipData(NO_EXTENSIONS, pair.0);
    Some(AttachOptionalIdentifiers(data, pair.1))
  }

  lemma OptionalDataInTwoPasses(registry: Registry, value: Option<Tree>)
    requires registry.WellFormed()
    ensures ReattachedOptionalData(SanitizeOptionalIdentifierData(registry, value))
      == DecodeOptionalRelationshipData(registry, value)
  {
    if value.Some? {
      DataInTwoPasses(registry, value.value);
    }
  }

  // Relationships.

  function ReattachedRelationship(sanitized: Option<(Tree, RelationshipState)>): Option<Relationship> {
    var pair :- sanitized;
    var relationship :- DecodeRelationship(NO_EXTENSIONS, pair.0);
    Some(AttachRelationship(relationship, pair.1))
  }

  /** What the core decoder sees of a sanitized relationship object. */
  lemma RelationshipRemains(registry: Registry, members: Members, links: Option<Tree>, data: Option<Tree>)
    requires registry.WellFormed()
    requires links.Some? <==> "links" in members
    requires data.Some? <==> "data" in members
    ensures var rest := WithoutRegistered(registry, RelationshipScope, members);
      var replaced := Replace(Replace(rest, "links", links), "data", data);
      && Get(rest, "links") == Get(members, "links")
      && Get(rest, "data") == Get(members, "data")
      && Get(replaced, "links") == links
      && Get(replaced, "data") == data
      && Get(replaced, "meta") == Get(members, "meta")
  {
    CoreNamesOfResources();
    CoreMembersRemain(registry, RelationshipScope, members);
  }

  lemma RelationshipReassembles(
    registry: Registry, members: Members, replaced: Members, additional: Members,
    links: (Option<Tree>, LinksState), data: (Option<Tree>, seq<Members>))
    requires ExtractMembers(registry, RelationshipScope, members) == Some(additional)
    requires Get(replaced, "links") == links.0
    requires Get(replaced, "data") == data.0
    requires Get(replaced, "meta") == Get(members, "meta")
    requires ReattachedOptionalLinks(Some(links)) == DecodeOptionalLinks(registry, Get(members, "links"))
    requires ReattachedOptionalData(Some(data)) == DecodeOptionalRelationshipData(registry, Get(members, "data"))
    ensures ReattachedRelationship(Some((Object(replaced), RelationshipState(additional, links.1, data.1))))
      == DecodeRelationship(registry, Object(members))
  {
    NothingRegistered(RelationshipScope, replaced);
  }

  lemma RelationshipInTwoPasses(registry: Registry, value: Tree)
    requires registry.WellFormed()
    ensures ReattachedRelationship(SanitizeRelationship(registry, value))
      == if SaneRelationship(registry, value) then DecodeRelationship(registry, value) else None
  {
    if value.Object? {
      var members := value.members;
      RelationshipRemains(registry, members, Get(members, "links"), Get(members, "data"));
      OptionalLinksInTwoPasses(registry, Get(members, "links"));
      OptionalDataInTwoPasses(registry, Get(members, "data"));
      SanitizedRelationshipDecodes(registry, members);
    }
  }

  lemma SanitizedRelationshipDecodes(registry: Registry, members: Members)
    requires registry.WellFormed()
    requires ReattachedOptionalLinks(SanitizeOptionalLinks(registry, Get(members, "links")))
      == if SaneLinks(registry, Get(members, "links")) then DecodeOptionalLinks(registry, Get(members, "links")) else None
    requires ReattachedOptionalData(SanitizeOptionalIdentifierData(registry, Get(members, "data")))
      == DecodeOptionalRelationshipData(registry, Get(members, "data"))
    ensures ReattachedRelationship(SanitizeRelationship(registry, Object(members)))
      == if SaneLinks(registry, Get(members, "links")) then DecodeRelationship(registry, Object(members)) else None
  {
    hide SaneLinks, ExtractMembers, WithoutRegistered, SanitizeLinks, DecodeLinks, DecodeRelationshipData, StripAtMembers;
    hide AttachLinks, AttachIdentifiers, SanitizeIdentifierData;
    RelationshipRemains(registry, members, Get(members, "links"), Get(members, "data"));
    var additional := ExtractMembers(registry, RelationshipScope, members);
    var links := SanitizeOptionalLinks(registry, Get(members, "links"));
    var data := SanitizeOptionalIdentifierData(registry, Get(members, "data"));
    if additional.Some? && links.Some? && data.Some? {
      RelationshipRemains(registry, members, links.value.0, data.value.0);
      var sanitized := SanitizeRelationship(registry, Object(members)).value;
      if SaneLinks(registry, Get(members, "links")) {
        RelationshipReassembles(registry, members, sanitized.0.members, additional.value, links.value, data.value);
      } else {
        assert DecodeOptionalLinks(NO_EXTENSIONS, Get(sanitized.0.members, "links")).None?;
      }
    } else {
      assert SanitizeRelationship(registry, Object(members)).None?;
    }
  }

  function ReattachedRelationships(sanitized: Option<(Tree, map<string, RelationshipState>)>): Option<Relationships> {
    var pair :- sanitized;
    var relationships :- DecodeRelationships(NO_EXTENSIONS, pair.0);
    Some(AttachRelationships(relationships, pair.1))
  }

  /** The pieces of a successful `SanitizeRelationships`, entry by entry. */
  ghost predicate RelationshipsSplit(
    registry: Registry, members: Members, rest: Members, states: map<string, RelationshipState>)
  {
    && rest.Keys == members.Keys == states.Keys
    && forall name | name in members :: SanitizeRelationship(registry, members[name]) == Some((rest[name], states[name]))
  }

  lemma SanitizedRelationshipsSplit(registry: Registry, members: Members)
    ensures match SanitizeRelationships(registry, Object(members))
      case None => exists name :: name in members && SanitizeRelationship(registry, members[name]).None?
      case Some(pair) => pair.0.Object? && RelationshipsSplit(registry, members, pair.0.members, pair.1)
  {
  }

  lemma SplitRelationshipsEntry(
    registry: Registry, members: Members, rest: Members, states: map<string, RelationshipState>, name: string)
    requires registry.WellFormed() && RelationshipsSplit(registry, members, rest, states) && name in members
    ensures !SaneRelationship(registry, members[name]) ==> DecodeRelationship(NO_EXTENSIONS, rest[name]).None?
    ensures SaneRelationship(registry, members[name]) ==>
      && (DecodeRelationship(NO_EXTENSIONS, rest[name]).Some? <==> DecodeRelationship(registry, members[name]).Some?)
      && (DecodeRelationship(NO_EXTENSIONS, rest[name]).Some? ==>
            AttachRelationship(DecodeRelationship(NO_EXTENSIONS, rest[name]).value, states[name])
              == DecodeRelationship(registry, members[name]).value)
  {
    RelationshipInTwoPasses(registry, members[name]);
  }

  lemma SplitRelationshipsAttach(
    registry: Registry, members: Members, rest: Members, states: map<string, RelationshipState>)
    requires registry.WellFormed() && RelationshipsSplit(registry, members, rest, states)
    requires forall name | name in members && !IsAtName(name) :: SaneRelationship(registry, members[name])
    ensures ReattachedRelationships(Some((Object(rest), states))) == DecodeRelationships(registry, Object(members))
  {
    hide SaneRelationship, DecodeRelationship, AttachRelationship, SanitizeRelationship;
    forall name | name in members && !IsAtName(name)
      ensures DecodeRelationship(NO_EXTENSIONS, rest[name]).Some? <==> DecodeRelationship(registry, members[name]).Some?
      ensures DecodeRelationship(NO_EXTENSIONS, rest[name]).Some? ==>
        AttachRelationship(DecodeRelationship(NO_EXTENSIONS, rest[name]).value, states[name])
          == DecodeRelationship(registry, members[name]).value
    {
      SplitRelationshipsEntry(registry, members, rest, states, name);
    }
    var first := DecodeRelationships(NO_EXTENSIONS, Object(rest));
    var whole := DecodeRelationships(registry, Object(members));
    assert first.Some? <==> whole.Some?;
    if whole.Some? {
      assert AttachRelationships(first.value, states) == whole.value;
    }
  }

  lemma RelationshipsInTwoPasses(registry: Registry, value: Tree)
    requires registry.WellFormed()
    ensures ReattachedRelationships(SanitizeRelationships(registry, value))
      == if SaneRelationships(registry, Some(value)) then DecodeRelationships(registry, value) else None
  {
    hide SanitizeRelationship, DecodeRelationship, SaneRelationship, CleanRelationship, AttachRelationship;
    if value.Object? {
      var members := value.members;
      SanitizedRelationshipsSplit(registry, members);
      match SanitizeRelationships(registry, value)
      case Some(pair) =>
        SplitRelationshipsAreClean(registry, members, pair.0.members, pair.1);
        if forall name | name in members && !IsAtName(name) :: SaneRelationship(registry, members[name]) {
          assert SaneRelationships(registry, Some(value));
          SplitRelationshipsAttach(registry, members, pair.0.members, pair.1);
        } else {
          var name :| name in members && !IsAtName(name) && !SaneRelationship(registry, members[name]);
          InsaneRelationshipRefused(registry, members, pair.0.members, pair.1, name);
          assert !SaneRelationships(registry, Some(value));
        }
      case None =>
        UnsanitizedRelationships(registry, members);
    }
  }

  lemma SplitRelationshipsAreClean(
    registry: Registry, members: Members, rest: Members, states: map<string, RelationshipState>)
    requires registry.WellFormed() && RelationshipsSplit(registry, members, rest, states)
    ensures forall name | name in members :: CleanRelationship(registry, members[name])
  {
    hide SanitizeRelationship, CleanRelationship;
    forall name | name in members ensures CleanRelationship(registry, members[name]) {
      RelationshipIsSanitized(registry, members[name]);
    }
  }

  lemma InsaneRelationshipRefused(
    registry: Registry, members: Members, rest: Members, states: map<string, RelationshipState>, name: string)
    requires registry.WellFormed() && RelationshipsSplit(registry, members, rest, states)
    requires name in members && !IsAtName(name) && !SaneRelationship(registry, members[name])
    ensures DecodeRelationships(NO_EXTENSIONS, Object(rest)).None?
  {
    hide SanitizeRelationship, DecodeRelationship, SaneRelationship, AttachRelationship;
    SplitRelationshipsEntry(registry, members, rest, states, name);
  }

  lemma UnsanitizedRelationships(registry: Registry, members: Members)
    requires registry.WellFormed() && SanitizeRelationships(registry, Object(members)).None?
    ensures SaneRelationships(registry, Some(Object(members))) ==> DecodeRelationships(registry, Object(members)).None?
  {
    hide SanitizeRelationship, DecodeRelationship, SaneRelationship, CleanRelationship;
    SanitizedRelationshipsSplit(registry, members);
    var name :| name in members && SanitizeRelationship(registry, members[name]).None?;
    RelationshipIsSanitized(registry, members[name]);
    RelationshipInTwoPasses(registry, members[name]);
  }

  function ReattachedOptionalRelationships(sanitized: Option<(Option<Tree>, map<string, RelationshipState>)>)
    : Option<Option<Relationships>>
  {
    var pair :- sanitized;
    var relationships :- DecodeOptionalRelationships(NO_EXTENSIONS, pair.0);
    Some(AttachOptionalRelationships(relationships, pair.1))
  }

  lemma OptionalRelationshipsInTwoPasses(registry: Registry, value: Option<Tree>)
    requires registry.WellFormed()
    ensures ReattachedOptionalRelationships(SanitizeOptionalRelationships(registry, value))
      == if SaneRelationships(registry, value) then DecodeOptionalRelationships(registry, value) else None
  {
    if value.Some? {
      RelationshipsInTwoPasses(registry, value.value);
    }
  }

  // Resources.

  function ReattachedResource(sanitized: Option<(Tree, ResourceState)>): Option<Resource> {
    var pair :- sanitized;
    var resource :- DecodeResource(NO_EXTENSIONS, pair.0);
    Some(AttachResource(resource, pair.1))
  }

  lemma ResourceLeavesAgree(first: Members, second: Members)
    requires Get(first, "type") == Get(second, "type")
    requires Get(first, "id") == Get(second, "id")
    requires Get(first, "lid") == Get(second, "lid")
    requires Get(first, "attributes") == Get(second, "attributes")
    requires Get(first, "meta") == Get(second, "meta")
    ensures DecodeResourceLeaves(first) == DecodeResourceLeaves(second)
  {
  }

  lemma ResourceRemains(registry: Registry, members: Members, links: Option<Tree>, relationships: Option<Tree>)
    requires registry.WellFormed()
    requires links.Some? <==> "links" in members
    requires relationships.Some? <==> "relationships" in members
    ensures var rest := WithoutRegistered(registry, ResourceScope, members);
      var replaced := Replace(Replace(rest, "links", links), "relationships", relationships);
      && Get(rest, "links") == Get(members, "links")
      && Get(rest, "relationships") == Get(members, "relationships")
      && Get(replaced, "links") == links
      && Get(replaced, "relationships") == relationships
      && DecodeResourceLeaves(replaced) == DecodeResourceLeaves(members)
  {
    var rest := WithoutRegistered(registry, ResourceScope, members);
    CoreNamesOfResources();
    CoreMembersRemain(registry, ResourceScope, members);
    ResourceLeavesAgree(members, Replace(Replace(rest, "links", links), "relationships", relationships));
  }

  lemma ResourceReassembles(
    registry: Registry, members: Members, replaced: Members, additional: Members,
    links: (Option<Tree>, LinksState), relationships: (Option<Tree>, map<string, RelationshipState>))
    requires ExtractMembers(registry, ResourceScope, members) == Some(additional)
    requires Get(replaced, "links") == links.0
    requires Get(replaced, "relationships") == relationships.0
    requires DecodeResourceLeaves(replaced) == DecodeResourceLeaves(members)
    requires ReattachedOptionalLinks(Some(links)) == DecodeOptionalLinks(registry, Get(members, "links"))
    requires ReattachedOptionalRelationships(Some(relationships))
      == DecodeOptionalRelationships(registry, Get(members, "relationships"))
    ensures ReattachedResource(Some((Object(replaced), ResourceState(additional, links.1, relationships.1))))
      == DecodeResource(registry, Object(members))
  {
    NothingRegistered(ResourceScope, replaced);
  }

  lemma SanitizedResourceDecodes(registry: Registry, members: Members)
    requires registry.WellFormed()
    requires ReattachedOptionalLinks(SanitizeOptionalLinks(registry, Get(members, "links")))
      == if SaneLinks(registry, Get(members, "links")) then DecodeOptionalLinks(registry, Get(members, "links")) else None
    requires ReattachedOptionalRelationships(SanitizeOptionalRelationships(registry, Get(members, "relationships")))
      == if SaneRelationships(registry, Get(members, "relationships"))
         then DecodeOptionalRelationships(registry, Get(members, "relationships")) else None
    ensures ReattachedResource(SanitizeResource(registry, Object(members)))
      == if SaneResource(registry, Object(members)) then DecodeResource(registry, Object(members)) else None
  {
    hide SaneLinks, SaneRelationships, ExtractMembers, DecodeResourceLeaves, WithoutRegistered, SanitizeLinks;
    hide SanitizeRelationships, DecodeLinks, DecodeRelationships, StripAtMembers, AttachLinks, AttachRelationships;
    ResourceRemains(registry, members, Get(members, "links"), Get(members, "relationships"));
    var additional := ExtractMembers(registry, ResourceScope, members);
    var links := SanitizeOptionalLinks(registry, Get(members, "links"));
    var relationships := SanitizeOptionalRelationships(registry, Get(members, "relationships"));
    if additional.Some? && links.Some? && relationships.Some? {
      ResourceRemains(registry, members, links.value.0, relationships.value.0);
      var sanitized := SanitizeResource(registry, Object(members)).value;
      if SaneResource(registry, Object(members)) {
        ResourceReassembles(
          registry, members, sanitized.0.members, additional.value, links.value, relationships.value);
      } else if SaneLinks(registry, Get(members, "links")) {
        assert DecodeOptionalRelationships(NO_EXTENSIONS, Get(sanitized.0.members, "relationships")).None?;
      } else {
        assert DecodeOptionalLinks(NO_EXTENSIONS, Get(sanitized.0.members, "links")).None?;
      }
    } else {
      assert SanitizeResource(registry, Object(members)).None?;
    }
  }

  lemma ResourceInTwoPasses(registry: Registry, value: Tree)
    requires registry.WellFormed()
    ensures ReattachedResource(SanitizeResource(registry, value))
      == if SaneResource(registry, value) then DecodeResource(registry, value) else None
  {
    if value.Object? {
      OptionalLinksInTwoPasses(registry, Get(value.members, "links"));
      OptionalRelationshipsInTwoPasses(registry, Get(value.members, "relationships"));
      SanitizedResourceDecodes(registry, value.members);
    }
  }

  function ReattachedResources(sanitized: Option<(Tree, seq<ResourceState>)>): Option<seq<Resource>> {
    var pair :- sanitized;
    var resources :- DecodeResources(NO_EXTENSIONS, pair.0);
    Some(AttachResources(resources, pair.1))
  }

  lemma ResourcesInTwoPasses(registry: Registry, value: Tree)
    requires registry.WellFormed()
    ensures ReattachedResources(SanitizeResources(registry, value))
      == if SaneResources(registry, value) then DecodeResources(registry, value) else None
  {
    if value.Array? {
      var items := value.items;
      forall i | 0 <= i < |items|
        ensures ReattachedResource(SanitizeResource(registry, items[i]))
          == if SaneResource(registry, items[i]) then DecodeResource(registry, items[i]) else None
      {
        ResourceInTwoPasses(registry, items[i]);
      }
      var sanitized := Each(item => SanitizeResource(registry, item), items);
      if sanitized.None? {
        var i :| 0 <= i < |items| && SanitizeResource(registry, items[i]).None?;
        assert !SaneResource(registry, items[i]) || DecodeResource(registry, items[i]).None?;
      } else {
        SanitizedResourcesDecode(registry, items, sanitized.value);
      }
    }
  }

  lemma SanitizedResourcesDecode(registry: Registry, items: seq<Tree>, pairs: seq<(Tree, ResourceState)>)
    requires |pairs| == |items|
    requires forall i | 0 <= i < |items| ::
      ReattachedResource(Some(pairs[i]))
        == if SaneResource(registry, items[i]) then DecodeResource(registry, items[i]) else None
    ensures ReattachedResources(Some((Array(Firsts(pairs)), Seconds(pairs))))
      == if SaneResources(registry, Array(items)) then DecodeResources(registry, Array(items)) else None
  {
    var first := DecodeResources(NO_EXTENSIONS, Array(Firsts(pairs)));
    if i :| 0 <= i < |items| && DecodeResource(NO_EXTENSIONS, pairs[i].0).None? {
      assert Firsts(pairs)[i] == pairs[i].0;
      assert first.None?;
      assert !SaneResource(registry, items[i]) || DecodeResource(registry, items[i]).None?;
    } else {
      assert forall i | 0 <= i < |items| :: ReattachedResource(Some(pairs[i])).Some?;
      assert AttachResources(first.value, Seconds(pairs)) == DecodeResources(registry, Array(items)).value;
    }
  }

  function ReattachedOptionalResources(sanitized: Option<(Option<Tree>, seq<ResourceState>)>)
    : Option<Option<seq<Resource>>>
  {
    var pair :- sanitized;
    var resources :- DecodeOptionalResources(NO_EXTENSIONS, pair.0);
    Some(AttachOptionalResources(resources, pair.1))
  }

  predicate SaneOptionalResources(registry: Registry, value: Option<Tree>) {
    value.Some? ==> SaneResources(registry, value.value)
  }

  lemma OptionalResourcesInTwoPasses(registry: Registry, value: Option<Tree>)
    requires registry.WellFormed()
    ensures ReattachedOptionalResources(SanitizeOptionalResources(registry, value))
      == if SaneOptionalResources(registry, value) then DecodeOptionalResources(registry, value) else None
  {
    if value.Some? {
      ResourcesInTwoPasses(registry, value.value);
    }
  }

  function ReattachedOptionalPrimaryData(sanitized: Option<(Option<Tree>, seq<ResourceState>)>)
    : Option<Option<PrimaryData>>
  {
    var pair :- sanitized;
    var data :- DecodeOptionalPrimaryData(NO_EXTENSIONS, pair.0);
    Some(AttachOptionalPrimaryData(data, pair.1))
  }

  predicate SanePrimaryData(registry: Registry, value: Option<Tree>) {
    value.Some? ==> SaneResource(registry, value.value) && SaneResources(registry, value.value)
  }

  function ReattachedPrimaryData(sanitized: Option<(Tree, seq<ResourceState>)>): Option<PrimaryData> {
    var pair :- sanitized;
    var data :- DecodePrimaryData(NO_EXTENSIONS, pair.0);
    Some(AttachPrimaryData(data, pair.1))
  }

  lemma ResourceDataInTwoPasses(registry: Registry, value: Tree)
    requires registry.WellFormed() && value.Object?
    ensures ReattachedPrimaryData(SanitizePrimaryData(registry, value))
      == if SaneResource(registry, value) then DecodePrimaryData(registry, value) else None
  {
    hide DecodeResource, AttachResource, SaneLinks, SaneRelationships, WithoutRegistered, ExtractMembers;
    ResourceInTwoPasses(registry, value);
  }

  lemma ResourceCollectionInTwoPasses(registry: Registry, value: Tree)
    requires registry.WellFormed() && value.Array?
    ensures ReattachedPrimaryData(SanitizePrimaryData(registry, value))
      == if SaneResources(registry, value) then DecodePrimaryData(registry, value) else None
  {
    ResourcesInTwoPasses(registry, value);
  }

  lemma PrimaryDataInTwoPasses(registry: Registry, value: Option<Tree>)
    requires registry.WellFormed()
    ensures ReattachedOptionalPrimaryData(SanitizeOptionalPrimaryData(registry, value))
      == if SanePrimaryData(registry, value) then DecodeOptionalPrimaryData(registry, value) else None
  {
    if value.Some? {
      match value.value
      case Array(_) =>
        ResourceCollectionInTwoPasses(registry, value.value);
      case Object(_) =>
        ResourceDataInTwoPasses(registry, value.value);
      case _ =>
    }
  }

  // Errors.

  function ReattachedErrorSource(sanitized: Option<(Option<Tree>, Members)>): Option<Option<ErrorSource>> {
    var pair :- sanitized;
    var source :- DecodeOptionalErrorSource(NO_EXTENSIONS, pair.0);
    Some(AttachErrorSource(source, pair.1))
  }

  lemma ErrorSourceInTwoPasses(registry: Registry, value: Option<Tree>)
    requires registry.WellFormed()
    ensures ReattachedErrorSource(SanitizeOptionalObject(registry, ErrorSourceScope, value))
      == DecodeOptionalErrorSource(registry, value)
  {
    if value.Some? && value.value.Object? {
      var members := value.value.members;
      var rest := WithoutRegistered(registry, ErrorSourceScope, members);
      CoreNamesOfErrors();
      CoreMembersRemain(registry, ErrorSourceScope, members);
      NothingRegistered(ErrorSourceScope, rest);
      assert Get(rest, "pointer") == Get(members, "pointer");
      assert Get(rest, "parameter") == Get(members, "parameter");
      assert Get(rest, "header") == Get(members, "header");
    }
  }

  function ReattachedError(sanitized: Option<(Tree, ErrorState)>): Option<ErrorObject> {
    var pair :- sanitized;
    var error :- DecodeError(NO_EXTENSIONS, pair.0);
    Some(AttachError(error, pair.1))
  }

  lemma ErrorLeavesAgree(first: Members, second: Members)
    requires Get(first, "id") == Get(second, "id")
    requires Get(first, "status") == Get(second, "status")
    requires Get(first, "code") == Get(second, "code")
    requires Get(first, "title") == Get(second, "title")
    requires Get(first, "detail") == Get(second, "detail")
    requires Get(first, "meta") == Get(second, "meta")
    ensures DecodeErrorLeaves(first) == DecodeErrorLeaves(second)
  {
  }

  lemma ErrorRemains(registry: Registry, members: Members, links: Option<Tree>, source: Option<Tree>)
    requires registry.WellFormed()
    requires links.Some? <==> "links" in members
    requires source.Some? <==> "source" in members
    ensures var rest := WithoutRegistered(registry, ErrorScope, members);
      var replaced := Replace(Replace(rest, "links", links), "source", source);
      && Get(rest, "links") == Get(members, "links")
      && Get(rest, "source") == Get(members, "source")
      && Get(replaced, "links") == links
      && Get(replaced, "source") == source
      && DecodeErrorLeaves(replaced) == DecodeErrorLeaves(members)
  {
    var rest := WithoutRegistered(registry, ErrorScope, members);
    CoreNamesOfErrors();
    CoreMembersRemain(registry, ErrorScope, members);
    ErrorLeavesAgree(members, Replace(Replace(rest, "links", links), "source", source));
  }

  lemma ErrorReassembles(
    registry: Registry, members: Members, replaced: Members, additional: Members,
    links: (Option<Tree>, LinksState), source: (Option<Tree>, Members))
    requires ExtractMembers(registry, ErrorScope, members) == Some(additional)
    requires Get(replaced, "links") == links.0
    requires Get(replaced, "source") == source.0
    requires DecodeErrorLeaves(replaced) == DecodeErrorLeaves(members)
    requires ReattachedOptionalLinks(Some(links)) == DecodeOptionalLinks(registry, Get(members, "links"))
    requires ReattachedErrorSource(Some(source)) == DecodeOptionalErrorSource(registry, Get(members, "source"))
    ensures ReattachedError(Some((Object(replaced), ErrorState(additional, source.1, links.1))))
      == DecodeError(registry, Object(members))
  {
    NothingRegistered(ErrorScope, replaced);
  }

  lemma SanitizedErrorDecodes(registry: Registry, members: Members)
    requires registry.WellFormed()
    requires ReattachedOptionalLinks(SanitizeOptionalLinks(registry, Get(members, "links")))
      == if SaneLinks(registry, Get(members, "links")) then DecodeOptionalLinks(registry, Get(members, "links")) else None
    requires ReattachedErrorSource(SanitizeOptionalObject(registry, ErrorSourceScope, Get(members, "source")))
      == DecodeOptionalErrorSource(registry, Get(members, "source"))
    ensures ReattachedError(SanitizeError(registry, Object(members)))
      == if SaneError(registry, Object(members)) then DecodeError(registry, Object(members)) else None
  {
    hide SaneLinks, ExtractMembers, WithoutRegistered, SanitizeLinks, DecodeLinks, DecodeErrorSource, StripAtMembers;
    hide AttachLinks, AttachErrorSource, DecodeErrorLeaves;
    ErrorRemains(registry, members, Get(members, "links"), Get(members, "source"));
    var additional := ExtractMembers(registry, ErrorScope, members);
    var links := SanitizeOptionalLinks(registry, Get(members, "links"));
    var source := SanitizeOptionalObject(registry, ErrorSourceScope, Get(members, "source"));
    if additional.Some? && links.Some? && source.Some? {
      ErrorRemains(registry, members, links.value.0, source.value.0);
      var sanitized := SanitizeError(registry, Object(members)).value;
      if SaneError(registry, Object(members)) {
        ErrorReassembles(registry, members, sanitized.0.members, additional.value, links.value, source.value);
      } else {
        assert DecodeOptionalLinks(NO_EXTENSIONS, Get(sanitized.0.members, "links")).None?;
      }
    } else {
      assert SanitizeError(registry, Object(members)).None?;
    }
  }

  lemma ErrorInTwoPasses(registry: Registry, value: Tree)
    requires registry.WellFormed()
    ensures ReattachedError(SanitizeError(registry, value))
      == if SaneError(registry, value) then DecodeError(registry, value) else None
  {
    if value.Object? {
      OptionalLinksInTwoPasses(registry, Get(value.members, "links"));
      ErrorSourceInTwoPasses(registry, Get(value.members, "source"));
      SanitizedErrorDecodes(registry, value.members);
    }
  }

  function ReattachedOptionalErrors(sanitized: Option<(Option<Tree>, seq<ErrorState>)>)
    : Option<Option<seq<ErrorObject>>>
  {
    var pair :- sanitized;
    var errors :- DecodeOptionalErrors(NO_EXTENSIONS, pair.0);
    Some(AttachOptionalErrors(errors, pair.1))
  }

  predicate SaneOptionalErrors(registry: Registry, value: Option<Tree>) {
    value.Some? ==> SaneErrors(registry, value.value)
  }

  lemma SanitizedErrorsDecode(registry: Registry, items: seq<Tree>, pairs: seq<(Tree, ErrorState)>)
    requires |pairs| == |items|
    requires forall i | 0 <= i < |items| ::
      ReattachedError(Some(pairs[i])) == if SaneError(registry, items[i]) then DecodeError(registry, items[i]) else None
    ensures ReattachedOptionalErrors(Some((Some(Array(Firsts(pairs))), Seconds(pairs))))
      == if SaneErrors(registry, Array(items)) then DecodeOptionalErrors(registry, Some(Array(items))) else None
  {
    var first := DecodeErrors(NO_EXTENSIONS, Array(Firsts(pairs)));
    if i :| 0 <= i < |items| && DecodeError(NO_EXTENSIONS, pairs[i].0).None? {
      assert Firsts(pairs)[i] == pairs[i].0;
      assert first.None?;
      assert !SaneError(registry, items[i]) || DecodeError(registry, items[i]).None?;
    } else {
      assert forall i | 0 <= i < |items| :: ReattachedError(Some(pairs[i])).Some?;
      assert AttachErrors(first.value, Seconds(pairs)) == DecodeErrors(registry, Array(items)).value;
    }
  }

  lemma OptionalErrorsInTwoPasses(registry: Registry, value: Option<Tree>)
    requires registry.WellFormed()
    ensures ReattachedOptionalErrors(SanitizeOptionalErrors(registry, value))
      == if SaneOptionalErrors(registry, value) then DecodeOptionalErrors(registry, value) else None
  {
    if value.Some? && value.value.Array? {
      var items := value.value.items;
      forall i | 0 <= i < |items|
        ensures ReattachedError(SanitizeError(registry, items[i]))
          == if SaneError(registry, items[i]) then DecodeError(registry, items[i]) else None
      {
        ErrorInTwoPasses(registry, items[i]);
      }
      var sanitized := Each(item => SanitizeError(registry, item), items);
      if sanitized.None? {
        var i :| 0 <= i < |items| && SanitizeError(registry, items[i]).None?;
        assert !SaneError(registry, items[i]) || DecodeError(registry, items[i]).None?;
      } else {
        SanitizedErrorsDecode(registry, items, sanitized.value);
      }
    }
  }

  // Documents.

  function ReattachedJSONAPI(sanitized: Option<(Option<Tree>, Members)>): Option<Option<JSONAPI>> {
    var pair :- sanitized;
    var jsonapi :- DecodeOptionalJSONAPI(NO_EXTENSIONS, pair.0);
    Some(AttachJSONAPI(jsonapi, pair.1))
  }

  lemma JSONAPIInTwoPasses(registry: Registry, value: Option<Tree>)
    requires registry.WellFormed()
    ensures ReattachedJSONAPI(SanitizeOptionalObject(registry, JSONAPIScope, value))
      == DecodeOptionalJSONAPI(registry, value)
  {
    if value.Some? && value.value.Object? {
      var members := value.value.members;
      var rest := WithoutRegistered(registry, JSONAPIScope, members);
      CoreNamesOfDocuments();
      CoreMembersRemain(registry, JSONAPIScope, members);
      NothingRegistered(JSONAPIScope, rest);
      assert Get(rest, "version") == Get(members, "version");
      assert Get(rest, "ext") == Get(members, "ext");
      assert Get(rest, "profile") == Get(members, "profile");
      assert Get(rest, "meta") == Get(members, "meta");
    }
  }

  /** The containers named with a leading `@` are well formed wherever a sanitizer enters them. */
  predicate SaneDocument(registry: Registry, value: Tree) {
    value.Object? ==>
      && SaneLinks(registry, Get(value.members, "links"))
      && SanePrimaryData(registry, Get(value.members, "data"))
      && SaneOptionalResources(registry, Get(value.members, "included"))
      && SaneOptionalErrors(registry, Get(value.members, "errors"))
  }

  /** `members` after its top-level containers were sanitized. */
  function Replaced(
    registry: Registry, members: Members, jsonapi: Option<Tree>, links: Option<Tree>,
    data: Option<Tree>, included: Option<Tree>, errors: Option<Tree>): Members
  {
    Replace(Replace(Replace(Replace(Replace(WithoutRegistered(registry, TopLevelScope, members),
      "jsonapi", jsonapi),
      "links", links),
      "data", data),
      "included", included),
      "errors", errors)
  }

  lemma DocumentRest(registry: Registry, members: Members)
    requires registry.WellFormed()
    ensures var rest := WithoutRegistered(registry, TopLevelScope, members);
      && Get(rest, "jsonapi") == Get(members, "jsonapi")
      && Get(rest, "links") == Get(members, "links")
      && Get(rest, "data") == Get(members, "data")
      && Get(rest, "included") == Get(members, "included")
      && Get(rest, "errors") == Get(members, "errors")
      && Get(rest, "meta") == Get(members, "meta")
  {
    CoreNamesOfDocuments();
    CoreMembersRemain(registry, TopLevelScope, members);
  }

  lemma DocumentRemains(
    registry: Registry, members: Members, jsonapi: Option<Tree>, links: Option<Tree>,
    data: Option<Tree>, included: Option<Tree>, errors: Option<Tree>)
    requires registry.WellFormed()
    requires jsonapi.Some? <==> "jsonapi" in members
    requires links.Some? <==> "links" in members
    requires data.Some? <==> "data" in members
    requires included.Some? <==> "included" in members
    requires errors.Some? <==> "errors" in members
    ensures var replaced := Replaced(registry, members, jsonapi, links, data, included, errors);
      && Get(replaced, "jsonapi") == jsonapi
      && Get(replaced, "links") == links
      && Get(replaced, "data") == data
      && Get(replaced, "included") == included
      && Get(replaced, "errors") == errors
      && Get(replaced, "meta") == Get(members, "meta")
  {
    DocumentRest(registry, members);
  }

  /** What each sanitizer took from one document, before the core decoder runs. */
  datatype Parts = Parts(
    jsonapi: (Option<Tree>, Members),
    links: (Option<Tree>, LinksState),
    data: (Option<Tree>, seq<ResourceState>),
    included: (Option<Tree>, seq<ResourceState>),
    errors: (Option<Tree>, seq<ErrorState>))

  ghost predicate PartsOf(registry: Registry, members: Members, parts: Parts) {
    && SanitizeOptionalObject(registry, JSONAPIScope, Get(members, "jsonapi")) == Some(parts.jsonapi)
    && SanitizeOptionalLinks(registry, Get(members, "links")) == Some(parts.links)
    && SanitizeOptionalPrimaryData(registry, Get(members, "data")) == Some(parts.data)
    && SanitizeOptionalResources(registry, Get(members, "included")) == Some(parts.included)
    && SanitizeOptionalErrors(registry, Get(members, "errors")) == Some(parts.errors)
  }

  lemma SanitizedDocumentParts(registry: Registry, members: Members)
    requires registry.WellFormed()
    ensures match SanitizeDocument(registry, Object(members))
      case None =>
        || ExtractMembers(registry, TopLevelScope, members).None?
        || SanitizeOptionalObject(registry, JSONAPIScope, Get(members, "jsonapi")).None?
        || SanitizeOptionalLinks(registry, Get(members, "links")).None?
        || SanitizeOptionalPrimaryData(registry, Get(members, "data")).None?
        || SanitizeOptionalResources(registry, Get(members, "included")).None?
        || SanitizeOptionalErrors(registry, Get(members, "errors")).None?
      case Some(pair) =>
        exists parts ::
          && PartsOf(registry, members, parts)
          && ExtractMembers(registry, TopLevelScope, members) == Some(pair.1.members)
          && pair.0 == Object(Replaced(registry, members, parts.jsonapi.0, parts.links.0, parts.data.0,
                                parts.included.0, parts.errors.0))
          && pair.1 == DocumentState(pair.1.members, parts.jsonapi.1, parts.links.1, parts.data.1,
                         parts.included.1, parts.errors.1)
  {
    DocumentRest(registry, members);
    if SanitizeDocument(registry, Object(members)).Some? {
      var parts := Parts(
        SanitizeOptionalObject(registry, JSONAPIScope, Get(members, "jsonapi")).value,
        SanitizeOptionalLinks(registry, Get(members, "links")).value,
        SanitizeOptionalPrimaryData(registry, Get(members, "data")).value,
        SanitizeOptionalResources(registry, Get(members, "included")).value,
        SanitizeOptionalErrors(registry, Get(members, "errors")).value);
      assert PartsOf(registry, members, parts);
    }
  }

  lemma PartsInTwoPasses(registry: Registry, members: Members, parts: Parts)
    requires registry.WellFormed() && PartsOf(registry, members, parts)
    ensures ReattachedJSONAPI(Some(parts.jsonapi)) == DecodeOptionalJSONAPI(registry, Get(members, "jsonapi"))
    ensures ReattachedOptionalLinks(Some(parts.links))
      == if SaneLinks(registry, Get(members, "links")) then DecodeOptionalLinks(registry, Get(members, "links")) else None
    ensures ReattachedOptionalPrimaryData(Some(parts.data))
      == if SanePrimaryData(registry, Get(members, "data"))
         then DecodeOptionalPrimaryData(registry, Get(members, "data")) else None
    ensures ReattachedOptionalResources(Some(parts.included))
      == if SaneOptionalResources(registry, Get(members, "included"))
         then DecodeOptionalResources(registry, Get(members, "included")) else None
    ensures ReattachedOptionalErrors(Some(parts.errors))
      == if SaneOptionalErrors(registry, Get(members, "errors"))
         then DecodeOptionalErrors(registry, Get(members, "errors")) else None
  {
    JSONAPIInTwoPasses(registry, Get(members, "jsonapi"));
    OptionalLinksInTwoPasses(registry, Get(members, "links"));
    PrimaryDataInTwoPasses(registry, Get(members, "data"));
    OptionalResourcesInTwoPasses(registry, Get(members, "included"));
    OptionalErrorsInTwoPasses(registry, Get(members, "errors"));
  }

  function ReattachedDocument(sanitized: Option<(Tree, DocumentState)>): Option<Document> {
    var pair :- sanitized;
    var document :- DecodeDocument(NO_EXTENSIONS, pair.0);
    Some(AttachDocument(document, pair.1))
  }

  lemma DocumentReassembles(registry: Registry, members: Members, replaced: Members, additional: Members, parts: Parts)
    requires ExtractMembers(registry, TopLevelScope, members) == Some(additional)
    requires Get(replaced, "jsonapi") == parts.jsonapi.0
    requires Get(replaced, "links") == parts.links.0
    requires Get(replaced, "data") == parts.data.0
    requires Get(replaced, "included") == parts.included.0
    requires Get(replaced, "errors") == parts.errors.0
    requires Get(replaced, "meta") == Get(members, "meta")
    requires ReattachedJSONAPI(Some(parts.jsonapi)) == DecodeOptionalJSONAPI(registry, Get(members, "jsonapi"))
    requires ReattachedOptionalLinks(Some(parts.links)) == DecodeOptionalLinks(registry, Get(members, "links"))
    requires ReattachedOptionalPrimaryData(Some(parts.data)) == DecodeOptionalPrimaryData(registry, Get(members, "data"))
    requires ReattachedOptionalResources(Some(parts.included)) == DecodeOptionalResources(registry, Get(members, "included"))
    requires ReattachedOptionalErrors(Some(parts.errors)) == DecodeOptionalErrors(registry, Get(members, "errors"))
    ensures ReattachedDocument(Some((Object(replaced), DocumentState(additional, parts.jsonapi.1, parts.links.1,
        parts.data.1, parts.included.1, parts.errors.1))))
      == DecodeDocument(registry, Object(members))
  {
    hide ExtractMembers, DecodeJSONAPI, DecodeLinks, DecodePrimaryData, DecodeResources, DecodeErrors;
    hide StripAtMembers, StripMembers, AttachLinks, AttachPrimaryData, AttachResources, AttachErrors;
    NothingRegistered(TopLevelScope, replaced);
  }

  /**
    Extraction, core decoding and reattachment together are the one-pass decoder that keeps
    registered members in place; the only other outcome is the refusal of a malformed container
    named with a leading `@`.
   */
  lemma TwoPassesAreOnePass(registry: Registry, value: Tree)
    requires registry.WellFormed()
    ensures DecodeInTwoPasses(registry, value)
      == if SaneDocument(registry, value) then DecodeDocument(registry, value) else None
  {
    assert DecodeInTwoPasses(registry, value) == ReattachedDocument(SanitizeDocument(registry, value));
    if value.Object? {
      var members := value.members;
      SanitizedDocumentParts(registry, members);
      match SanitizeDocument(registry, value)
      case None =>
        UnsanitizedDocument(registry, members);
      case Some(pair) =>
        var parts :|
          && PartsOf(registry, members, parts)
          && pair.0 == Object(Replaced(registry, members, parts.jsonapi.0, parts.links.0, parts.data.0,
                                parts.included.0, parts.errors.0))
          && pair.1 == DocumentState(pair.1.members, parts.jsonapi.1, parts.links.1, parts.data.1,
                         parts.included.1, parts.errors.1);
        SanitizedDocumentDecodes(registry, members, pair.0.members, pair.1.members, parts);
    }
  }

  lemma SanitizedDocumentDecodes(
    registry: Registry, members: Members, replaced: Members, additional: Members, parts: Parts)
    requires registry.WellFormed() && PartsOf(registry, members, parts)
    requires ExtractMembers(registry, TopLevelScope, members) == Some(additional)
    requires replaced == Replaced(registry, members, parts.jsonapi.0, parts.links.0, parts.data.0,
                           parts.included.0, parts.errors.0)
    ensures ReattachedDocument(Some((Object(replaced), DocumentState(additional, parts.jsonapi.1, parts.links.1,
        parts.data.1, parts.included.1, parts.errors.1))))
      == if SaneDocument(registry, Object(members)) then DecodeDocument(registry, Object(members)) else None
  {
    hide SaneLinks, SanePrimaryData, SaneOptionalResources, SaneOptionalErrors, DecodeJSONAPI, DecodeLinks;
    hide DecodePrimaryData, DecodeResources, DecodeErrors, AttachDocument, StripAtMembers;
    DocumentRemains(registry, members, parts.jsonapi.0, parts.links.0, parts.data.0, parts.included.0, parts.errors.0);
    PartsInTwoPasses(registry, members, parts);
    if SaneDocument(registry, Object(members)) {
      DocumentReassembles(registry, members, replaced, additional, parts);
    } else {
      InsaneDocumentRefused(registry, members, replaced, parts);
    }
  }

  lemma InsaneDocumentRefused(registry: Registry, members: Members, replaced: Members, parts: Parts)
    requires registry.WellFormed() && PartsOf(registry, members, parts)
    requires !SaneDocument(registry, Object(members))
    requires Get(replaced, "links") == parts.links.0
    requires Get(replaced, "data") == parts.data.0
    requires Get(replaced, "included") == parts.included.0
    requires Get(replaced, "errors") == parts.errors.0
    ensures DecodeDocument(NO_EXTENSIONS, Object(replaced)).None?
  {
    if !SaneLinks(registry, Get(members, "links")) {
      OptionalLinksInTwoPasses(registry, Get(members, "links"));
      assert DecodeOptionalLinks(NO_EXTENSIONS, Get(replaced, "links")).None?;
    } else if !SanePrimaryData(registry, Get(members, "data")) {
      PrimaryDataInTwoPasses(registry, Get(members, "data"));
      assert DecodeOptionalPrimaryData(NO_EXTENSIONS, Get(replaced, "data")).None?;
    } else if !SaneOptionalResources(registry, Get(members, "included")) {
      OptionalResourcesInTwoPasses(registry, Get(members, "included"));
      assert DecodeOptionalResources(NO_EXTENSIONS, Get(replaced, "included")).None?;
    } else {
      OptionalErrorsInTwoPasses(registry, Get(members, "errors"));
      assert DecodeOptionalErrors(NO_EXTENSIONS, Get(replaced, "errors")).None?;
    }
  }

  lemma UnsanitizedDocument(registry: Registry, members: Members)
    requires registry.WellFormed() && SanitizeDocument(registry, Object(members)).None?
    ensures SaneDocument(registry, Object(members)) ==> DecodeDocument(registry, Object(members)).None?
  {
    SanitizedDocumentParts(registry, members);
    JSONAPIInTwoPasses(registry, Get(members, "jsonapi"));
    OptionalLinksInTwoPasses(registry, Get(members, "links"));
    PrimaryDataInTwoPasses(registry, Get(members, "data"));
    OptionalResourcesInTwoPasses(registry, Get(members, "included"));
    OptionalErrorsInTwoPasses(registry, Get(members, "errors"));
  }
}
