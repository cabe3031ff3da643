/**
  What the sanitizers of the configured codec accept, read off the tree: every registered member of
  every object they enter passes its validator, and the objects they enter are objects.
 */
module Containers {
  import opened Documents
  import opened Registries
  import opened Decoder
  import opened RoundTrip
  import opened MemberCodec

  /** No member that is registered for the scope is refused. */
  predicate ScopeAccepts(registry: Registry, scope: Scope, members: Members) {
    forall name | name in members && registry.Registered(scope, name) ::
      registry.Accepts(scope, name, StripAtMembers(members[name]))
  }

  /** Along the chain of `describedby` objects. */
  predicate CleanLink(registry: Registry, value: Tree) {
    value.Object? ==>
      && ScopeAccepts(registry, LinkObjectScope, value.members)
      && ("describedby" in value.members ==> CleanLink(registry, value.members["describedby"]))
  }

  predicate CleanLinks(registry: Registry, value: Tree) {
    && value.Object? && ScopeAccepts(registry, LinksObjectScope, value.members)
    && forall name | name in value.members && !registry.Registered(LinksObjectScope, name) ::
         CleanLink(registry, value.members[name])
  }

  predicate CleanIdentifier(registry: Registry, value: Tree) {
    value.Object? && ScopeAccepts(registry, IdentifierScope, value.members)
  }

  predicate CleanLinkage(registry: Registry, value: Tree) {
    match value
    case Object(_) => CleanIdentifier(registry, value)
    case Array(items) => forall i | 0 <= i < |items| :: CleanIdentifier(registry, items[i])
    case _ => true
  }

  predicate CleanRelationship(registry: Registry, value: Tree) {
    && value.Object? && ScopeAccepts(registry, RelationshipScope, value.members)
    && ("links" in value.members ==> CleanLinks(registry, value.members["links"]))
    && ("data" in value.members ==> CleanLinkage(registry, value.members["data"]))
  }

  lemma ScopeIsSanitized(registry: Registry, scope: Scope, value: Tree)
    ensures SanitizeObject(registry, scope, value).Some? <==>
      value.Object? && ScopeAccepts(registry, scope, value.members)
  {
  }

  lemma CoreMembersRemain(registry: Registry, scope: Scope, members: Members)
    requires registry.WellFormed()
    ensures forall name {:trigger Get(WithoutRegistered(registry, scope, members), name)} ::
      CoreName(name) ==> Get(WithoutRegistered(registry, scope, members), name) == Get(members, name)
  {
  }

  lemma {:induction false} LinkIsSanitized(registry: Registry, value: Tree)
    requires registry.WellFormed()
    ensures SanitizeLink(registry, value).Some? <==> CleanLink(registry, value)
  {
    hide StripAtMembers;
    if value.Object? {
      CoreNamesOfLinks();
      CoreMembersRemain(registry, LinkObjectScope, value.members);
      assert Get(WithoutRegistered(registry, LinkObjectScope, value.members), "describedby")
        == Get(value.members, "describedby");
      if "describedby" in value.members {
        LinkIsSanitized(registry, value.members["describedby"]);
      }
    }
  }

  lemma LinksAreSanitized(registry: Registry, value: Tree)
    requires registry.WellFormed()
    ensures SanitizeLinks(registry, value).Some? <==> CleanLinks(registry, value)
  {
    hide SanitizeLink, CleanLink, StripAtMembers;
    ScopeIsSanitized(registry, LinksObjectScope, value);
    if value.Object? {
      var rest := WithoutRegistered(registry, LinksObjectScope, value.members);
      forall name | name in rest ensures SanitizeLink(registry, rest[name]).Some? <==> CleanLink(registry, rest[name]) {
        LinkIsSanitized(registry, rest[name]);
      }
      assert forall name | name in value.members && !registry.Registered(LinksObjectScope, name) :: name in rest;
    }
  }

  lemma LinkageIsSanitized(registry: Registry, value: Tree)
    ensures SanitizeIdentifierData(registry, value).Some? <==> CleanLinkage(registry, value)
  {
    hide SanitizeObject, ScopeAccepts;
    match value
    case Object(_) => ScopeIsSanitized(registry, IdentifierScope, value);
    case Array(items) =>
      forall i | 0 <= i < |items|
        ensures SanitizeObject(registry, IdentifierScope, items[i]).Some? <==> CleanIdentifier(registry, items[i])
      {
        ScopeIsSanitized(registry, IdentifierScope, items[i]);
      }
    case _ =>
  }

  lemma RelationshipIsSanitized(registry: Registry, value: Tree)
    requires registry.WellFormed()
    ensures SanitizeRelationship(registry, value).Some? <==> CleanRelationship(registry, value)
  {
    hide SanitizeLinks, SanitizeIdentifierData, CleanLinks, CleanLinkage, ScopeAccepts;
    ScopeIsSanitized(registry, RelationshipScope, value);
    if value.Object? {
      var members := value.members;
      var rest := WithoutRegistered(registry, RelationshipScope, members);
      CoreNamesOfResources();
      CoreMembersRemain(registry, RelationshipScope, members);
      assert Get(rest, "links") == Get(members, "links") && Get(rest, "data") == Get(members, "data");
      if "links" in members {
        LinksAreSanitized(registry, members["links"]);
      }
      if "data" in members {
        LinkageIsSanitized(registry, members["data"]);
      }
    }
  }
}
