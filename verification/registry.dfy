/**
  Scoped member registration: the names an extension may add to each kind of object.
 */
module Registries {
  import opened Documents

  datatype Scope =
    | TopLevelScope
    | ResourceScope
    | RelationshipScope
    | IdentifierScope
    | JSONAPIScope
    | ErrorScope
    | ErrorSourceScope
    | LinksObjectScope
    | LinkObjectScope

  /** `rules[scope][name]` is the value validator of a registered member. */
  datatype Registry = Registry(rules: map<Scope, map<string, Tree -> bool>>) {
    predicate Registered(scope: Scope, name: string) {
      scope in rules && name in rules[scope]
    }

    predicate Accepts(scope: Scope, name: string, value: Tree)
      requires Registered(scope, name)
    {
      rules[scope][name](value)
    }

    /** What `NewCodec` enforces: every registered name carries its namespace prefix. */
    ghost predicate WellFormed() {
      forall scope, name :: Registered(scope, name) ==> !IsAtName(name) && ':' in name
    }
  }

  const NO_EXTENSIONS := Registry(map[])

  /** Removes members named with a leading `@` at every depth. */
  function StripAtMembers(value: Tree): Tree {
    match value
    case Array(items) => Array(seq(|items|, i requires 0 <= i < |items| => StripAtMembers(items[i])))
    case Object(members) => Object(map name | name in members && !IsAtName(name) :: StripAtMembers(members[name]))
    case _ => value
  }

  function StripMembers(members: Members): Members {
    map name | name in members && !IsAtName(name) :: StripAtMembers(members[name])
  }

  /** The value every decoded attribute, meta or extension member has: no `@` member anywhere. */
  ghost predicate Stripped(value: Tree) {
    match value
    case Array(items) => forall i :: 0 <= i < |items| ==> Stripped(items[i])
    case Object(members) => forall name :: name in members ==> !IsAtName(name) && Stripped(members[name])
    case _ => true
  }

  ghost predicate StrippedMembers(members: Members) {
    forall name :: name in members ==> !IsAtName(name) && Stripped(members[name])
  }

  /** Stripping reaches every depth, and changes nothing exactly when there is nothing to remove. */
  lemma {:induction false} StripRemovesEveryAtMember(value: Tree)
    ensures Stripped(StripAtMembers(value))
    ensures StripAtMembers(value) == value <==> Stripped(value)
  {
    match value
    case Array(items) =>
      forall i | 0 <= i < |items|
        ensures Stripped(StripAtMembers(items[i]))
        ensures StripAtMembers(items[i]) == items[i] <==> Stripped(items[i])
      {
        StripRemovesEveryAtMember(items[i]);
      }
      var stripped := StripAtMembers(value).items;
      assert forall i :: 0 <= i < |items| ==> stripped[i] == StripAtMembers(items[i]);
      assert stripped == items <==> forall i :: 0 <= i < |items| ==> stripped[i] == items[i];
    case Object(members) =>
      forall name | name in members
        ensures Stripped(StripAtMembers(members[name]))
        ensures StripAtMembers(members[name]) == members[name] <==> Stripped(members[name])
      {
        StripRemovesEveryAtMember(members[name]);
      }
      var stripped := StripAtMembers(value).members;
      if StrippedMembers(members) {
        assert stripped == members;
      } else {
        var name :| name in members && (IsAtName(name) || !Stripped(members[name]));
        assert IsAtName(name) ==> name !in stripped;
      }
    case _ =>
  }

  lemma StripMembersRemovesEveryAtMember(members: Members)
    ensures StrippedMembers(StripMembers(members))
    ensures StripMembers(members) == members <==> StrippedMembers(members)
  {
    StripRemovesEveryAtMember(Object(members));
  }

  /** The members of one object that are registered for its scope, or None if a validator refuses one. */
  function ExtractMembers(registry: Registry, scope: Scope, members: Members): Option<Members> {
    if forall name | name in members && registry.Registered(scope, name) ::
         registry.Accepts(scope, name, StripAtMembers(members[name]))
    then Some(map name | name in members && registry.Registered(scope, name) :: StripAtMembers(members[name]))
    else None
  }

  /** `members` with every name registered for the scope deleted. */
  function WithoutRegistered(registry: Registry, scope: Scope, members: Members): Members {
    map name | name in members && !registry.Registered(scope, name) :: members[name]
  }
}
