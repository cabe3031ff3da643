/**
  What is left of a JSON value without its `@` members, said by looking values up along paths. A path
  that passes an `@` name leads nowhere; along every other path nothing has changed.
 */
module JSONPaths {
  import opened Documents
  import opened Registries

  datatype Step = Name(name: string) | Index(index: nat)

  /** The value found by following names and indices from the root. */
  function Lookup(value: Tree, path: seq<Step>): Option<Tree>
    decreases |path|
  {
    if path == [] then Some(value)
    else
      match (value, path[0])
      case (Object(members), Name(name)) => if name in members then Lookup(members[name], path[1..]) else None
      case (Array(items), Index(index)) => if index < |items| then Lookup(items[index], path[1..]) else None
      case _ => None
  }

  ghost predicate Annotated(path: seq<Step>) {
    exists i :: 0 <= i < |path| && path[i].Name? && path[i].name != "" && path[i].name[0] == '@'
  }

  /** The same scalar, or arrays of one length, or objects. */
  predicate SameShape(first: Tree, second: Tree) {
    match first
    case Array(items) => second.Array? && |second.items| == |items|
    case Object(_) => second.Object?
    case _ => first == second
  }

  /** `result` is found under exactly the paths of `value` that pass no `@` name, with the same shapes. */
  ghost predicate IsPruned(result: Tree, value: Tree) {
    forall path :: AgreesAt(result, value, path)
  }

  ghost predicate AgreesAt(result: Tree, value: Tree, path: seq<Step>) {
    && (Lookup(result, path).Some? <==> !Annotated(path) && Lookup(value, path).Some?)
    && (Lookup(result, path).Some? ==> SameShape(Lookup(result, path).value, Lookup(value, path).value))
  }

  lemma AnnotatedSteps(step: Step, rest: seq<Step>)
    ensures Annotated([step] + rest) <==> (step.Name? && step.name != "" && step.name[0] == '@') || Annotated(rest)
  {
    var path := [step] + rest;
    assert path[0] == step;
    assert forall i :: 0 <= i < |rest| ==> path[i + 1] == rest[i];
  }

  /** Stripping changes nothing but what lies under an `@` name. */
  lemma {:induction false} StripKeepsTheRest(value: Tree, path: seq<Step>)
    ensures AgreesAt(StripAtMembers(value), value, path)
    decreases |path|
  {
    if path == [] {
      StripKeepsShape(value);
    } else {
      var step, rest := path[0], path[1..];
      assert path == [step] + rest;
      AnnotatedSteps(step, rest);
      match (value, step)
      case (Object(members), Name(name)) =>
        if name in members {
          StripKeepsTheRest(members[name], rest);
          StripMember(members, name);
        }
      case (Array(items), Index(index)) =>
        if index < |items| {
          StripKeepsTheRest(items[index], rest);
          assert StripAtMembers(value).items[index] == StripAtMembers(items[index]);
        }
      case _ =>
    }
  }

  lemma StripKeepsShape(value: Tree)
    ensures SameShape(StripAtMembers(value), value)
  {
  }

  lemma StripMember(members: Members, name: string)
    requires name in members
    ensures var stripped := StripAtMembers(Object(members));
      && (name in stripped.members <==> !(name != "" && name[0] == '@'))
      && (name in stripped.members ==> stripped.members[name] == StripAtMembers(members[name]))
  {
  }

  /** Two values with the same shapes under the same paths are one value. */
  ghost predicate SameEverywhere(first: Tree, second: Tree) {
    forall path :: SameAt(first, second, path)
  }

  ghost predicate SameAt(first: Tree, second: Tree, path: seq<Step>) {
    && (Lookup(first, path).Some? <==> Lookup(second, path).Some?)
    && (Lookup(first, path).Some? ==> SameShape(Lookup(first, path).value, Lookup(second, path).value))
  }

  lemma SameBelow(first: Tree, second: Tree, step: Step)
    requires SameEverywhere(first, second)
    requires Lookup(first, [step]).Some?
    ensures Lookup(second, [step]).Some?
    ensures SameEverywhere(Lookup(first, [step]).value, Lookup(second, [step]).value)
  {
    assert SameAt(first, second, [step]);
    forall path ensures SameAt(Lookup(first, [step]).value, Lookup(second, [step]).value, path) {
      var longer := [step] + path;
      assert longer[0] == step && longer[1..] == path && [step][1..] == [];
      assert SameAt(first, second, longer);
    }
  }

  lemma {:induction false} SameEverywhereIsEqual(first: Tree, second: Tree)
    requires SameEverywhere(first, second)
    ensures first == second
  {
    assert SameAt(first, second, []);
    match first
    case Array(items) =>
      forall i | 0 <= i < |items| ensures items[i] == second.items[i] {
        assert [Index(i)][1..] == [];
        SameBelow(first, second, Index(i));
        SameEverywhereIsEqual(items[i], second.items[i]);
      }
      assert items == second.items;
    case Object(members) =>
      forall name | name in members ensures name in second.members && members[name] == second.members[name] {
        assert [Name(name)][1..] == [];
        SameBelow(first, second, Name(name));
        SameEverywhereIsEqual(members[name], second.members[name]);
      }
      forall name | name in second.members ensures name in members {
        assert [Name(name)][1..] == [];
        assert Lookup(second, [Name(name)]) == Some(second.members[name]);
        assert SameAt(first, second, [Name(name)]);
      }
      assert members == second.members;
    case _ =>
  }

  /** The stripped value is the one that is found under the paths without an `@` name, and the only one. */
  lemma PrunedIsStripped(result: Tree, value: Tree)
    ensures IsPruned(result, value) <==> result == StripAtMembers(value)
  {
    hide StripAtMembers, Lookup, SameShape, Annotated;
    forall path ensures AgreesAt(StripAtMembers(value), value, path) {
      StripKeepsTheRest(value, path);
    }
    if IsPruned(result, value) {
      forall path ensures SameAt(result, StripAtMembers(value), path) {
        assert AgreesAt(result, value, path) && AgreesAt(StripAtMembers(value), value, path);
        AgreeingShapes(result, StripAtMembers(value), value, path);
      }
      SameEverywhereIsEqual(result, StripAtMembers(value));
    }
  }

  lemma AgreeingShapes(first: Tree, second: Tree, value: Tree, path: seq<Step>)
    requires AgreesAt(first, value, path) && AgreesAt(second, value, path)
    ensures SameAt(first, second, path)
  {
  }

  /** The same for the members of an object, such as meta or attributes. */
  lemma PrunedMembersAreStripped(result: Members, members: Members)
    ensures IsPruned(Object(result), Object(members)) <==> result == StripMembers(members)
  {
    PrunedIsStripped(Object(result), Object(members));
    assert StripAtMembers(Object(members)).members == StripMembers(members);
  }

  /** Beside an `@` annotation, the rest of an object survives. */
  lemma AnnotatedAddress()
    ensures StripAtMembers(Object(map["@type" := String("Place"), "city" := String("Paris")]))
      == Object(map["city" := String("Paris")])
  {
    assert "@type"[0] == '@' && "city"[0] == 'c';
  }
}
