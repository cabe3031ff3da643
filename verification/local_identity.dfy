/**
  Consistency of server and local ids: within one type they must identify each other one to one.
 */
module LocalIdentity {
  import opened Documents
  import opened Identity
  import opened IdentityFields

  datatype Observation = Observation(resourceType: string, id: Field, lid: Field)

  /** Only observations that carry a type, an id and a lid say anything. */
  predicate Qualifies(observation: Observation) {
    observation.resourceType != "" && observation.id.Has() && observation.lid.Has()
  }

  function IdKey(observation: Observation): string {
    observation.resourceType + "\0" + observation.id.value
  }

  function LidKey(observation: Observation): string {
    observation.resourceType + "\0" + observation.lid.value
  }

  /** What one of the two tables of the check is told: under this key, this value. */
  datatype Binding = Binding(key: string, value: string)

  function IdBinding(observation: Observation): Binding {
    Binding(IdKey(observation), observation.lid.value)
  }

  function LidBinding(observation: Observation): Binding {
    Binding(LidKey(observation), observation.id.value)
  }

  /** Observation `k` counts and is bound under this key. */
  predicate Binds(observations: seq<Observation>, bind: Observation -> Binding, k: nat, key: string) {
    k < |observations| && Qualifies(observations[k]) && bind(observations[k]).key == key
  }

  ghost predicate IsFirst(observations: seq<Observation>, bind: Observation -> Binding, k: nat, key: string) {
    Binds(observations, bind, k, key) && forall i :: 0 <= i < k ==> !Binds(observations, bind, i, key)
  }

  /** The first observation under the key of observation `k` is bound to something else. */
  ghost predicate Conflict(observations: seq<Observation>, bind: Observation -> Binding, k: nat) {
    && k < |observations| && Qualifies(observations[k])
    && exists j: nat :: j < k && IsFirst(observations, bind, j, bind(observations[k]).key)
                        && bind(observations[j]).value != bind(observations[k]).value
  }

  /** `table` holds, for each key among the first `count` observations, the value it was first bound to. */
  ghost predicate Remembers(
    table: map<string, string>, observations: seq<Observation>, count: nat, bind: Observation -> Binding)
  {
    && (forall key {:trigger table[key]} :: key in table ==>
          exists k: nat :: k < count && IsFirst(observations, bind, k, key)
                           && table[key] == bind(observations[k]).value)
    && forall k: nat, key :: k < count && Binds(observations, bind, k, key) ==> key in table
  }

  lemma RemembersNext(
    table: map<string, string>, observations: seq<Observation>, count: nat, bind: Observation -> Binding)
    requires Remembers(table, observations, count, bind) && count < |observations|
    requires !Qualifies(observations[count])
    ensures Remembers(table, observations, count + 1, bind)
    ensures !Conflict(observations, bind, count)
  {
  }

  /** One table's part of a round: report a conflict, or record the binding. */
  method Observe(table: map<string, string>, observations: seq<Observation>, count: nat, bind: Observation -> Binding)
    returns (updated: map<string, string>, conflict: bool)
    requires Remembers(table, observations, count, bind) && count < |observations|
    requires Qualifies(observations[count])
    ensures Remembers(updated, observations, count + 1, bind)
    ensures conflict <==> Conflict(observations, bind, count)
  {
    hide Qualifies;
    var current := bind(observations[count]);
    conflict := current.key in table && table[current.key] != current.value;
    updated := if conflict then table else table[current.key := current.value];
    assert Binds(observations, bind, count, current.key);
    if current.key in table {
      ghost var k: nat :| k < count && IsFirst(observations, bind, k, current.key)
        && table[current.key] == bind(observations[k]).value;
      OnlyOneFirst(observations, bind, current.key);
    } else {
      assert IsFirst(observations, bind, count, current.key);
    }
  }

  lemma OnlyOneFirst(observations: seq<Observation>, bind: Observation -> Binding, key: string)
    ensures forall j: nat, k: nat :: IsFirst(observations, bind, j, key) && IsFirst(observations, bind, k, key) ==> j == k
  {
  }

  /** A violation: which observation, and whether its id or its lid was seen with a different partner. */
  datatype Violation = Violation(index: nat, underLid: bool)

  ghost predicate IsViolation(observations: seq<Observation>, violation: Violation) {
    Conflict(observations, if violation.underLid then LidBinding else IdBinding, violation.index)
  }

  /**
    `validateLocalIdentities`: an observation is reported under its id, or under its lid, exactly
    when the first observation under the same key has a different partner.
   */
  method ValidateLocalIdentities(observations: seq<Observation>) returns (violations: seq<Violation>)
    ensures forall violation :: violation in violations <==> IsViolation(observations, violation)
  {
    hide Remembers, Conflict, Qualifies;
    violations := [];
    var byID: map<string, string> := map[];
    var byLID: map<string, string> := map[];
    NothingRemembered(observations);
    for index := 0 to |observations|
      invariant Remembers(byID, observations, index, IdBinding)
      invariant Remembers(byLID, observations, index, LidBinding)
      invariant forall violation :: violation in violations <==>
        violation.index < index && IsViolation(observations, violation)
    {
      if Qualifies(observations[index]) {
        var conflict;
        byID, conflict := Observe(byID, observations, index, IdBinding);
        if conflict {
          violations := violations + [Violation(index, false)];
        }
        byLID, conflict := Observe(byLID, observations, index, LidBinding);
        if conflict {
          violations := violations + [Violation(index, true)];
        }
      } else {
        RemembersNext(byID, observations, index, IdBinding);
        RemembersNext(byLID, observations, index, LidBinding);
      }
    }
    ConflictsAreInRange(observations);
  }

  lemma NothingRemembered(observations: seq<Observation>)
    ensures Remembers(map[], observations, 0, IdBinding) && Remembers(map[], observations, 0, LidBinding)
  {
  }

  lemma ConflictsAreInRange(observations: seq<Observation>)
    ensures forall violation :: IsViolation(observations, violation) ==> violation.index < |observations|
  {
  }

  /** Id and lid determine each other within a type. */
  ghost predicate OneToOne(first: Observation, second: Observation) {
    Qualifies(first) && Qualifies(second) && first.resourceType == second.resourceType ==>
      (first.id.value == second.id.value <==> first.lid.value == second.lid.value)
  }

  lemma KeysSplit(first: Observation, second: Observation)
    requires NulFree(first.resourceType) && NulFree(second.resourceType)
    ensures IdKey(first) == IdKey(second) <==>
      first.resourceType == second.resourceType && first.id.value == second.id.value
    ensures LidKey(first) == LidKey(second) <==>
      first.resourceType == second.resourceType && first.lid.value == second.lid.value
  {
    if IdKey(first) == IdKey(second) {
      NulFreePrefix(first.resourceType, second.resourceType, first.id.value, second.id.value);
    }
    if LidKey(first) == LidKey(second) {
      NulFreePrefix(first.resourceType, second.resourceType, first.lid.value, second.lid.value);
    }
  }

  // The observations of a document.

  ghost function ResourceObservations(resource: Resource): set<Observation> {
    {Observation(resource.resourceType, resource.id, resource.lid)} + LinkageObservations(RelationshipsOf(resource))
  }

  ghost function LinkageObservations(relationships: Relationships): set<Observation> {
    set name, i | name in relationships && 0 <= i < |NamedIdentifiers(relationships, name)| ::
      FromIdentifier(NamedIdentifiers(relationships, name)[i])
  }

  function FromIdentifier(identifier: Identifier): Observation {
    Observation(identifier.resourceType, identifier.id, identifier.lid)
  }

  ghost function ObservationsOf(resources: seq<Resource>): set<Observation> {
    set i, observation | 0 <= i < |resources| && observation in ResourceObservations(resources[i]) :: observation
  }

  ghost predicate Linked(relationships: Relationships, names: set<string>, observation: Observation) {
    exists name, i :: && name in names && name in relationships
                      && 0 <= i < |NamedIdentifiers(relationships, name)|
                      && FromIdentifier(NamedIdentifiers(relationships, name)[i]) == observation
  }

  /** `relationshipIdentityObservations`; the sorted visiting order is immaterial to the result. */
  method CollectLinkage(relationships: Relationships) returns (observations: seq<Observation>)
    ensures (set o | o in observations) == LinkageObservations(relationships)
  {
    observations := [];
    var pending := relationships.Keys;
    while pending != {}
      invariant pending <= relationships.Keys
      invariant forall o :: o in observations <==> Linked(relationships, relationships.Keys - pending, o)
      decreases pending
    {
      var name :| name in pending;
      var identifiers := NamedIdentifiers(relationships, name);
      var found := seq(|identifiers|, i requires 0 <= i < |identifiers| => FromIdentifier(identifiers[i]));
      forall o ensures o in observations + found <==> Linked(relationships, relationships.Keys - (pending - {name}), o) {
        LinkedExtends(relationships, relationships.Keys - pending, name, found, o);
        assert relationships.Keys - (pending - {name}) == relationships.Keys - pending + {name};
      }
      pending := pending - {name};
      observations := observations + found;
    }
    forall o ensures o in LinkageObservations(relationships) <==> Linked(relationships, relationships.Keys, o) {
    }
    assert relationships.Keys - {} == relationships.Keys;
  }

  lemma LinkedExtends(
    relationships: Relationships, names: set<string>, name: string, found: seq<Observation>, o: Observation)
    requires name in relationships
    requires |found| == |NamedIdentifiers(relationships, name)|
    requires forall i :: 0 <= i < |found| ==> found[i] == FromIdentifier(NamedIdentifiers(relationships, name)[i])
    ensures Linked(relationships, names + {name}, o) <==> Linked(relationships, names, o) || o in found
  {
    if o in found {
      var i :| 0 <= i < |found| && found[i] == o;
      assert FromIdentifier(NamedIdentifiers(relationships, name)[i]) == o;
    }
  }

  method CollectObservations(resources: seq<Resource>) returns (observations: seq<Observation>)
    ensures (set o | o in observations) == ObservationsOf(resources)
  {
    observations := [];
    for i := 0 to |resources|
      invariant (set o | o in observations) == ObservationsOf(resources[..i])
    {
      var own := Observation(resources[i].resourceType, resources[i].id, resources[i].lid);
      var linked := CollectLinkage(RelationshipsOf(resources[i]));
      ObservationsExtend(resources, i);
      observations := observations + [own] + linked;
    }
    assert resources[..|resources|] == resources;
  }

  lemma ObservationsExtend(resources: seq<Resource>, i: nat)
    requires i < |resources|
    ensures ObservationsOf(resources[..i + 1]) == ObservationsOf(resources[..i]) + ResourceObservations(resources[i])
  {
    var shorter, longer := resources[..i], resources[..i + 1];
    assert forall j | 0 <= j < i :: longer[j] == shorter[j];
    assert longer[i] == resources[i];
  }

  /**
    The local-identity check of `validateDocumentIdentity`: over valid types nothing is reported
    exactly when id and lid are in one-to-one correspondence within each type, across resources and
    linkage alike.
   */
  method CheckLocalIdentities(document: Document) returns (violations: seq<Violation>)
    ensures (forall o :: o in ObservationsOf(DocumentResources(document)) ==> NulFree(o.resourceType)) ==>
      (violations == [] <==> PartialBijection(ObservationsOf(DocumentResources(document))))
    ensures PlainObservations(document) ==> (violations == [] <==> IdsMatchLids(document))
  {
    hide PartialBijection, ObservationsOf, IdsMatchLids, PlainObservations, IsViolation;
    BijectionOnFields(document);
    if PlainObservations(document) {
      PlainOnFields(document);
    }
    var observations := CollectObservations(DocumentResources(document));
    violations := ValidateLocalIdentities(observations);
    if forall o :: o in ObservationsOf(DocumentResources(document)) ==> NulFree(o.resourceType) {
      ConsistentIsOneToOne(observations);
      if violations != [] {
        assert violations[0] in violations;
      }
    }
  }

  ghost predicate PartialBijection(all: set<Observation>) {
    forall first, second :: first in all && second in all ==> OneToOne(first, second)
  }

  /** `bind` does not give two qualifying observations one key and two values. */
  predicate Compatible(bind: Observation -> Binding, a: Observation, b: Observation) {
    Qualifies(a) && Qualifies(b) && bind(a).key == bind(b).key ==> bind(a).value == bind(b).value
  }

  lemma {:induction false} FirstExists(
    observations: seq<Observation>, bind: Observation -> Binding, k: nat, key: string) returns (first: nat)
    requires Binds(observations, bind, k, key)
    ensures first <= k && IsFirst(observations, bind, first, key)
  {
    if i: nat :| i < k && Binds(observations, bind, i, key) {
      first := FirstExists(observations, bind, i, key);
    } else {
      first := k;
    }
  }

  /** A key is never seen with two values exactly when no observation conflicts with the first under its key. */
  lemma NoConflictIsCompatible(observations: seq<Observation>, bind: Observation -> Binding)
    ensures (forall k: nat :: !Conflict(observations, bind, k)) <==>
      forall a, b :: a in observations && b in observations ==> Compatible(bind, a, b)
  {
    hide Qualifies;
    if forall k: nat :: !Conflict(observations, bind, k) {
      forall i: nat, j: nat | i < |observations| && j < |observations|
        ensures Compatible(bind, observations[i], observations[j])
      {
        if Qualifies(observations[i]) && Qualifies(observations[j])
           && bind(observations[i]).key == bind(observations[j]).key {
          AgreesWithFirst(observations, bind, i);
          AgreesWithFirst(observations, bind, j);
          OnlyOneFirst(observations, bind, bind(observations[i]).key);
        }
      }
    } else {
      var k: nat :| Conflict(observations, bind, k);
      var j: nat :| j < k && IsFirst(observations, bind, j, bind(observations[k]).key)
        && bind(observations[j]).value != bind(observations[k]).value;
      assert !Compatible(bind, observations[j], observations[k]);
    }
  }

  lemma AgreesWithFirst(observations: seq<Observation>, bind: Observation -> Binding, k: nat)
    requires k < |observations| && Qualifies(observations[k]) && !Conflict(observations, bind, k)
    ensures exists j: nat ::
      IsFirst(observations, bind, j, bind(observations[k]).key) && bind(observations[j]).value == bind(observations[k]).value
  {
    var first := FirstExists(observations, bind, k, bind(observations[k]).key);
  }

  lemma CompatibleIsOneToOne(first: Observation, second: Observation)
    requires NulFree(first.resourceType) && NulFree(second.resourceType)
    ensures Compatible(IdBinding, first, second) && Compatible(LidBinding, first, second) <==> OneToOne(first, second)
  {
    KeysSplit(first, second);
  }

  lemma ConsistentIsOneToOne(observations: seq<Observation>)
    requires forall o :: o in observations ==> NulFree(o.resourceType)
    ensures (forall violation :: !IsViolation(observations, violation)) <==>
      PartialBijection(set o | o in observations)
  {
    NoConflictIsCompatible(observations, IdBinding);
    NoConflictIsCompatible(observations, LidBinding);
    forall first, second | first in observations && second in observations
      ensures Compatible(IdBinding, first, second) && Compatible(LidBinding, first, second) <==> OneToOne(first, second)
    {
      CompatibleIsOneToOne(first, second);
    }
    ViolationsByKind(observations);
  }

  lemma ViolationsByKind(observations: seq<Observation>)
    ensures (forall violation :: !IsViolation(observations, violation)) <==>
      (forall k: nat :: !Conflict(observations, IdBinding, k)) && (forall k: nat :: !Conflict(observations, LidBinding, k))
  {
    hide Conflict;
    forall k: nat
      ensures IsViolation(observations, Violation(k, false)) <==> Conflict(observations, IdBinding, k)
      ensures IsViolation(observations, Violation(k, true)) <==> Conflict(observations, LidBinding, k)
    {
    }
  }

  // The same on the fields of a document.

  /** An observation of linkage is an identifier that the fields link. */
  lemma LinkageObservationsOnFields(resource: Resource, o: Observation)
    ensures o in LinkageObservations(RelationshipsOf(resource)) <==>
      exists identifier ::
        && IsLinked(resource.relationships, identifier)
        && o == Observation(identifier.resourceType, identifier.id, identifier.lid)
  {
    hide NamedIdentifiers, IsLinkedUnder;
    var relationships := RelationshipsOf(resource);
    if o in LinkageObservations(relationships) {
      var name, i :| name in relationships && 0 <= i < |NamedIdentifiers(relationships, name)|
        && FromIdentifier(NamedIdentifiers(relationships, name)[i]) == o;
      var identifier := NamedIdentifiers(relationships, name)[i];
      NamedIdentifiersOnFields(relationships, name, identifier);
      assert IsLinked(resource.relationships, identifier);
    }
    if exists identifier ::
         && IsLinked(resource.relationships, identifier)
         && o == Observation(identifier.resourceType, identifier.id, identifier.lid) {
      var identifier :| IsLinked(resource.relationships, identifier)
        && o == Observation(identifier.resourceType, identifier.id, identifier.lid);
      var name :| IsLinkedUnder(relationships, name, identifier);
      LinkedNames(relationships, name, identifier);
      NamedIdentifiersOnFields(relationships, name, identifier);
      var i :| 0 <= i < |NamedIdentifiers(relationships, name)| && NamedIdentifiers(relationships, name)[i] == identifier;
      assert FromIdentifier(NamedIdentifiers(relationships, name)[i]) == o;
    }
  }

  lemma LinkedNames(relationships: Relationships, name: string, identifier: Identifier)
    requires IsLinkedUnder(relationships, name, identifier)
    ensures name in relationships
  {
  }

  lemma ResourceObservationsOnFields(resource: Resource, o: Observation)
    ensures o in ResourceObservations(resource) <==> ObservedIn(resource, o.resourceType, o.id, o.lid)
  {
    hide IsLinked, LinkageObservations;
    LinkageObservationsOnFields(resource, o);
  }

  /** What is observed in a document, on its fields. */
  lemma ObservationsOnFields(document: Document, o: Observation)
    ensures o in ObservationsOf(DocumentResources(document)) <==> Observed(document, o.resourceType, o.id, o.lid)
  {
    hide ResourceObservations, ObservedIn, DocumentResources, ResourceAt, IndexOf, Precedes;
    var resources := DocumentResources(document);
    PositionsAreIndices(document);
    forall resource ensures o in ResourceObservations(resource) <==> ObservedIn(resource, o.resourceType, o.id, o.lid) {
      ResourceObservationsOnFields(resource, o);
    }
    if o in ObservationsOf(resources) {
      var i :| 0 <= i < |resources| && o in ResourceObservations(resources[i]);
      var position := IndexHasPosition(document, i);
      assert ResourceAt(document, position) == Some(resources[i]);
    }
    if Observed(document, o.resourceType, o.id, o.lid) {
      var position, resource :| ResourceAt(document, position) == Some(resource)
        && ObservedIn(resource, o.resourceType, o.id, o.lid);
      assert resources[IndexOf(document, position)] == resource;
    }
  }

  /** Within a type, ids and lids of the document determine each other wherever both are given. */
  ghost predicate IdsMatchLids(document: Document) {
    forall resourceType, id, lid, otherId, otherLid ::
      && resourceType != ""
      && Observed(document, resourceType, id, lid) && Observed(document, resourceType, otherId, otherLid)
      && Given(id) && Given(lid) && Given(otherId) && Given(otherLid) ==>
        (id.value == otherId.value <==> lid.value == otherLid.value)
  }

  ghost predicate PlainObservations(document: Document) {
    forall resourceType, id, lid :: Observed(document, resourceType, id, lid) ==> PlainType(resourceType)
  }

  lemma BijectionOnFields(document: Document)
    ensures PartialBijection(ObservationsOf(DocumentResources(document))) <==> IdsMatchLids(document)
  {
    hide Observed, ObservationsOf, DocumentResources;
    var all := ObservationsOf(DocumentResources(document));
    forall o ensures o in all <==> Observed(document, o.resourceType, o.id, o.lid) {
      ObservationsOnFields(document, o);
    }
    if PartialBijection(all) {
      forall resourceType, id, lid, otherId, otherLid |
        && resourceType != ""
        && Observed(document, resourceType, id, lid) && Observed(document, resourceType, otherId, otherLid)
        && Given(id) && Given(lid) && Given(otherId) && Given(otherLid)
        ensures id.value == otherId.value <==> lid.value == otherLid.value
      {
        assert OneToOne(Observation(resourceType, id, lid), Observation(resourceType, otherId, otherLid));
      }
    }
  }

  lemma PlainOnFields(document: Document)
    requires PlainObservations(document)
    ensures forall o :: o in ObservationsOf(DocumentResources(document)) ==> NulFree(o.resourceType)
  {
    hide Observed, ObservationsOf, DocumentResources;
    forall o | o in ObservationsOf(DocumentResources(document)) ensures NulFree(o.resourceType) {
      ObservationsOnFields(document, o);
    }
  }

  /** An observation that says something: it carries a type, an id and a lid. */
  predicate Says(o: Observation) {
    o.resourceType != "" && Given(o.id) && Given(o.lid)
  }

  /** The first of these observations of the type with this id, or with this lid. */
  predicate IsFirstOf(observations: seq<Observation>, j: nat, k: nat, underLid: bool) {
    && j < k < |observations| && Alike(observations[j], observations[k], underLid)
    && forall i | 0 <= i < j :: !Alike(observations[i], observations[k], underLid)
  }

  predicate Alike(first: Observation, second: Observation, underLid: bool) {
    && Says(first) && Says(second) && first.resourceType == second.resourceType
    && if underLid then first.lid.value == second.lid.value else first.id.value == second.id.value
  }

  /** Exactly which violations are reported, without keys. */
  lemma ViolationsOnFields(observations: seq<Observation>, violation: Violation)
    requires forall o :: o in observations ==> NulFree(o.resourceType)
    ensures IsViolation(observations, violation) <==>
      exists j: nat ::
        && IsFirstOf(observations, j, violation.index, violation.underLid)
        && if violation.underLid then observations[j].id.value != observations[violation.index].id.value
           else observations[j].lid.value != observations[violation.index].lid.value
  {
    hide IdKey, LidKey;
    var k, bind := violation.index, if violation.underLid then LidBinding else IdBinding;
    if k < |observations| {
      forall j: nat | j < |observations| && Qualifies(observations[k])
        ensures Binds(observations, bind, j, bind(observations[k]).key) <==>
          Alike(observations[j], observations[k], violation.underLid)
      {
        KeysSplit(observations[j], observations[k]);
      }
      assert Qualifies(observations[k]) <==> Says(observations[k]);
      forall j: nat | j < k && Qualifies(observations[k])
        ensures IsFirst(observations, bind, j, bind(observations[k]).key) <==>
          IsFirstOf(observations, j, k, violation.underLid)
      {
      }
    }
  }
}
