/**
  Resource identity: the string keys under which a resource can be found, and what they mean.
 */
module Identity {
  import opened Documents
  import opened MemberNames
  import opened IdentityFields

  /** One name of a resource: its type and either its server id or its local id. */
  datatype Alias = Alias(resourceType: string, server: bool, text: string)

  /** `resourceKey`: the two identity domains are kept apart inside one string. */
  function Key(alias: Alias): string {
    alias.resourceType + (if alias.server then "\0id\0" else "\0lid\0") + alias.text
  }

  function ResourceAliases(resource: Resource): seq<Alias> {
    if resource.resourceType == "" then []
    else
      (if resource.id.Has() then [Alias(resource.resourceType, true, resource.id.value)] else [])
      + (if resource.lid.Has() then [Alias(resource.resourceType, false, resource.lid.value)] else [])
  }

  /** `resourceObjectKeys`. */
  function ResourceKeys(resource: Resource): seq<string> {
    var aliases := ResourceAliases(resource);
    seq(|aliases|, i requires 0 <= i < |aliases| => Key(aliases[i]))
  }

  /** An identifier without an id falls into the lid domain, even when it has no lid either. */
  function IdentifierAlias(identifier: Identifier): Alias {
    if identifier.id.Has() then Alias(identifier.resourceType, true, identifier.id.value)
    else Alias(identifier.resourceType, false, identifier.lid.value)
  }

  /** `identifierKey`. */
  function IdentifierKey(identifier: Identifier): string {
    Key(IdentifierAlias(identifier))
  }

  predicate NulFree(name: string) {
    '\0' !in name
  }

  /** Valid resource types contain no NUL, so they can be read off the front of a key. */
  lemma ValidTypesAreNulFree(resourceType: string)
    requires ValidImplementationMemberName(resourceType)
    ensures NulFree(resourceType) && resourceType != ""
  {
    NameCharacters(resourceType);
  }

  lemma NulFreePrefix(a: string, b: string, restA: string, restB: string)
    requires NulFree(a) && NulFree(b)
    requires a + ['\0'] + restA == b + ['\0'] + restB
    ensures a == b && restA == restB
  {
    var s := a + ['\0'] + restA;
    var t := b + ['\0'] + restB;
    assert s[|a|] == '\0' && t[|b|] == '\0';
    assert forall i | 0 <= i < |a| :: s[i] == a[i] && a[i] in a;
    assert forall i | 0 <= i < |b| :: t[i] == b[i] && b[i] in b;
    assert |a| == |b|;
    assert a == s[..|a|] && b == t[..|b|];
    assert restA == s[|a| + 1..] && restB == t[|b| + 1..];
  }

  function KeyTail(alias: Alias): string {
    (if alias.server then "id\0" else "lid\0") + alias.text
  }

  /** With NUL-free types, equal keys are equal aliases. */
  lemma KeysAreInjective(first: Alias, second: Alias)
    requires NulFree(first.resourceType) && NulFree(second.resourceType)
    ensures Key(first) == Key(second) <==> first == second
  {
    if Key(first) == Key(second) {
      assert Key(first) == first.resourceType + ['\0'] + KeyTail(first);
      assert Key(second) == second.resourceType + ['\0'] + KeyTail(second);
      NulFreePrefix(first.resourceType, second.resourceType, KeyTail(first), KeyTail(second));
      assert KeyTail(first)[0] == if first.server then 'i' else 'l';
      assert KeyTail(second)[0] == if second.server then 'i' else 'l';
      var skip := if first.server then 3 else 4;
      assert first.text == KeyTail(first)[skip..] && second.text == KeyTail(second)[skip..];
    }
  }

  /** Without that, a type that contains the separator collides with another resource. */
  lemma NulTypesCollide(text: string)
    ensures Key(Alias("a\0id\0b", true, text)) == Key(Alias("a", true, "b\0id\0" + text))
  {
    var first, second := Key(Alias("a\0id\0b", true, text)), Key(Alias("a", true, "b\0id\0" + text));
    assert first == "a\0id\0b\0id\0" + text;
    assert second == "a\0id\0" + ("b\0id\0" + text);
    assert "a\0id\0b\0id\0" == "a\0id\0" + "b\0id\0";
  }

  ghost predicate SharesKey(first: Resource, second: Resource) {
    exists key :: key in ResourceKeys(first) && key in ResourceKeys(second)
  }

  ghost predicate SharesAlias(first: Resource, second: Resource) {
    exists alias :: alias in ResourceAliases(first) && alias in ResourceAliases(second)
  }

  lemma AliasesHaveTheType(resource: Resource)
    ensures forall alias :: alias in ResourceAliases(resource) ==> alias.resourceType == resource.resourceType
  {
  }

  lemma SharedKeysAreSharedAliases(first: Resource, second: Resource)
    requires NulFree(first.resourceType) && NulFree(second.resourceType)
    ensures SharesKey(first, second) <==> SharesAlias(first, second)
  {
    hide ResourceAliases, NulFree, Key;
    var a, b := ResourceAliases(first), ResourceAliases(second);
    AliasesHaveTheType(first);
    AliasesHaveTheType(second);
    forall i, j | 0 <= i < |a| && 0 <= j < |b|
      ensures Key(a[i]) == Key(b[j]) <==> a[i] == b[j]
    {
      KeysAreInjective(a[i], b[j]);
    }
    if SharesKey(first, second) {
      var key :| key in ResourceKeys(first) && key in ResourceKeys(second);
      var i :| 0 <= i < |a| && ResourceKeys(first)[i] == key;
      var j :| 0 <= j < |b| && ResourceKeys(second)[j] == key;
      assert a[i] in a && a[i] == b[j];
    }
    if SharesAlias(first, second) {
      var alias :| alias in a && alias in b;
      var i :| 0 <= i < |a| && a[i] == alias;
      var j :| 0 <= j < |b| && b[j] == alias;
      assert ResourceKeys(first)[i] == ResourceKeys(second)[j];
      assert ResourceKeys(second)[j] in ResourceKeys(second);
    }
  }

  // The parts of a document that carry identity.

  function PrimaryResources(data: Option<PrimaryData>): seq<Resource> {
    match data
    case None => []
    case Some(NullData) => []
    case Some(ResourceData(one)) => [one]
    case Some(ResourceCollection(many)) => many
  }

  function IncludedResources(document: Document): seq<Resource> {
    if document.included.Some? then document.included.value else []
  }

  /** `documentResources`: primary data first, then included resources. */
  function DocumentResources(document: Document): seq<Resource> {
    PrimaryResources(document.data) + IncludedResources(document)
  }

  function DataIdentifiers(data: Option<RelationshipData>): seq<Identifier> {
    match data
    case None => []
    case Some(NullRelationship) => []
    case Some(ToOne(one)) => [one]
    case Some(ToMany(many)) => many
  }

  /** The linkage of one relationship; names starting with `@` link nothing. */
  function NamedIdentifiers(relationships: Relationships, name: string): seq<Identifier>
    requires name in relationships
  {
    if IsAtName(name) then [] else DataIdentifiers(relationships[name].data)
  }

  function RelationshipsOf(resource: Resource): Relationships {
    if resource.relationships.Some? then resource.relationships.value else map[]
  }

  // Duplicate resources.

  /** `second` repeats a resource already seen at position `first`. */
  datatype Duplicate = Duplicate(first: nat, second: nat)

  ghost predicate HasKey(resources: seq<Resource>, i: nat, key: string) {
    i < |resources| && key in ResourceKeys(resources[i])
  }

  /** `canonical` maps each key among the first `count` resources to the first of them that has it. */
  ghost predicate Canonical(canonical: map<string, nat>, resources: seq<Resource>, count: nat) {
    && (forall key :: key in canonical ==>
          && canonical[key] < count && HasKey(resources, canonical[key], key)
          && forall j :: 0 <= j < canonical[key] ==> !HasKey(resources, j, key))
    && forall j, key :: 0 <= j < count && HasKey(resources, j, key) ==> key in canonical
  }

  ghost predicate Reported(duplicates: seq<Duplicate>, k: nat) {
    exists d :: d in duplicates && d.second == k
  }

  /** The first of resource `k`'s keys that an earlier resource has belongs to resource `j` before all others. */
  ghost predicate IsNamed(resources: seq<Resource>, j: nat, k: nat) {
    j < k < |resources| && exists x ::
      && 0 <= x < |ResourceKeys(resources[k])|
      && HasKey(resources, j, ResourceKeys(resources[k])[x])
      && (forall i :: 0 <= i < j ==> !HasKey(resources, i, ResourceKeys(resources[k])[x]))
      && forall i, y :: 0 <= i < k && 0 <= y < x ==> !HasKey(resources, i, ResourceKeys(resources[k])[y])
  }

  /** Every report names the canonical resource that is repeated, and reports come in document order. */
  ghost predicate Justified(resources: seq<Resource>, duplicates: seq<Duplicate>) {
    && (forall d :: d in duplicates ==>
          && d.first < d.second < |resources| && IsNamed(resources, d.first, d.second)
          && SharesKey(resources[d.first], resources[d.second]))
    && forall x, y :: 0 <= x < y < |duplicates| ==> duplicates[x].second < duplicates[y].second
  }

  /** Every resource sharing a key with an earlier one is reported. */
  ghost predicate Complete(resources: seq<Resource>, count: nat, duplicates: seq<Duplicate>)
    requires count <= |resources|
  {
    forall j, k :: 0 <= j < k < count && SharesKey(resources[j], resources[k]) ==> Reported(duplicates, k)
  }

  /**
    The duplicate check of `validateDocumentIdentity`: a resource is reported exactly when some
    earlier resource shares one of its keys, and the report names such a resource.
   */
  method FindDuplicates(resources: seq<Resource>) returns (duplicates: seq<Duplicate>)
    ensures Justified(resources, duplicates)
    ensures Complete(resources, |resources|, duplicates)
  {
    hide Canonical, SharesKey;
    duplicates := [];
    var canonical: map<string, nat> := map[];
    NothingRecorded(resources);
    for k := 0 to |resources|
      invariant Canonical(canonical, resources, k)
      invariant Justified(resources, duplicates)
      invariant forall d :: d in duplicates ==> d.second < k
      invariant Complete(resources, k, duplicates)
    {
      var previous := FirstSharer(canonical, resources, k);
      if previous.Some? {
        ReportExtends(resources, k, duplicates, Duplicate(previous.value, k));
        duplicates := duplicates + [Duplicate(previous.value, k)];
      }
      canonical := RecordKeys(canonical, resources, k);
    }
  }

  lemma NothingRecorded(resources: seq<Resource>)
    ensures Canonical(map[], resources, 0)
  {
  }

  lemma ReportExtends(resources: seq<Resource>, k: nat, duplicates: seq<Duplicate>, report: Duplicate)
    requires k < |resources| && Complete(resources, k, duplicates) && Justified(resources, duplicates)
    requires forall d :: d in duplicates ==> d.second < k
    requires report.second == k && IsNamed(resources, report.first, k) && SharesKey(resources[report.first], resources[k])
    ensures Justified(resources, duplicates + [report])
    ensures forall d :: d in duplicates + [report] ==> d.second < k + 1
    ensures Complete(resources, k + 1, duplicates + [report])
  {
    hide SharesKey;
    var extended := duplicates + [report];
    assert extended[|duplicates|] == report;
    forall i, j | 0 <= i < j < k + 1 && SharesKey(resources[i], resources[j])
      ensures Reported(extended, j)
    {
      if j < k {
        assert Reported(duplicates, j);
        var d :| d in duplicates && d.second == j;
        assert d in extended;
      } else {
        assert report in extended;
      }
    }
  }

  /** The earlier resource recorded under the first known key of resource `k`, if any. */
  method FirstSharer(canonical: map<string, nat>, resources: seq<Resource>, k: nat) returns (sharer: Option<nat>)
    requires k < |resources| && Canonical(canonical, resources, k)
    ensures sharer.Some? ==> IsNamed(resources, sharer.value, k) && SharesKey(resources[sharer.value], resources[k])
    ensures sharer.None? ==> forall i :: 0 <= i < k ==> !SharesKey(resources[i], resources[k])
  {
    var keys := ResourceKeys(resources[k]);
    var known := FirstKnown(canonical, keys);
    if known.Some? {
      assert HasKey(resources, canonical[keys[known.value]], keys[known.value]);
      return Some(canonical[keys[known.value]]);
    }
    forall i | 0 <= i < k ensures !SharesKey(resources[i], resources[k]) {
      forall key | key in ResourceKeys(resources[i]) ensures key !in keys {
        assert HasKey(resources, i, key);
      }
    }
    return None;
  }

  method FirstKnown(canonical: map<string, nat>, keys: seq<string>) returns (known: Option<nat>)
    ensures known.Some? ==>
      known.value < |keys| && keys[known.value] in canonical && forall i :: 0 <= i < known.value ==> keys[i] !in canonical
    ensures known.None? ==> forall key :: key in keys ==> key !in canonical
  {
    for i := 0 to |keys|
      invariant forall j :: 0 <= j < i ==> keys[j] !in canonical
    {
      if keys[i] in canonical {
        return Some(i);
      }
    }
    return None;
  }

  method RecordKeys(canonical: map<string, nat>, resources: seq<Resource>, k: nat)
    returns (updated: map<string, nat>)
    requires k < |resources| && Canonical(canonical, resources, k)
    ensures Canonical(updated, resources, k + 1)
  {
    hide ResourceKeys;
    var keys := ResourceKeys(resources[k]);
    updated := canonical;
    for i := 0 to |keys|
      invariant forall key :: key in updated <==> key in canonical || key in keys[..i]
      invariant forall key :: key in updated ==> updated[key] == if key in canonical then canonical[key] else k
    {
      if keys[i] !in updated {
        updated := updated[keys[i] := k];
      }
      assert keys[..i + 1] == keys[..i] + [keys[i]];
    }
    assert keys[..|keys|] == keys;
    forall key | key in updated
      ensures updated[key] < k + 1 && HasKey(resources, updated[key], key)
      ensures forall j :: 0 <= j < updated[key] ==> !HasKey(resources, j, key)
    {
    }
    forall j, key | 0 <= j < k + 1 && HasKey(resources, j, key) ensures key in updated {
    }
  }

  /** Over valid types, a document free of duplicates has pairwise disjoint alias sets. */
  lemma NoDuplicatesMeansDisjointAliases(resources: seq<Resource>, duplicates: seq<Duplicate>)
    requires forall i :: 0 <= i < |resources| ==> NulFree(resources[i].resourceType)
    requires Justified(resources, duplicates) && Complete(resources, |resources|, duplicates)
    ensures duplicates == [] <==>
      forall j, k :: 0 <= j < k < |resources| ==> !SharesAlias(resources[j], resources[k])
  {
    hide SharesKey, SharesAlias;
    forall j, k | 0 <= j < k < |resources|
      ensures SharesKey(resources[j], resources[k]) <==> SharesAlias(resources[j], resources[k])
    {
      SharedKeysAreSharedAliases(resources[j], resources[k]);
    }
    if duplicates != [] {
      assert duplicates[0] in duplicates;
    }
  }

  // The same on the fields of a document.

  /** Where a position comes in the list of all resources. */
  function IndexOf(document: Document, position: Position): nat {
    match position
    case Alone => 0
    case Item(index) => index
    case Included(index) =>
      (match document.data
       case Some(ResourceData(_)) => 1 + index
       case Some(ResourceCollection(many)) => |many| + index
       case _ => index)
  }

  /** The list has the resource of each position at its index, in the order of positions. */
  lemma PositionsAreIndices(document: Document)
    ensures forall position :: ResourceAt(document, position).Some? ==>
      && IndexOf(document, position) < |DocumentResources(document)|
      && DocumentResources(document)[IndexOf(document, position)] == ResourceAt(document, position).value
    ensures forall first, second :: ResourceAt(document, first).Some? && ResourceAt(document, second).Some? ==>
      (Precedes(first, second) <==> IndexOf(document, first) < IndexOf(document, second))
  {
  }

  lemma IndexHasPosition(document: Document, k: nat) returns (position: Position)
    requires k < |DocumentResources(document)|
    ensures ResourceAt(document, position).Some? && IndexOf(document, position) == k
  {
    var primary := |PrimaryResources(document.data)|;
    position := if k >= primary then Included(k - primary)
      else if document.data.value.ResourceData? then Alone else Item(k);
  }

  /** An identity of a resource is its type with its id, or with its lid. */
  lemma AliasesOnFields(resource: Resource, alias: Alias)
    ensures alias in ResourceAliases(resource) <==>
      && alias.resourceType == resource.resourceType != ""
      && if alias.server then Given(resource.id) && alias.text == resource.id.value
         else Given(resource.lid) && alias.text == resource.lid.value
  {
  }

  lemma SharedOnFields(first: Resource, second: Resource)
    ensures SharesAlias(first, second) <==> SameId(first, second) || SameLid(first, second)
  {
    hide ResourceAliases;
    forall alias ensures alias in ResourceAliases(first) && alias in ResourceAliases(second) ==>
        SameId(first, second) || SameLid(first, second)
    {
      AliasesOnFields(first, alias);
      AliasesOnFields(second, alias);
    }
    if SameId(first, second) {
      AliasesOnFields(first, Alias(first.resourceType, true, first.id.value));
      AliasesOnFields(second, Alias(first.resourceType, true, first.id.value));
    }
    if SameLid(first, second) {
      AliasesOnFields(first, Alias(first.resourceType, false, first.lid.value));
      AliasesOnFields(second, Alias(first.resourceType, false, first.lid.value));
    }
  }

  ghost predicate PlainResources(document: Document) {
    forall position, resource ::
      ResourceAt(document, position) == Some(resource) ==> PlainType(resource.resourceType)
  }

  /** A resource at an earlier position has the same id or the same lid. */
  ghost predicate RepeatsEarlier(document: Document, position: Position) {
    exists earlier ::
      && Precedes(earlier, position)
      && ResourceAt(document, earlier).Some? && ResourceAt(document, position).Some?
      && (SameId(ResourceAt(document, earlier).value, ResourceAt(document, position).value)
          || SameLid(ResourceAt(document, earlier).value, ResourceAt(document, position).value))
  }

  /** Over plain types, exactly the positions that repeat an earlier one are reported. */
  lemma DuplicatesOnFields(document: Document, duplicates: seq<Duplicate>, position: Position)
    requires PlainResources(document) && ResourceAt(document, position).Some?
    requires Justified(DocumentResources(document), duplicates)
    requires Complete(DocumentResources(document), |DocumentResources(document)|, duplicates)
    ensures Reported(duplicates, IndexOf(document, position)) <==> RepeatsEarlier(document, position)
  {
    hide SharesKey, SameId, SameLid, DocumentResources, ResourceAt, IndexOf, IsNamed, Precedes;
    var resources, k := DocumentResources(document), IndexOf(document, position);
    PositionsAreIndices(document);
    forall earlier | ResourceAt(document, earlier).Some?
      ensures SharesKey(resources[IndexOf(document, earlier)], resources[k]) <==>
        SameId(resources[IndexOf(document, earlier)], resources[k])
        || SameLid(resources[IndexOf(document, earlier)], resources[k])
    {
      PlainIsNulFree(document, earlier);
      PlainIsNulFree(document, position);
      SharedKeysAreSharedAliases(resources[IndexOf(document, earlier)], resources[k]);
      SharedOnFields(resources[IndexOf(document, earlier)], resources[k]);
    }
    if Reported(duplicates, k) {
      var d :| d in duplicates && d.second == k;
      var earlier := IndexHasPosition(document, d.first);
      assert Precedes(earlier, position);
    }
  }

  lemma PlainIsNulFree(document: Document, position: Position)
    requires PlainResources(document) && ResourceAt(document, position).Some?
    ensures NulFree(ResourceAt(document, position).value.resourceType)
  {
  }

  /** The duplicate check on a document: nothing is reported exactly when no position repeats an earlier one. */
  method CheckDuplicates(document: Document) returns (duplicates: seq<Duplicate>)
    ensures PlainResources(document) ==>
      forall position :: ResourceAt(document, position).Some? ==>
        (Reported(duplicates, IndexOf(document, position)) <==> RepeatsEarlier(document, position))
    ensures PlainResources(document) ==>
      (duplicates == [] <==> forall position :: !RepeatsEarlier(document, position))
    ensures PlainResources(document) ==>
      forall d :: d in duplicates ==> Owns(DocumentResources(document), d.first, d.second)
  {
    hide Justified, Complete, DocumentResources, RepeatsEarlier, PlainResources, ResourceAt, IndexOf, Owns;
    duplicates := FindDuplicates(DocumentResources(document));
    if PlainResources(document) {
      forall position | ResourceAt(document, position).Some?
        ensures Reported(duplicates, IndexOf(document, position)) <==> RepeatsEarlier(document, position)
      {
        DuplicatesOnFields(document, duplicates, position);
      }
      RepeatsArePresent(document);
      ReportsHavePositions(document, duplicates);
      ReportsNameOwners(document, duplicates);
    }
  }

  lemma ReportsNameOwners(document: Document, duplicates: seq<Duplicate>)
    requires PlainResources(document) && Justified(DocumentResources(document), duplicates)
    ensures forall d :: d in duplicates ==> Owns(DocumentResources(document), d.first, d.second)
  {
    hide IsNamed, Owns, SharesKey, DocumentResources, NulFree, ResourceAt, IndexOf, Precedes, PlainResources;
    var resources := DocumentResources(document);
    PositionsAreIndices(document);
    forall i | 0 <= i < |resources| ensures NulFree(resources[i].resourceType) {
      var position := IndexHasPosition(document, i);
      PlainIsNulFree(document, position);
    }
    forall d | d in duplicates ensures Owns(resources, d.first, d.second) {
      NamedOnFields(resources, d.first, d.second);
    }
  }

  lemma RepeatsArePresent(document: Document)
    ensures forall position :: RepeatsEarlier(document, position) ==> ResourceAt(document, position).Some?
  {
  }

  lemma ReportsHavePositions(document: Document, duplicates: seq<Duplicate>)
    requires Justified(DocumentResources(document), duplicates)
    ensures duplicates != [] ==> exists position ::
      ResourceAt(document, position).Some? && Reported(duplicates, IndexOf(document, position))
    ensures duplicates == [] ==> forall k :: !Reported(duplicates, k)
  {
    hide IsNamed, SharesKey, DocumentResources, ResourceAt, IndexOf, Precedes;
    PositionsAreIndices(document);
    if duplicates != [] {
      assert duplicates[0] in duplicates;
      var position := IndexHasPosition(document, duplicates[0].second);
    }
  }

  /** The resource that a report names: the first one with the same id, or with the same lid when no id is repeated. */
  ghost predicate Owns(resources: seq<Resource>, j: nat, k: nat) {
    && j < k < |resources|
    && if exists i :: 0 <= i < k && SameId(resources[i], resources[k])
       then SameId(resources[j], resources[k]) && forall i :: 0 <= i < j ==> !SameId(resources[i], resources[k])
       else SameLid(resources[j], resources[k]) && forall i :: 0 <= i < j ==> !SameLid(resources[i], resources[k])
  }

  /** The keys of a resource, by id first, and who else has them. */
  lemma KeysOnFields(resource: Resource)
    ensures var keys := ResourceKeys(resource);
      var byId := resource.resourceType != "" && Given(resource.id);
      var byLid := resource.resourceType != "" && Given(resource.lid);
      && |keys| == (if byId then 1 else 0) + (if byLid then 1 else 0)
      && (byId ==> keys[0] == Key(Alias(resource.resourceType, true, resource.id.value)))
      && (byLid ==> keys[|keys| - 1] == Key(Alias(resource.resourceType, false, resource.lid.value)))
  {
  }

  lemma HoldersOnFields(holder: Resource, resource: Resource)
    requires NulFree(holder.resourceType) && NulFree(resource.resourceType)
    ensures resource.resourceType != "" && Given(resource.id) ==>
      (Key(Alias(resource.resourceType, true, resource.id.value)) in ResourceKeys(holder) <==> SameId(holder, resource))
    ensures resource.resourceType != "" && Given(resource.lid) ==>
      (Key(Alias(resource.resourceType, false, resource.lid.value)) in ResourceKeys(holder) <==> SameLid(holder, resource))
  {
    hide Key, ResourceKeys, NulFree;
    KeysOnFields(holder);
    var ofId, ofLid := Alias(holder.resourceType, true, holder.id.value), Alias(holder.resourceType, false, holder.lid.value);
    var id, lid := Alias(resource.resourceType, true, resource.id.value), Alias(resource.resourceType, false, resource.lid.value);
    KeysAreInjective(ofId, id);
    KeysAreInjective(ofId, lid);
    KeysAreInjective(ofLid, id);
    KeysAreInjective(ofLid, lid);
    var keys := ResourceKeys(holder);
    assert forall key :: key in keys <==> exists i :: 0 <= i < |keys| && keys[i] == key;
    assert |keys| == 2 ==> keys[1] == Key(ofLid);
  }

  /** Over plain types, the resource a report names is told by the fields. */
  lemma NamedOnFields(resources: seq<Resource>, j: nat, k: nat)
    requires forall i :: 0 <= i < |resources| ==> NulFree(resources[i].resourceType)
    ensures IsNamed(resources, j, k) <==> Owns(resources, j, k)
  {
    hide Key, NulFree, ResourceKeys, SameId, SameLid;
    if j < k < |resources| {
      var resource := resources[k];
      var keys := ResourceKeys(resource);
      KeysOnFields(resource);
      GivenWhereShared(resources, k);
      forall i | 0 <= i < |resources|
        ensures resource.resourceType != "" && Given(resource.id) ==>
          (HasKey(resources, i, keys[0]) <==> SameId(resources[i], resource))
        ensures resource.resourceType != "" && Given(resource.lid) ==>
          (HasKey(resources, i, keys[|keys| - 1]) <==> SameLid(resources[i], resource))
      {
        HoldersOnFields(resources[i], resource);
      }
    }
  }

  lemma GivenWhereShared(resources: seq<Resource>, k: nat)
    requires k < |resources|
    ensures forall i :: 0 <= i < |resources| && SameId(resources[i], resources[k]) ==>
      resources[k].resourceType != "" && Given(resources[k].id)
    ensures forall i :: 0 <= i < |resources| && SameLid(resources[i], resources[k]) ==>
      resources[k].resourceType != "" && Given(resources[k].lid)
  {
  }

  /** The linkage of a resource holds the identifiers that its fields link, and no others. */
  lemma NamedIdentifiersOnFields(relationships: Relationships, name: string, identifier: Identifier)
    requires name in relationships
    ensures identifier in NamedIdentifiers(relationships, name) <==> IsLinkedUnder(relationships, name, identifier)
  {
  }

  /** How often: once for a to-one linkage, as often as it is listed in a to-many linkage. */
  lemma NamedIdentifiersTimes(relationships: Relationships, name: string, identifier: Identifier)
    requires name in relationships
    ensures multiset(NamedIdentifiers(relationships, name))[identifier] ==
      if name != "" && name[0] == '@' then 0
      else
        match relationships[name].data
        case Some(ToOne(one)) => if one == identifier then 1 else 0
        case Some(ToMany(many)) => multiset(many)[identifier]
        case _ => 0
  {
  }
}
