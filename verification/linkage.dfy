/**
  Full linkage of compound documents: every included resource is reached from primary data through
  relationship linkage. The worklist of `validateIncluded` is proved against reachability.
 */
module Linkage {
  import opened Documents
  import opened Identity
  import opened IdentityFields

  // Linkage as a collection: map order plays no role, repetitions do.

  ghost function BagOf(relationships: Relationships, names: set<string>): multiset<Identifier>
    requires names <= relationships.Keys
  {
    if names == {} then multiset{}
    else
      var name :| name in names;
      multiset(NamedIdentifiers(relationships, name)) + BagOf(relationships, names - {name})
  }

  ghost function LinkageBag(relationships: Relationships): multiset<Identifier> {
    BagOf(relationships, relationships.Keys)
  }

  /** Any name can be counted first. */
  lemma {:induction false} BagWithout(relationships: Relationships, names: set<string>, name: string)
    requires names <= relationships.Keys && name in names
    ensures BagOf(relationships, names)
      == multiset(NamedIdentifiers(relationships, name)) + BagOf(relationships, names - {name})
    decreases names
  {
    var first :| first in names && BagOf(relationships, names)
      == multiset(NamedIdentifiers(relationships, first)) + BagOf(relationships, names - {first});
    if first != name {
      BagWithout(relationships, names - {first}, name);
      BagWithout(relationships, names - {name}, first);
      assert names - {first} - {name} == names - {name} - {first};
    }
  }

  /** `relationshipIdentifiers`, in whatever order the map is visited. */
  method RelationshipIdentifiers(relationships: Relationships) returns (identifiers: seq<Identifier>)
    ensures multiset(identifiers) == LinkageBag(relationships)
  {
    identifiers := [];
    var pending := relationships.Keys;
    while pending != {}
      invariant pending <= relationships.Keys
      invariant multiset(identifiers) + BagOf(relationships, pending) == LinkageBag(relationships)
      decreases pending
    {
      var name :| name in pending;
      BagWithout(relationships, pending, name);
      pending := pending - {name};
      identifiers := identifiers + NamedIdentifiers(relationships, name);
    }
  }

  ghost function PrimaryBag(resources: seq<Resource>): multiset<Identifier> {
    if resources == [] then multiset{}
    else PrimaryBag(resources[..|resources| - 1]) + LinkageBag(RelationshipsOf(resources[|resources| - 1]))
  }

  /** `primaryLinkage`. */
  method PrimaryLinkage(data: Option<PrimaryData>) returns (identifiers: seq<Identifier>)
    ensures multiset(identifiers) == PrimaryBag(PrimaryResources(data))
  {
    var resources := PrimaryResources(data);
    identifiers := [];
    for i := 0 to |resources|
      invariant multiset(identifiers) == PrimaryBag(resources[..i])
    {
      var linked := RelationshipIdentifiers(RelationshipsOf(resources[i]));
      identifiers := identifiers + linked;
      assert resources[..i + 1][..i] == resources[..i];
    }
    assert resources[..|resources|] == resources;
  }

  // Reachability, on the graph whose nodes are the included resources.

  /** Identifiers in primary data, identifiers in each node, and the nodes an identifier names. */
  datatype Graph = Graph(
    primary: multiset<Identifier>, outgoing: seq<multiset<Identifier>>, targets: Identifier -> set<nat>)

  ghost predicate WellFormed(g: Graph) {
    forall identifier, j :: j in g.targets(identifier) ==> j < |g.outgoing|
  }

  ghost predicate LinksTo(g: Graph, bag: multiset<Identifier>, j: nat) {
    exists identifier :: identifier in bag && j in g.targets(identifier)
  }

  /** A chain of nodes, the first linked from primary data and each other one from its predecessor. */
  ghost predicate Chain(g: Graph, path: seq<nat>) {
    && path != []
    && (forall k :: 0 <= k < |path| ==> path[k] < |g.outgoing|)
    && LinksTo(g, g.primary, path[0])
    && forall k :: 0 < k < |path| ==> LinksTo(g, g.outgoing[path[k - 1]], path[k])
  }

  ghost predicate Reached(g: Graph, j: nat) {
    exists path :: Chain(g, path) && path[|path| - 1] == j
  }

  ghost function ReachedSet(g: Graph): set<nat> {
    set j | 0 <= j < |g.outgoing| && Reached(g, j)
  }

  /** Everything the identifiers of the collection name lies in `s`. */
  ghost predicate Followed(g: Graph, bag: multiset<Identifier>, s: set<nat>) {
    forall identifier :: identifier in bag ==> g.targets(identifier) <= s
  }

  ghost predicate Closed(g: Graph, s: set<nat>) {
    && Followed(g, g.primary, s)
    && forall i: nat :: i in s && i < |g.outgoing| ==> Followed(g, g.outgoing[i], s)
  }

  lemma {:induction false} ClosedContainsChain(g: Graph, s: set<nat>, path: seq<nat>)
    requires Closed(g, s) && Chain(g, path)
    ensures path[|path| - 1] in s
    decreases |path|
  {
    var last := |path| - 1;
    if last > 0 {
      ClosedContainsChain(g, s, path[..last]);
      assert path[last - 1] in s && LinksTo(g, g.outgoing[path[last - 1]], path[last]);
    }
  }

  lemma ChainExtends(g: Graph, path: seq<nat>, j: nat)
    requires Chain(g, path) && j < |g.outgoing| && LinksTo(g, g.outgoing[path[|path| - 1]], j)
    ensures Chain(g, path + [j])
  {
    var longer := path + [j];
    assert longer[..|path|] == path;
    forall k | 0 < k < |longer|
      ensures LinksTo(g, g.outgoing[longer[k - 1]], longer[k])
    {
      assert longer[k - 1] == path[k - 1];
    }
  }

  /** The reached nodes are the least set closed under linkage. */
  lemma ReachedIsLeastClosed(g: Graph)
    requires WellFormed(g)
    ensures Closed(g, ReachedSet(g))
    ensures forall s :: Closed(g, s) ==> ReachedSet(g) <= s
  {
    var reached := ReachedSet(g);
    forall identifier, j | identifier in g.primary && j in g.targets(identifier) ensures j in reached {
      assert Chain(g, [j]);
      assert [j][|[j]| - 1] == j;
    }
    forall i: nat, identifier, j | i in reached && identifier in g.outgoing[i] && j in g.targets(identifier)
      ensures j in reached
    {
      var path :| Chain(g, path) && path[|path| - 1] == i;
      ChainExtends(g, path, j);
      assert (path + [j])[|path + [j]| - 1] == j;
    }
    forall s, j | Closed(g, s) && j in reached ensures j in s {
      var path :| Chain(g, path) && path[|path| - 1] == j;
      ClosedContainsChain(g, s, path);
    }
  }

  // What the worklist has taken from its queue.

  ghost function BagOfAll(g: Graph, nodes: set<nat>): multiset<Identifier>
    requires forall i :: i in nodes ==> i < |g.outgoing|
  {
    if nodes == {} then multiset{}
    else
      var i :| i in nodes;
      g.outgoing[i] + BagOfAll(g, nodes - {i})
  }

  lemma {:induction false} BagOfAllWithout(g: Graph, nodes: set<nat>, node: nat)
    requires forall i :: i in nodes ==> i < |g.outgoing|
    requires node in nodes
    ensures BagOfAll(g, nodes) == g.outgoing[node] + BagOfAll(g, nodes - {node})
    decreases nodes
  {
    var first :| first in nodes && BagOfAll(g, nodes) == g.outgoing[first] + BagOfAll(g, nodes - {first});
    if first != node {
      BagOfAllWithout(g, nodes - {first}, node);
      BagOfAllWithout(g, nodes - {node}, first);
      assert nodes - {first} - {node} == nodes - {node} - {first};
    }
  }

  // The alias index.

  ghost predicate Names(identifier: Identifier, resource: Resource) {
    IdentifierKey(identifier) in ResourceKeys(resource)
  }

  /** The included resources an identifier names. */
  ghost function Targets(included: seq<Resource>, identifier: Identifier): set<nat> {
    set j | 0 <= j < |included| && Names(identifier, included[j])
  }

  ghost function GraphOf(primary: multiset<Identifier>, included: seq<Resource>): Graph {
    Graph(
      primary,
      seq(|included|, i requires 0 <= i < |included| => LinkageBag(RelationshipsOf(included[i]))),
      identifier => Targets(included, identifier))
  }

  ghost predicate Indexes(index: map<string, seq<nat>>, included: seq<Resource>, count: nat) {
    && (forall key, x :: key in index && 0 <= x < |index[key]| ==>
          index[key][x] < count && HasKey(included, index[key][x], key))
    && forall i, key :: 0 <= i < count && HasKey(included, i, key) ==> key in index && i in index[key]
  }

  method BuildIndex(included: seq<Resource>) returns (index: map<string, seq<nat>>)
    ensures Indexes(index, included, |included|)
  {
    index := map[];
    for i := 0 to |included|
      invariant Indexes(index, included, i)
    {
      index := IndexResource(index, included, i);
    }
  }

  method IndexResource(index: map<string, seq<nat>>, included: seq<Resource>, i: nat)
    returns (extended: map<string, seq<nat>>)
    requires i < |included| && Indexes(index, included, i)
    ensures Indexes(extended, included, i + 1)
  {
    hide ResourceKeys;
    var keys := ResourceKeys(included[i]);
    extended := index;
    for k := 0 to |keys|
      invariant forall key, x :: key in extended && 0 <= x < |extended[key]| ==>
        extended[key][x] < i + 1 && HasKey(included, extended[key][x], key)
      invariant forall j, key :: 0 <= j < i && HasKey(included, j, key) ==> key in extended && j in extended[key]
      invariant forall x :: 0 <= x < k ==> keys[x] in extended && i in extended[keys[x]]
    {
      var before := if keys[k] in extended then extended[keys[k]] else [];
      var after := before + [i];
      assert after[|before|] == i;
      assert HasKey(included, i, keys[k]);
      extended := extended[keys[k] := after];
    }
  }

  /** Pairs a graph with the resources it was read from. */
  ghost predicate ReadsOff(g: Graph, included: seq<Resource>) {
    && |g.outgoing| == |included|
    && (forall i {:trigger LinkageBag(RelationshipsOf(included[i]))} :: 0 <= i < |included| ==>
          LinkageBag(RelationshipsOf(included[i])) == g.outgoing[i])
    && forall identifier {:trigger Targets(included, identifier)} ::
         Targets(included, identifier) == g.targets(identifier)
  }

  method Lookup(index: map<string, seq<nat>>, included: seq<Resource>, ghost g: Graph, identifier: Identifier)
    returns (matches: seq<nat>)
    requires Indexes(index, included, |included|) && ReadsOff(g, included)
    ensures forall j: nat :: j in g.targets(identifier) <==> j in matches
  {
    var key := IdentifierKey(identifier);
    matches := if key in index then index[key] else [];
    assert Targets(included, identifier) == g.targets(identifier);
    forall j: nat ensures j in Targets(included, identifier) <==> j in matches {
      assert j in Targets(included, identifier) <==> HasKey(included, j, key);
    }
  }

  // The worklist.

  ghost function Nodes(count: nat): (nodes: set<nat>)
    ensures forall i: nat :: i in nodes <==> i < count
  {
    if count == 0 then {} else Nodes(count - 1) + {count - 1}
  }

  /**
    The worklist: it terminates on every document, cyclic ones included, takes exactly the primary
    identifiers and the linkage of each reached resource once, and finds exactly what is reachable.
   */
  method Traverse(included: seq<Resource>, start: seq<Identifier>, ghost g: Graph)
    returns (reachable: set<nat>, ghost popped: multiset<Identifier>)
    requires WellFormed(g) && ReadsOff(g, included) && g.primary == multiset(start)
    ensures reachable == ReachedSet(g)
    ensures popped == multiset(start) + BagOfAll(g, reachable)
  {
    var index := BuildIndex(included);
    ghost var goal := ReachedSet(g);
    ReachedIsLeastClosed(g);
    reachable := {};
    var queue := start;
    popped := multiset{};
    while queue != []
      invariant Progress(g, goal, reachable, popped, multiset(queue))
      invariant Followed(g, popped, reachable)
      decreases Nodes(|included|) - reachable, |queue|
    {
      var identifier := queue[0];
      TakeFirst(queue);
      ghost var before := reachable;
      var matches := Lookup(index, included, g, identifier);
      Taken(g, goal, reachable, popped, multiset(queue[1..]), identifier);
      reachable, queue := Visit(
        included, g, goal, matches, reachable, queue[1..], identifier, popped + multiset{identifier});
      FollowedTogether(g, popped, multiset{identifier}, reachable);
      popped := popped + multiset{identifier};
      Shrinks(|included|, before, reachable);
    }
    ExhaustedIsClosed(g, reachable, popped);
  }

  lemma TakeFirst<T>(items: seq<T>)
    requires items != []
    ensures multiset(items) == multiset(items[1..]) + multiset{items[0]}
  {
    assert items == [items[0]] + items[1..];
  }

  /** What the traversal keeps: nothing unreachable is found, and no identifier is lost or invented. */
  ghost predicate Progress(
    g: Graph, goal: set<nat>, reachable: set<nat>, popped: multiset<Identifier>, queue: multiset<Identifier>)
  {
    && reachable <= goal
    && (forall j :: j in goal ==> j < |g.outgoing|)
    && Followed(g, queue, goal)
    && popped + queue == g.primary + BagOfAll(g, reachable)
  }

  lemma Taken(
    g: Graph, goal: set<nat>, reachable: set<nat>, popped: multiset<Identifier>,
    queue: multiset<Identifier>, identifier: Identifier)
    requires Progress(g, goal, reachable, popped, queue + multiset{identifier})
    ensures Progress(g, goal, reachable, popped + multiset{identifier}, queue)
    ensures g.targets(identifier) <= goal
  {
    assert identifier in queue + multiset{identifier};
    assert popped + multiset{identifier} + queue == popped + (queue + multiset{identifier});
  }

  lemma Shrinks(count: nat, before: set<nat>, after: set<nat>)
    requires before <= after
    requires forall j :: j in after ==> j < count
    ensures after == before || Nodes(count) - after < Nodes(count) - before
  {
    if after != before {
      var j :| j in after && j !in before;
      assert j in Nodes(count) - before;
    }
  }

  method LinkageOfNode(included: seq<Resource>, ghost g: Graph, i: nat) returns (linked: seq<Identifier>)
    requires ReadsOff(g, included) && i < |included|
    ensures multiset(linked) == g.outgoing[i]
  {
    linked := RelationshipIdentifiers(RelationshipsOf(included[i]));
  }

  /** The inner loop over the resources found under one key. */
  method Visit(
    included: seq<Resource>, ghost g: Graph, ghost goal: set<nat>, matches: seq<nat>,
    visited: set<nat>, waiting: seq<Identifier>, ghost identifier: Identifier, ghost popped: multiset<Identifier>)
    returns (reachable: set<nat>, queue: seq<Identifier>)
    requires ReadsOff(g, included) && Closed(g, goal)
    requires Progress(g, goal, visited, popped, multiset(waiting))
    requires g.targets(identifier) <= goal
    requires forall j: nat :: j in g.targets(identifier) <==> j in matches
    ensures Progress(g, goal, reachable, popped, multiset(queue))
    ensures visited <= reachable && g.targets(identifier) <= reachable
    ensures reachable == visited ==> queue == waiting
  {
    reachable, queue := visited, waiting;
    for x := 0 to |matches|
      invariant visited <= reachable
      invariant Progress(g, goal, reachable, popped, multiset(queue))
      invariant forall y :: 0 <= y < x ==> matches[y] in reachable
      invariant reachable == visited ==> queue == waiting
    {
      var i := matches[x];
      assert i in g.targets(identifier);
      if i !in reachable {
        var linked := LinkageOfNode(included, g, i);
        VisitStep(g, goal, reachable, popped, multiset(queue), multiset(linked), i);
        reachable := reachable + {i};
        queue := queue + linked;
      }
    }
  }

  lemma VisitStep(
    g: Graph, goal: set<nat>, reachable: set<nat>, popped: multiset<Identifier>,
    queue: multiset<Identifier>, linked: multiset<Identifier>, i: nat)
    requires Closed(g, goal) && Progress(g, goal, reachable, popped, queue)
    requires i in goal && i !in reachable && linked == g.outgoing[i]
    ensures Progress(g, goal, reachable + {i}, popped, queue + linked)
  {
    var before, after := BagOfAll(g, reachable), BagOfAll(g, reachable + {i});
    assert after == linked + before by {
      assert reachable + {i} - {i} == reachable;
      BagOfAllWithout(g, reachable + {i}, i);
    }
    MoveToQueue(popped, queue, linked, g.primary, before);
    FollowedTogether(g, queue, linked, goal);
  }

  lemma MoveToQueue<T>(popped: multiset<T>, queue: multiset<T>, linked: multiset<T>, primary: multiset<T>, bag: multiset<T>)
    requires popped + queue == primary + bag
    ensures popped + (queue + linked) == primary + (linked + bag)
  {
    forall x ensures (popped + (queue + linked))[x] == (primary + (linked + bag))[x] {
      assert (popped + queue)[x] == (primary + bag)[x];
    }
  }

  lemma FollowedTogether(g: Graph, a: multiset<Identifier>, b: multiset<Identifier>, s: set<nat>)
    requires Followed(g, a, s) && Followed(g, b, s)
    ensures Followed(g, a + b, s)
  {
  }

  /** Once the queue is empty the reached set is closed, so it holds everything reachable. */
  lemma ExhaustedIsClosed(g: Graph, reachable: set<nat>, popped: multiset<Identifier>)
    requires WellFormed(g) && reachable <= ReachedSet(g)
    requires popped == g.primary + BagOfAll(g, reachable)
    requires Followed(g, popped, reachable)
    ensures reachable == ReachedSet(g)
  {
    forall i: nat | i in reachable ensures Followed(g, g.outgoing[i], reachable) {
      BagOfAllWithout(g, reachable, i);
    }
    assert Closed(g, reachable);
    ReachedIsLeastClosed(g);
  }

  /** The linkage graph of a compound document. */
  ghost function DocumentGraph(document: Document): Graph {
    GraphOf(PrimaryBag(PrimaryResources(document.data)), IncludedResources(document))
  }

  /**
    The full-linkage violations of `validateIncluded`, as indices into the included resources: with
    the sparse-fieldset exception off, exactly the unreachable ones, in order; with it on, none.
   */
  method CheckFullLinkage(document: Document, sparseFieldsetsOmittedLinkage: bool) returns (violations: seq<nat>)
    ensures forall j: nat :: j in violations <==>
      && !sparseFieldsetsOmittedLinkage
      && j < |IncludedResources(document)|
      && !Reached(DocumentGraph(document), j)
    ensures forall x, y :: 0 <= x < y < |violations| ==> violations[x] < violations[y]
    ensures PlainTypes(document) ==> forall j: nat :: j in violations <==>
      && !sparseFieldsetsOmittedLinkage
      && document.included.Some? && j < |document.included.value| && !FullyLinked(document, j)
  {
    hide PlainTypes, FullyLinked, Reached;
    violations := [];
    if document.included.None? {
      return;
    }
    var included := document.included.value;
    var queue := PrimaryLinkage(document.data);
    ghost var g := DocumentGraph(document);
    var reachable, popped := Traverse(included, queue, g);
    violations := Unreached(|included|, reachable, sparseFieldsetsOmittedLinkage);
    assert forall j: nat :: j < |included| ==> (j in reachable <==> Reached(g, j));
    if PlainTypes(document) {
      forall j: nat ensures Reached(g, j) <==> FullyLinked(document, j) {
        ReachedOnFields(document, j);
      }
    }
  }

  method Unreached(count: nat, reachable: set<nat>, omit: bool) returns (violations: seq<nat>)
    ensures forall j: nat :: j in violations <==> !omit && j < count && j !in reachable
    ensures forall x, y :: 0 <= x < y < |violations| ==> violations[x] < violations[y]
  {
    violations := [];
    for i := 0 to count
      invariant forall x :: 0 <= x < |violations| ==> violations[x] < i
      invariant forall x, y :: 0 <= x < y < |violations| ==> violations[x] < violations[y]
      invariant forall j: nat :: j in violations <==> !omit && j < i && j !in reachable
    {
      if i !in reachable && !omit {
        violations := violations + [i];
      }
    }
  }

  /** What a link means for valid types: same type, and the id decides when the identifier has one. */
  lemma NamesMeansAlias(identifier: Identifier, resource: Resource)
    requires NulFree(identifier.resourceType) && NulFree(resource.resourceType)
    ensures Names(identifier, resource) <==>
      && resource.resourceType != ""
      && identifier.resourceType == resource.resourceType
      && if identifier.id.Has() then resource.id.Has() && resource.id.value == identifier.id.value
         else resource.lid.Has() && resource.lid.value == identifier.lid.value
  {
    var aliases := ResourceAliases(resource);
    var alias := IdentifierAlias(identifier);
    var keys := ResourceKeys(resource);
    assert Names(identifier, resource) <==> exists i :: 0 <= i < |keys| && keys[i] == IdentifierKey(identifier);
    forall i | 0 <= i < |aliases| ensures keys[i] == IdentifierKey(identifier) <==> aliases[i] == alias {
      KeysAreInjective(aliases[i], alias);
    }
    assert Names(identifier, resource) <==> alias in aliases;
  }

  // The same on the fields of a document.

  lemma {:induction false} BagOnFields(relationships: Relationships, names: set<string>, identifier: Identifier)
    requires names <= relationships.Keys
    ensures identifier in BagOf(relationships, names) <==>
      exists name :: name in names && IsLinkedUnder(relationships, name, identifier)
    decreases names
  {
    hide IsLinkedUnder, NamedIdentifiers;
    if names != {} {
      var name :| name in names
        && BagOf(relationships, names) == multiset(NamedIdentifiers(relationships, name)) + BagOf(relationships, names - {name});
      BagOnFields(relationships, names - {name}, identifier);
      NamedIdentifiersOnFields(relationships, name, identifier);
    }
  }

  /** The linkage of a resource holds exactly the identifiers its fields link. */
  lemma LinkageOnFields(resource: Resource, identifier: Identifier)
    ensures identifier in LinkageBag(RelationshipsOf(resource)) <==> IsLinked(resource.relationships, identifier)
  {
    hide IsLinkedUnder;
    BagOnFields(RelationshipsOf(resource), RelationshipsOf(resource).Keys, identifier);
    assert resource.relationships.Some? ==> forall name ::
      IsLinkedUnder(resource.relationships.value, name, identifier) ==> name in resource.relationships.value by {
      NamesLink(resource, identifier);
    }
  }

  lemma NamesLink(resource: Resource, identifier: Identifier)
    ensures resource.relationships.Some? ==> forall name ::
      IsLinkedUnder(resource.relationships.value, name, identifier) ==> name in resource.relationships.value
  {
  }

  /** And each of them as often: one more relationship adds what its own data lists. */
  lemma LinkageTimes(relationships: Relationships, name: string, relationship: Relationship, identifier: Identifier)
    requires name !in relationships
    ensures LinkageBag(map[]) == multiset{}
    ensures LinkageBag(relationships[name := relationship])[identifier] == LinkageBag(relationships)[identifier] +
      if name != "" && name[0] == '@' then 0
      else
        match relationship.data
        case Some(ToOne(one)) => if one == identifier then 1 else 0
        case Some(ToMany(many)) => multiset(many)[identifier]
        case _ => 0
  {
    hide NamedIdentifiers;
    var extended := relationships[name := relationship];
    BagWithout(extended, extended.Keys, name);
    assert extended.Keys - {name} == relationships.Keys;
    SameBags(extended, relationships, relationships.Keys);
    NamedIdentifiersTimes(extended, name, identifier);
  }

  lemma {:induction false} SameBags(first: Relationships, second: Relationships, names: set<string>)
    requires names <= first.Keys && names <= second.Keys
    requires forall name :: name in names ==> first[name] == second[name]
    ensures BagOf(first, names) == BagOf(second, names)
    decreases names
  {
    if names != {} {
      var name :| name in names;
      BagWithout(first, names, name);
      BagWithout(second, names, name);
      SameBags(first, second, names - {name});
      assert NamedIdentifiers(first, name) == NamedIdentifiers(second, name);
    }
  }

  /** The linkage of primary data is that of its one resource, or of all of them together. */
  lemma PrimaryBagOnFields(data: Option<PrimaryData>)
    ensures data.None? || data == Some(NullData) ==> PrimaryBag(PrimaryResources(data)) == multiset{}
    ensures forall one :: data == Some(ResourceData(one)) ==>
      PrimaryBag(PrimaryResources(data)) == LinkageBag(RelationshipsOf(one))
    ensures data == Some(ResourceCollection([])) ==> PrimaryBag(PrimaryResources(data)) == multiset{}
    ensures forall many, last :: data == Some(ResourceCollection(many + [last])) ==>
      PrimaryBag(PrimaryResources(data))
        == PrimaryBag(PrimaryResources(Some(ResourceCollection(many)))) + LinkageBag(RelationshipsOf(last))
  {
    if data.Some? && data.value.ResourceData? {
      assert [data.value.one][..0] == [];
      assert PrimaryBag([data.value.one]) == PrimaryBag([]) + LinkageBag(RelationshipsOf(data.value.one));
    }
    forall many, last | data == Some(ResourceCollection(many + [last]))
      ensures PrimaryBag(many + [last]) == PrimaryBag(many) + LinkageBag(RelationshipsOf(last))
    {
      assert (many + [last])[..|many|] == many;
    }
  }

  lemma {:induction false} PrimaryBagHolds(resources: seq<Resource>, identifier: Identifier)
    ensures identifier in PrimaryBag(resources) <==>
      exists i :: 0 <= i < |resources| && IsLinked(resources[i].relationships, identifier)
  {
    hide IsLinked, LinkageBag;
    if resources != [] {
      var front, last := resources[..|resources| - 1], resources[|resources| - 1];
      PrimaryBagHolds(front, identifier);
      LinkageOnFields(last, identifier);
      assert forall i :: 0 <= i < |front| ==> front[i] == resources[i];
    }
  }

  lemma PrimaryPositions(document: Document)
    ensures forall i :: 0 <= i < |PrimaryResources(document.data)| ==>
      IsPrimary(document, PrimaryResources(document.data)[i])
    ensures forall resource :: IsPrimary(document, resource) ==> resource in PrimaryResources(document.data)
  {
    forall i | 0 <= i < |PrimaryResources(document.data)|
      ensures IsPrimary(document, PrimaryResources(document.data)[i])
    {
      var position := if document.data.value.ResourceData? then Alone else Item(i);
      assert ResourceAt(document, position) == Some(PrimaryResources(document.data)[i]);
    }
  }

  /** An identifier of primary linkage is one that a primary resource links. */
  lemma PrimaryLinkageOnFields(document: Document, identifier: Identifier)
    ensures identifier in PrimaryBag(PrimaryResources(document.data)) <==>
      exists resource :: IsPrimary(document, resource) && IsLinked(resource.relationships, identifier)
  {
    hide IsLinked, IsPrimary, PrimaryBag, PrimaryResources;
    PrimaryBagHolds(PrimaryResources(document.data), identifier);
    PrimaryPositions(document);
  }

  /** What an identifier refers to, without keys. */
  lemma RefersOnFields(identifier: Identifier, resource: Resource)
    requires PlainType(identifier.resourceType) && PlainType(resource.resourceType)
    ensures Names(identifier, resource) <==> Refers(identifier, resource)
  {
    NamesMeansAlias(identifier, resource);
  }

  lemma NodeLinksOnFields(document: Document, resource: Resource, target: nat)
    requires document.included.Some? && target < |document.included.value|
    requires PlainResource(resource) && PlainType(document.included.value[target].resourceType)
    ensures LinksTo(DocumentGraph(document), LinkageBag(RelationshipsOf(resource)), target) <==>
      LeadsTo(resource, document.included.value[target])
  {
    hide LinkageBag, IsLinked, Names, Refers, PrimaryBag, PlainType;
    var g := DocumentGraph(document);
    forall identifier
      ensures identifier in LinkageBag(RelationshipsOf(resource)) <==> IsLinked(resource.relationships, identifier)
      ensures IsLinked(resource.relationships, identifier) ==>
        (target in g.targets(identifier) <==> Refers(identifier, document.included.value[target]))
    {
      LinkageOnFields(resource, identifier);
      if IsLinked(resource.relationships, identifier) {
        RefersOnFields(identifier, document.included.value[target]);
      }
    }
  }

  lemma PrimaryLinksOnFields(document: Document, target: nat)
    requires document.included.Some? && target < |document.included.value| && PlainTypes(document)
    ensures LinksTo(DocumentGraph(document), DocumentGraph(document).primary, target) <==>
      PrimaryLeadsTo(document, document.included.value[target])
  {
    hide IsLinked, Names, Refers, PrimaryBag, PlainType, IsPrimary, PrimaryResources, LinkageBag;
    var g := DocumentGraph(document);
    PlainIncluded(document, target);
    forall identifier
      ensures identifier in g.primary <==>
        exists resource :: IsPrimary(document, resource) && IsLinked(resource.relationships, identifier)
      ensures identifier in g.primary ==>
        (target in g.targets(identifier) <==> Refers(identifier, document.included.value[target]))
    {
      PrimaryLinkageOnFields(document, identifier);
      if resource :| IsPrimary(document, resource) && IsLinked(resource.relationships, identifier) {
        PlainPrimary(document, resource);
        RefersOnFields(identifier, document.included.value[target]);
      }
    }
  }

  lemma PlainPrimary(document: Document, resource: Resource)
    requires PlainTypes(document) && IsPrimary(document, resource)
    ensures PlainResource(resource)
  {
  }

  lemma PlainIncluded(document: Document, j: nat)
    requires PlainTypes(document) && document.included.Some? && j < |document.included.value|
    ensures PlainResource(document.included.value[j])
  {
    assert ResourceAt(document, Included(j)) == Some(document.included.value[j]);
  }

  lemma ChainsOnFields(document: Document, path: seq<nat>)
    requires PlainTypes(document) && document.included.Some?
    ensures Chain(DocumentGraph(document), path) <==> LinkedChain(document, path)
  {
    hide LinksTo, LeadsTo, PrimaryLeadsTo, PrimaryBag, LinkageBag, Targets, PlainTypes, PlainResource;
    var g, included := DocumentGraph(document), document.included.value;
    if path != [] && forall k :: 0 <= k < |path| ==> path[k] < |included| {
      PrimaryLinksOnFields(document, path[0]);
      forall k | 0 < k < |path|
        ensures LinksTo(g, g.outgoing[path[k - 1]], path[k]) <==>
          LeadsTo(included[path[k - 1]], included[path[k]])
      {
        PlainIncluded(document, path[k - 1]);
        PlainIncluded(document, path[k]);
        PlainResourceType(included[path[k]]);
        NodeLinksOnFields(document, included[path[k - 1]], path[k]);
      }
    }
  }

  lemma PlainResourceType(resource: Resource)
    requires PlainResource(resource)
    ensures PlainType(resource.resourceType)
  {
  }

  /** Over plain types, what is reached is what a chain of the document's own fields leads to. */
  lemma ReachedOnFields(document: Document, j: nat)
    requires PlainTypes(document) && document.included.Some?
    ensures Reached(DocumentGraph(document), j) <==> FullyLinked(document, j)
  {
    hide Chain, LinkedChain, DocumentGraph, PlainTypes;
    forall path ensures Chain(DocumentGraph(document), path) <==> LinkedChain(document, path) {
      ChainsOnFields(document, path);
    }
  }
}
