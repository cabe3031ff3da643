/**
  Atomic Operations documents: resolution of local identifiers in document order, correspondence of
  results and operations, and the request and response contexts.
 */
module Atomic {
  import opened Documents
  import opened Identity
  import opened IdentityFields
  import opened LocalIdentity

  const ADD := "add"
  const UPDATE := "update"
  const REMOVE := "remove"

  datatype Reference = Reference(resourceType: string, id: Field, lid: Field, relationship: Field)

  datatype Operation = Operation(
    op: string,
    ref: Option<Reference>,
    href: Field,
    data: Option<PrimaryData>,
    meta: Option<Members>)

  datatype OperationResult = OperationResult(data: Option<PrimaryData>, meta: Option<Members>)

  // Local identifiers.

  function LocalAlias(resourceType: string, lid: string): Alias {
    Alias(resourceType, false, lid)
  }

  /** The local identifier that an operation assigns. */
  function Introduced(operation: Operation): Option<Alias> {
    if operation.op == ADD && operation.data.Some? && operation.data.value.ResourceData? then
      var resource := operation.data.value.one;
      if resource.resourceType != "" && resource.lid.Has()
      then Some(LocalAlias(resource.resourceType, resource.lid.value))
      else None
    else None
  }

  /** The local identifier that the target of an operation refers to. */
  function RefLid(operation: Operation): Option<Alias> {
    if operation.ref.Some? && operation.ref.value.lid.Has()
    then Some(LocalAlias(operation.ref.value.resourceType, operation.ref.value.lid.value))
    else None
  }

  function FromResource(resource: Resource): Observation {
    Observation(resource.resourceType, resource.id, resource.lid)
  }

  predicate LidOnly(observation: Observation) {
    !observation.id.Has() && observation.lid.Has()
  }

  function LidOf(observation: Observation): Alias {
    LocalAlias(observation.resourceType, observation.lid.value)
  }

  /** The identities in the data of an operation that must already be known. */
  ghost function DataObservations(operation: Operation): set<Observation> {
    match operation.data
    case Some(ResourceCollection(many)) => set i | 0 <= i < |many| :: FromResource(many[i])
    case Some(ResourceData(one)) =>
      (if operation.op == ADD then {} else {FromResource(one)}) + LinkageObservations(RelationshipsOf(one))
    case _ => {}
  }

  /** The local identifiers that the data of an operation refers to. */
  ghost function DataLids(operation: Operation): set<Alias> {
    set observation | observation in DataObservations(operation) && LidOnly(observation) :: LidOf(observation)
  }

  datatype Unresolved = Unresolved(operation: nat, inRef: bool, alias: Alias)

  /** One of the first `count` operations assigns a local identifier under this key. */
  ghost predicate Assigned(operations: seq<Operation>, count: nat, key: string) {
    exists j :: 0 <= j < count && j < |operations| && Introduces(operations[j], key)
  }

  ghost predicate Introduces(operation: Operation, key: string) {
    Introduced(operation).Some? && Key(Introduced(operation).value) == key
  }

  /** The target of an operation needs an earlier add; its data may also name what the operation itself adds. */
  ghost predicate IsUnresolved(operations: seq<Operation>, report: Unresolved) {
    && report.operation < |operations|
    && if report.inRef
       then RefLid(operations[report.operation]) == Some(report.alias)
            && !Assigned(operations, report.operation, Key(report.alias))
       else report.alias in DataLids(operations[report.operation])
            && !Assigned(operations, report.operation + 1, Key(report.alias))
  }

  ghost predicate Holds(known: set<string>, operations: seq<Operation>, count: nat) {
    forall key :: key in known <==> Assigned(operations, count, key)
  }

  /**
    `validateAtomicOperations`: one pass in document order reports exactly the references that are
    not resolved by what comes before.
   */
  method ValidateLocalReferences(operations: seq<Operation>) returns (reports: seq<Unresolved>)
    ensures forall report :: report in reports <==> IsUnresolved(operations, report)
  {
    reports := [];
    var known: set<string> := {};
    for index := 0 to |operations|
      invariant Holds(known, operations, index)
      invariant forall report :: report in reports <==> report.operation < index && IsUnresolved(operations, report)
    {
      var operation := operations[index];
      var target := RefLid(operation);
      var refReports := if target.Some? && Key(target.value) !in known
        then [Unresolved(index, true, target.value)] else [];
      var introduced := Introduced(operation);
      if introduced.Some? {
        known := known + {Key(introduced.value)};
      }
      var dataReports := ValidateDataLids(operation, index, known);
      reports := reports + refReports + dataReports;
    }
  }

  /** `validateAtomicDataLIDs`. */
  method ValidateDataLids(operation: Operation, index: nat, known: set<string>) returns (reports: seq<Unresolved>)
    ensures forall report :: report in reports <==>
      report.operation == index && !report.inRef && report.alias in DataLids(operation)
      && Key(report.alias) !in known
  {
    var observations: seq<Observation> := [];
    match operation.data {
      case Some(ResourceCollection(many)) =>
        observations := seq(|many|, i requires 0 <= i < |many| => FromResource(many[i]));
        forall o ensures o in observations <==> o in DataObservations(operation) {
          if o in DataObservations(operation) {
            var i :| 0 <= i < |many| && FromResource(many[i]) == o;
            assert observations[i] == o;
          }
        }
      case Some(ResourceData(one)) =>
        observations := CollectLinkage(RelationshipsOf(one));
        if operation.op != ADD {
          observations := [FromResource(one)] + observations;
        }
        assert forall o :: o in observations <==> o in DataObservations(operation);
      case _ =>
    }
    assert forall o :: o in observations <==> o in DataObservations(operation);
    reports := [];
    for i := 0 to |observations|
      invariant forall report :: report in reports <==>
        report.operation == index && !report.inRef && Key(report.alias) !in known
        && exists j :: 0 <= j < i && LidOnly(observations[j]) && LidOf(observations[j]) == report.alias
    {
      reports := reports + ValidateAssignedLid(observations[i], index, known);
    }
  }

  /** `validateAtomicAssignedLID`: only a reference by lid alone depends on an assignment. */
  function ValidateAssignedLid(observation: Observation, index: nat, known: set<string>): seq<Unresolved> {
    if LidOnly(observation) && Key(LidOf(observation)) !in known
    then [Unresolved(index, false, LidOf(observation))]
    else []
  }

  ghost predicate NothingUnresolved(operations: seq<Operation>) {
    forall report :: !IsUnresolved(operations, report)
  }

  // What resolution means, without keys.

  /** One of the first `count` operations adds the resource with this local identifier. */
  ghost predicate AddedBefore(operations: seq<Operation>, count: nat, alias: Alias) {
    exists j :: 0 <= j < count && j < |operations| && Introduced(operations[j]) == Some(alias)
  }

  ghost predicate SafeAt(operations: seq<Operation>, k: nat)
    requires k < |operations|
  {
    && (RefLid(operations[k]).Some? ==> AddedBefore(operations, k, RefLid(operations[k]).value))
    && forall alias :: alias in DataLids(operations[k]) ==> AddedBefore(operations, k + 1, alias)
  }

  /** Every target was added strictly earlier, every other local reference earlier or by its own operation. */
  ghost predicate LidSafe(operations: seq<Operation>) {
    forall k :: 0 <= k < |operations| ==> SafeAt(operations, k)
  }

  ghost predicate NulFreeTypes(operation: Operation) {
    && (Introduced(operation).Some? ==> NulFree(Introduced(operation).value.resourceType))
    && (RefLid(operation).Some? ==> NulFree(RefLid(operation).value.resourceType))
    && forall alias :: alias in DataLids(operation) ==> NulFree(alias.resourceType)
  }

  lemma AssignedIsAdded(operations: seq<Operation>, count: nat, alias: Alias)
    requires forall k :: 0 <= k < |operations| ==> NulFreeTypes(operations[k])
    requires NulFree(alias.resourceType)
    ensures Assigned(operations, count, Key(alias)) <==> AddedBefore(operations, count, alias)
  {
    forall j | 0 <= j < |operations| && Introduced(operations[j]).Some?
      ensures Introduces(operations[j], Key(alias)) <==> Introduced(operations[j]) == Some(alias)
    {
      KeysAreInjective(Introduced(operations[j]).value, alias);
    }
  }

  /** Over valid types, no report means that every local reference is safe, and the other way round. */
  lemma ResolvedMeansSafe(operations: seq<Operation>)
    requires forall k :: 0 <= k < |operations| ==> NulFreeTypes(operations[k])
    ensures NothingUnresolved(operations) <==> LidSafe(operations)
  {
    forall k | 0 <= k < |operations|
      ensures SafeAt(operations, k) <==>
        forall report: Unresolved :: report.operation == k ==> !IsUnresolved(operations, report)
    {
      ResolvedAt(operations, k);
    }
    if LidSafe(operations) {
      forall report ensures !IsUnresolved(operations, report) {
        if report.operation < |operations| {
          assert SafeAt(operations, report.operation);
        }
      }
    }
  }

  lemma ResolvedAt(operations: seq<Operation>, k: nat)
    requires k < |operations|
    requires forall j :: 0 <= j < |operations| ==> NulFreeTypes(operations[j])
    ensures SafeAt(operations, k) <==>
      forall report: Unresolved :: report.operation == k ==> !IsUnresolved(operations, report)
  {
    var target := RefLid(operations[k]);
    if target.Some? {
      AssignedIsAdded(operations, k, target.value);
      assert IsUnresolved(operations, Unresolved(k, true, target.value)) <==>
        !Assigned(operations, k, Key(target.value));
    }
    forall alias | alias in DataLids(operations[k])
      ensures Assigned(operations, k + 1, Key(alias)) <==> AddedBefore(operations, k + 1, alias)
      ensures IsUnresolved(operations, Unresolved(k, false, alias)) <==> !Assigned(operations, k + 1, Key(alias))
    {
      AssignedIsAdded(operations, k + 1, alias);
    }
  }

  /** Dropping operations from the end leaves every other reference as it was. */
  lemma ResolutionIsPrefixClosed(operations: seq<Operation>, count: nat, report: Unresolved)
    requires count <= |operations|
    ensures IsUnresolved(operations[..count], report) <==>
      report.operation < count && IsUnresolved(operations, report)
    ensures NothingUnresolved(operations) ==> !IsUnresolved(operations[..count], report)
  {
    if report.operation < count {
      forall k, key | 0 <= k <= count ensures Assigned(operations[..count], k, key) <==> Assigned(operations, k, key) {
        if j :| 0 <= j < k && j < |operations| && Introduces(operations[j], key) {
          assert operations[..count][j] == operations[j];
        }
      }
    }
  }

  // Results.

  /** The checks of single parts that do not depend on the rest of the document. */
  datatype Shapes = Shapes(
    jsonapi: JSONAPI -> bool,
    links: Links -> bool,
    operation: Operation -> bool,
    resource: Resource -> bool,
    error: ErrorObject -> bool)

  /** `atomicRelationshipOperation`. */
  predicate RelationshipOperation(operation: Operation) {
    if operation.ref.Some? then operation.ref.value.relationship.Has()
    else if operation.data.None? then false
    else if operation.op == ADD then operation.data.value.ResourceCollection?
    else if operation.op == UPDATE then !operation.data.value.ResourceData?
    else false
  }

  /** `atomicCreateRequiresResultData`: the server had to generate an id. */
  predicate CreateRequiresResultData(operation: Operation) {
    && operation.op == ADD
    && !RelationshipOperation(operation)
    && operation.data.Some? && operation.data.value.ResourceData?
    && !operation.data.value.one.id.Has()
  }

  predicate IsResource(data: PrimaryData, shapes: Shapes) {
    data.ResourceData? && shapes.resource(data.one)
  }

  /** `validateAtomicResult`. */
  predicate ResultFits(result: OperationResult, operation: Operation, shapes: Shapes) {
    match result.data
    case None => !CreateRequiresResultData(operation)
    case Some(data) => operation.op != REMOVE && !RelationshipOperation(operation) && IsResource(data, shapes)
  }

  // Documents.

  datatype AtomicDocument = AtomicDocument(
    jsonapi: Option<JSONAPI>,
    links: Option<Links>,
    operations: Option<seq<Operation>>,
    results: Option<seq<OperationResult>>,
    errors: Option<seq<ErrorObject>>,
    meta: Option<Members>)

  datatype Context = Generic | Request | Response | Other(code: int)

  datatype Options = Options(context: Context, expectedResultCount: int, expectedOperations: Option<seq<Operation>>)

  ghost predicate WellCounted(options: Options) {
    && 0 <= options.expectedResultCount
    && (options.expectedOperations.Some? && options.expectedResultCount > 0 ==>
          options.expectedResultCount == |options.expectedOperations.value|)
  }

  /** Operations, results and errors exclude each other, and none of the first two is present but empty. */
  ghost predicate WellFormed(document: AtomicDocument) {
    && (document.operations.Some? ==>
          document.operations.value != [] && document.results.None? && document.errors.None?)
    && (document.results.Some? ==> document.results.value != [] && document.errors.None?)
    && (document.operations.None? && document.results.None? && document.errors.None? ==> document.meta.Some?)
  }

  function ExpectedCount(options: Options): int {
    if options.expectedOperations.Some? then |options.expectedOperations.value| else options.expectedResultCount
  }

  ghost predicate SuitsContext(document: AtomicDocument, options: Options) {
    match options.context
    case Generic => true
    case Request => document.operations.Some?
    case Response =>
      && document.operations.None?
      && (document.results.None? && document.errors.None? ==> ExpectedCount(options) <= 0)
      && (document.results.Some? && (options.expectedOperations.Some? || options.expectedResultCount > 0) ==>
            |document.results.value| == ExpectedCount(options))
    case Other(_) => false
  }

  /** Each result answers the operation at its position. */
  ghost predicate Corresponds(results: seq<OperationResult>, expected: seq<Operation>, shapes: Shapes) {
    forall i :: 0 <= i < |results| ==> ResultAt(results, expected, shapes, i)
  }

  predicate ResultAt(results: seq<OperationResult>, expected: seq<Operation>, shapes: Shapes, i: nat)
    requires i < |results|
  {
    if i < |expected| then ResultFits(results[i], expected[i], shapes)
    else results[i].data.Some? ==> IsResource(results[i].data.value, shapes)
  }

  ghost predicate SoundParts(document: AtomicDocument, options: Options, shapes: Shapes) {
    && (document.jsonapi.Some? ==> shapes.jsonapi(document.jsonapi.value))
    && (document.links.Some? ==> shapes.links(document.links.value))
    && (forall i :: 0 <= i < |Items(document.operations)| ==> shapes.operation(Items(document.operations)[i]))
    && NothingUnresolved(Items(document.operations))
    && Corresponds(Items(document.results), Items(options.expectedOperations), shapes)
    && forall i :: 0 <= i < |Items(document.errors)| ==> shapes.error(Items(document.errors)[i])
  }

  ghost predicate ValidDocument(document: AtomicDocument, options: Options, shapes: Shapes) {
    WellCounted(options) && WellFormed(document) && SuitsContext(document, options)
    && SoundParts(document, options, shapes)
  }

  /** A nil slice is ranged over like an empty one. */
  function Items<T>(items: Option<seq<T>>): seq<T> {
    if items.Some? then items.value else []
  }

  function Count(fault: bool): nat {
    if fault then 1 else 0
  }

  /** `ValidateWith`, counting violations; which parts are sound by themselves is left to `shapes`. */
  method ValidateWith(document: AtomicDocument, options: Options, shapes: Shapes) returns (violations: nat)
    ensures violations == 0 <==> ValidDocument(document, options, shapes)
  {
    var members := MemberViolations(document, options);
    var context := ContextViolations(document, options);
    var parts := PartViolations(document, options, shapes);
    violations := members + context + parts;
  }

  method MemberViolations(document: AtomicDocument, options: Options) returns (violations: nat)
    ensures violations == 0 <==> WellCounted(options) && WellFormed(document)
  {
    var count, operations, results := options.expectedResultCount, document.operations, document.results;
    violations := Count(count < 0)
      + Count(options.expectedOperations.Some? && count > 0 && count != |options.expectedOperations.value|)
      + Count(operations.None? && results.None? && document.errors.None? && document.meta.None?)
      + Count(operations.Some? && |operations.value| == 0)
      + Count(results.Some? && |results.value| == 0)
      + Count(operations.Some? && results.Some?)
      + Count((operations.Some? || results.Some?) && document.errors.Some?);
  }

  method ContextViolations(document: AtomicDocument, options: Options) returns (violations: nat)
    ensures violations == 0 ==> SuitsContext(document, options)
    ensures WellFormed(document) && SuitsContext(document, options) ==> violations == 0
  {
    violations := 0;
    match options.context {
      case Generic =>
      case Request =>
        violations := Count(document.operations.None?) + Count(document.results.Some?) + Count(document.errors.Some?);
      case Response =>
        violations := Count(document.operations.Some?);
        var expected := options.expectedResultCount;
        if options.expectedOperations.Some? {
          expected := |options.expectedOperations.value|;
        }
        if document.results.None? {
          violations := violations + Count(document.errors.None? && expected > 0);
        } else {
          var enforce := options.expectedOperations.Some? || options.expectedResultCount > 0;
          violations := violations + Count(enforce && |document.results.value| != expected);
        }
      case Other(_) =>
        violations := 1;
    }
  }

  method CountUnsound<T>(items: seq<T>, sound: T -> bool) returns (violations: nat)
    ensures violations == 0 <==> forall i :: 0 <= i < |items| ==> sound(items[i])
  {
    violations := 0;
    for i := 0 to |items|
      invariant violations == 0 <==> forall j :: 0 <= j < i ==> sound(items[j])
    {
      violations := violations + Count(!sound(items[i]));
    }
  }

  method PartViolations(document: AtomicDocument, options: Options, shapes: Shapes) returns (violations: nat)
    ensures violations == 0 <==> SoundParts(document, options, shapes)
  {
    var operations, results := Items(document.operations), Items(document.results);
    var unsoundOperations := CountUnsound(operations, shapes.operation);
    var unresolved := ValidateLocalReferences(operations);
    assert unresolved == [] <==> NothingUnresolved(operations) by {
      if unresolved != [] {
        assert unresolved[0] in unresolved;
      }
    }
    var unsoundResults := CountMismatches(results, Items(options.expectedOperations), shapes);
    var unsoundErrors := CountUnsound(Items(document.errors), shapes.error);
    violations := Count(document.jsonapi.Some? && !shapes.jsonapi(document.jsonapi.value))
      + Count(document.links.Some? && !shapes.links(document.links.value))
      + unsoundOperations + |unresolved| + unsoundResults + unsoundErrors;
  }

  method CountMismatches(results: seq<OperationResult>, expected: seq<Operation>, shapes: Shapes)
    returns (violations: nat)
    ensures violations == 0 <==> Corresponds(results, expected, shapes)
  {
    violations := 0;
    for i := 0 to |results|
      invariant violations == 0 <==> forall j :: 0 <= j < i ==> ResultAt(results, expected, shapes, j)
    {
      violations := violations + Count(!ResultAt(results, expected, shapes, i));
    }
  }

  // When a result answers an operation, on the fields of both.

  /** A create of one resource without an id: the result has to tell the id that was generated. */
  ghost predicate MustCarryData(operation: Operation) {
    && operation.op == "add"
    && operation.data.Some? && operation.data.value.ResourceData? && operation.data.value.one.id == Field("", false)
    && (operation.ref.Some? ==> operation.ref.value.relationship == Field("", false))
  }

  /** Neither a removal nor an operation on a relationship, which is told by the target or, without one, by the data. */
  ghost predicate MayCarryData(operation: Operation) {
    && operation.op != "remove"
    && match operation.ref
       case Some(target) => target.relationship == Field("", false)
       case None =>
         match operation.data
         case None => true
         case Some(ResourceData(_)) => true
         case Some(NullData) => operation.op != "update"
         case Some(ResourceCollection(_)) => operation.op != "add" && operation.op != "update"
  }

  ghost predicate Fits(result: OperationResult, operation: Operation, resource: Resource -> bool) {
    match result.data
    case None => !MustCarryData(operation)
    case Some(data) => MayCarryData(operation) && data.ResourceData? && resource(data.one)
  }

  /** The check of a result is this table. */
  lemma ResultsOnFields(result: OperationResult, operation: Operation, shapes: Shapes)
    ensures ResultFits(result, operation, shapes) <==> Fits(result, operation, shapes.resource)
  {
  }

  lemma CorrespondenceOnFields(results: seq<OperationResult>, expected: seq<Operation>, shapes: Shapes)
    ensures Corresponds(results, expected, shapes) <==> forall i :: 0 <= i < |results| ==>
      if i < |expected| then Fits(results[i], expected[i], shapes.resource)
      else
        match results[i].data
        case None => true
        case Some(data) => data.ResourceData? && shapes.resource(data.one)
  {
    hide ResultFits, Fits;
    forall i | 0 <= i < |results|
      ensures ResultAt(results, expected, shapes, i) <==>
        if i < |expected| then Fits(results[i], expected[i], shapes.resource)
        else
          match results[i].data
          case None => true
          case Some(data) => data.ResourceData? && shapes.resource(data.one)
    {
      if i < |expected| {
        ResultsOnFields(results[i], expected[i], shapes);
      }
    }
  }

  /** What acceptance in the two contexts of an execution amounts to. */
  lemma AcceptedRequest(document: AtomicDocument, shapes: Shapes)
    requires ValidDocument(document, Options(Request, 0, None), shapes)
    ensures document.operations.Some? && document.operations.value != []
    ensures document.results.None? && document.errors.None?
    ensures NothingUnresolved(document.operations.value)
  {
  }

  lemma AcceptedResponse(results: seq<OperationResult>, operations: seq<Operation>, shapes: Shapes)
    requires operations != []
    ensures ValidDocument(
        AtomicDocument(None, None, None, Some(results), None, None),
        Options(Response, |operations|, Some(operations)), shapes) <==>
      |results| == |operations| && forall i :: 0 <= i < |results| ==> Fits(results[i], operations[i], shapes.resource)
  {
    hide ResultFits, Fits;
    CorrespondenceOnFields(results, operations, shapes);
    var response := AtomicDocument(None, None, None, Some(results), None, None);
    if |results| == |operations| {
      assert forall i | 0 <= i < |results| ::
        ResultAt(results, operations, shapes, i) <==> ResultFits(results[i], operations[i], shapes);
    }
  }

  // Local identifiers, on the fields of the operations.

  /** The operation adds a resource of this type under this local identifier. */
  ghost predicate Adds(operation: Operation, resourceType: string, lid: string) {
    && operation.op == "add" && operation.data.Some? && operation.data.value.ResourceData?
    && operation.data.value.one.resourceType == resourceType != ""
    && Given(operation.data.value.one.lid) && operation.data.value.one.lid.value == lid
  }

  /** The target of the operation is named by this local identifier. */
  ghost predicate Targets(operation: Operation, resourceType: string, lid: string) {
    && operation.ref.Some? && operation.ref.value.resourceType == resourceType
    && Given(operation.ref.value.lid) && operation.ref.value.lid.value == lid
  }

  /** By lid alone. */
  predicate ByLid(resourceType: string, id: Field, lid: Field, expectedType: string, expectedLid: string) {
    resourceType == expectedType && !Given(id) && Given(lid) && lid.value == expectedLid
  }

  /** The data of the operation names something by this local identifier alone; what an add creates is not a reference. */
  ghost predicate Mentions(operation: Operation, resourceType: string, lid: string) {
    match operation.data
    case Some(ResourceCollection(many)) =>
      exists i :: 0 <= i < |many| && ByLid(many[i].resourceType, many[i].id, many[i].lid, resourceType, lid)
    case Some(ResourceData(one)) =>
      || (operation.op != "add" && ByLid(one.resourceType, one.id, one.lid, resourceType, lid))
      || exists identifier ::
           && IsLinked(one.relationships, identifier)
           && ByLid(identifier.resourceType, identifier.id, identifier.lid, resourceType, lid)
    case _ => false
  }

  lemma AddsOnFields(operation: Operation, resourceType: string, lid: string)
    ensures Introduced(operation) == Some(Alias(resourceType, false, lid)) <==> Adds(operation, resourceType, lid)
  {
  }

  lemma TargetsOnFields(operation: Operation, resourceType: string, lid: string)
    ensures RefLid(operation) == Some(Alias(resourceType, false, lid)) <==> Targets(operation, resourceType, lid)
  {
  }

  lemma MentionsOnFields(operation: Operation, resourceType: string, lid: string)
    ensures Alias(resourceType, false, lid) in DataLids(operation) <==> Mentions(operation, resourceType, lid)
  {
    hide LinkageObservations, IsLinked;
    match operation.data
    case Some(ResourceCollection(many)) =>
      if Mentions(operation, resourceType, lid) {
        var i :| 0 <= i < |many| && ByLid(many[i].resourceType, many[i].id, many[i].lid, resourceType, lid);
        assert FromResource(many[i]) in DataObservations(operation);
      }
    case Some(ResourceData(one)) =>
      forall o ensures o in LinkageObservations(RelationshipsOf(one)) <==>
          exists identifier ::
            && IsLinked(one.relationships, identifier)
            && o == Observation(identifier.resourceType, identifier.id, identifier.lid)
      {
        LinkageObservationsOnFields(one, o);
      }
      MentionsOfOne(operation, one, resourceType, lid);
    case _ =>
  }

  lemma MentionsOfOne(operation: Operation, one: Resource, resourceType: string, lid: string)
    requires operation.data == Some(ResourceData(one))
    requires forall o :: o in LinkageObservations(RelationshipsOf(one)) <==>
      exists identifier ::
        && IsLinked(one.relationships, identifier)
        && o == Observation(identifier.resourceType, identifier.id, identifier.lid)
    ensures Alias(resourceType, false, lid) in DataLids(operation) <==> Mentions(operation, resourceType, lid)
  {
    hide LinkageObservations, IsLinked;
    var alias := Alias(resourceType, false, lid);
    if alias in DataLids(operation) {
      var o :| o in DataObservations(operation) && LidOnly(o) && LidOf(o) == alias;
      assert ByLid(o.resourceType, o.id, o.lid, resourceType, lid);
    }
    if Mentions(operation, resourceType, lid) {
      if operation.op != "add" && ByLid(one.resourceType, one.id, one.lid, resourceType, lid) {
        assert FromResource(one) in DataObservations(operation);
      } else {
        var identifier :| IsLinked(one.relationships, identifier)
          && ByLid(identifier.resourceType, identifier.id, identifier.lid, resourceType, lid);
        assert Observation(identifier.resourceType, identifier.id, identifier.lid) in DataObservations(operation);
      }
    }
  }

  /** One of the first `count` operations adds this local identifier. */
  ghost predicate AddedUpTo(operations: seq<Operation>, count: nat, resourceType: string, lid: string) {
    exists j :: 0 <= j < count && j < |operations| && Adds(operations[j], resourceType, lid)
  }

  ghost predicate PlainOperation(operation: Operation) {
    forall resourceType, lid ::
      Adds(operation, resourceType, lid) || Targets(operation, resourceType, lid) || Mentions(operation, resourceType, lid) ==>
        PlainType(resourceType)
  }

  /**
    Over plain types, the reports are these: a target that no earlier operation adds, and a local
    identifier in data that neither an earlier operation nor the operation itself adds.
   */
  ghost predicate Dangles(operations: seq<Operation>, k: nat, inRef: bool, resourceType: string, lid: string) {
    && k < |operations|
    && if inRef then Targets(operations[k], resourceType, lid) && !AddedUpTo(operations, k, resourceType, lid)
       else Mentions(operations[k], resourceType, lid) && !AddedUpTo(operations, k + 1, resourceType, lid)
  }

  lemma ReportsOnFields(operations: seq<Operation>, k: nat, inRef: bool, resourceType: string, lid: string)
    requires forall j :: 0 <= j < |operations| ==> PlainOperation(operations[j])
    ensures IsUnresolved(operations, Unresolved(k, inRef, Alias(resourceType, false, lid))) <==>
      Dangles(operations, k, inRef, resourceType, lid)
  {
    hide Adds, Targets, Mentions, Introduced, RefLid, DataLids, Key, PlainOperation;
    if k < |operations| {
      TargetsOnFields(operations[k], resourceType, lid);
      MentionsOnFields(operations[k], resourceType, lid);
      if Targets(operations[k], resourceType, lid) || Mentions(operations[k], resourceType, lid) {
        PlainReferences(operations[k], resourceType, lid);
        AssignedOnFields(operations, k, resourceType, lid);
        AssignedOnFields(operations, k + 1, resourceType, lid);
      }
    }
  }

  lemma PlainReferences(operation: Operation, resourceType: string, lid: string)
    requires PlainOperation(operation)
    requires Adds(operation, resourceType, lid) || Targets(operation, resourceType, lid) || Mentions(operation, resourceType, lid)
    ensures PlainType(resourceType)
  {
    hide Adds, Targets, Mentions;
  }

  lemma AssignedOnFields(operations: seq<Operation>, count: nat, resourceType: string, lid: string)
    requires forall j :: 0 <= j < |operations| ==> PlainOperation(operations[j])
    requires PlainType(resourceType)
    ensures Assigned(operations, count, Key(Alias(resourceType, false, lid))) <==>
      AddedUpTo(operations, count, resourceType, lid)
  {
    hide Adds, Introduced, Key, PlainOperation;
    var alias := Alias(resourceType, false, lid);
    forall j | 0 <= j < |operations|
      ensures Introduces(operations[j], Key(alias)) <==> Adds(operations[j], resourceType, lid)
    {
      IntroducesOnFields(operations[j], resourceType, lid);
    }
  }

  lemma IntroducesOnFields(operation: Operation, resourceType: string, lid: string)
    requires PlainOperation(operation) && PlainType(resourceType)
    ensures Introduces(operation, Key(Alias(resourceType, false, lid))) <==> Adds(operation, resourceType, lid)
  {
    hide Adds, Introduced, Key, PlainOperation;
    AddsOnFields(operation, resourceType, lid);
    if Introduced(operation).Some? {
      var alias := Introduced(operation).value;
      IntroducedIsLocal(operation);
      AddsOnFields(operation, alias.resourceType, alias.text);
      PlainReferences(operation, alias.resourceType, alias.text);
      KeysAreInjective(alias, Alias(resourceType, false, lid));
    }
  }

  lemma IntroducedIsLocal(operation: Operation)
    ensures Introduced(operation).Some? ==> !Introduced(operation).value.server
    ensures RefLid(operation).Some? ==> !RefLid(operation).value.server
    ensures forall alias :: alias in DataLids(operation) ==> !alias.server
  {
  }

  /** Over plain types, nothing is reported exactly when every local identifier is added in time. */
  lemma ResolutionOnFields(operations: seq<Operation>)
    requires forall j :: 0 <= j < |operations| ==> PlainOperation(operations[j])
    ensures NothingUnresolved(operations) <==>
      forall k: nat, inRef: bool, resourceType, lid :: !Dangles(operations, k, inRef, resourceType, lid)
  {
    hide Dangles, IsUnresolved, PlainOperation;
    forall k: nat, inRef: bool, resourceType, lid
      ensures IsUnresolved(operations, Unresolved(k, inRef, Alias(resourceType, false, lid))) <==>
        Dangles(operations, k, inRef, resourceType, lid)
    {
      ReportsOnFields(operations, k, inRef, resourceType, lid);
    }
    forall report | IsUnresolved(operations, report) ensures !report.alias.server {
      ReportsAreLocal(operations, report);
    }
    if report :| IsUnresolved(operations, report) {
      assert report == Unresolved(report.operation, report.inRef, Alias(report.alias.resourceType, false, report.alias.text));
    }
  }

  lemma ReportsAreLocal(operations: seq<Operation>, report: Unresolved)
    requires IsUnresolved(operations, report)
    ensures !report.alias.server
  {
    hide DataLids, RefLid, Introduced, Assigned;
    IntroducedIsLocal(operations[report.operation]);
  }
}
