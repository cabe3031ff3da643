/**
  Resource limits on decoded query values. `validateLimits` adds up while it iterates over a map, in
  whatever order; the sums do not depend on that order.
 */
module QueryLimits {
  import opened Documents

  /** Decoded names with their values, as in `url.Values` and `ParameterFamily`. */
  type Family = map<string, seq<string>>

  datatype Limits = Limits(
    maxParameters: nat,
    maxValues: nat,
    maxNameBytes: nat,
    maxValueBytes: nat,
    maxTotalBytes: nat,
    maxSelectors: nat,
    maxListItems: nat)

  /** `DefaultQueryLimits`. */
  const DEFAULT_LIMITS := Limits(100, 200, 1024, 8192, 65536, 32, 1000)

  /** The default limits on an input, as numbers. */
  lemma DefaultsOnTexts(family: Family)
    ensures WithinLimits(family, DEFAULT_LIMITS) <==>
      && |family| <= 100 && TotalValues(family) <= 200 && TotalBytes(family) <= 65536
      && forall name :: name in family ==>
           |name| <= 1024 && forall value :: value in family[name] ==> |value| <= 8192
  {
    hide TotalValues, TotalBytes;
    assert forall name, i :: name in family && 0 <= i < |family[name]| ==> family[name][i] in family[name];
  }

  // Sums over a set of names.

  ghost function Sum(weight: string -> nat, names: set<string>): nat {
    if names == {} then 0
    else
      var name :| name in names;
      weight(name) + Sum(weight, names - {name})
  }

  lemma SumOfNothing(weight: string -> nat)
    ensures Sum(weight, {}) == 0
  {
  }

  /** Any name can be added first. */
  lemma {:induction false} SumWithout(weight: string -> nat, names: set<string>, name: string)
    requires name in names
    ensures Sum(weight, names) == weight(name) + Sum(weight, names - {name})
    decreases names
  {
    var first :| first in names && Sum(weight, names) == weight(first) + Sum(weight, names - {first});
    if first != name {
      SumWithout(weight, names - {first}, name);
      SumWithout(weight, names - {name}, first);
      assert names - {first} - {name} == names - {name} - {first};
    }
  }

  lemma {:induction false} SumIsMonotone(smaller: string -> nat, larger: string -> nat, some: set<string>, all: set<string>)
    requires some <= all && forall name :: name in some ==> smaller(name) <= larger(name)
    ensures Sum(smaller, some) <= Sum(larger, all)
    decreases all
  {
    if all != {} {
      var name :| name in all;
      SumWithout(larger, all, name);
      if name in some {
        SumWithout(smaller, some, name);
      } else {
        assert some - {name} == some;
      }
      SumIsMonotone(smaller, larger, some - {name}, all - {name});
    }
  }

  lemma {:induction false} SumOfEqualWeights(first: string -> nat, second: string -> nat, names: set<string>)
    requires forall name :: name in names ==> first(name) == second(name)
    ensures Sum(first, names) == Sum(second, names)
  {
    SumIsMonotone(first, second, names, names);
    SumIsMonotone(second, first, names, names);
  }

  function Bytes(values: seq<string>): nat {
    if values == [] then 0 else Bytes(values[..|values| - 1]) + |values[|values| - 1]|
  }

  function Concatenated(values: seq<string>): string {
    if values == [] then "" else values[0] + Concatenated(values[1..])
  }

  /** The bytes of some values are those of all of them in a row. */
  lemma {:induction false} BytesAreCounted(values: seq<string>)
    ensures Bytes(values) == |Concatenated(values)|
  {
    if values != [] {
      BytesOfFirst(values);
      BytesAreCounted(values[1..]);
    }
  }

  lemma {:induction false} BytesOfFirst(values: seq<string>)
    requires values != []
    ensures Bytes(values) == |values[0]| + Bytes(values[1..])
  {
    var last := |values| - 1;
    if last > 0 {
      BytesOfFirst(values[..last]);
      assert values[..last][1..] == values[1..][..last - 1];
    }
  }

  lemma {:induction false} BytesOfPrefix(values: seq<string>, count: nat)
    requires count <= |values|
    ensures Bytes(values[..count]) <= Bytes(values)
  {
    if count < |values| {
      assert values[..|values| - 1][..count] == values[..count];
      BytesOfPrefix(values[..|values| - 1], count);
    } else {
      assert values[..count] == values;
    }
  }

  function ByteWeight(family: Family): string -> nat {
    (name: string) => |name| + if name in family then Bytes(family[name]) else 0
  }

  function ValueWeight(family: Family): string -> nat {
    (name: string) => if name in family then |family[name]| else 0
  }

  ghost function TotalBytes(family: Family): nat {
    Sum(ByteWeight(family), family.Keys)
  }

  ghost function TotalValues(family: Family): nat {
    Sum(ValueWeight(family), family.Keys)
  }

  predicate ShortValues(values: seq<string>, limits: Limits) {
    forall i | 0 <= i < |values| :: |values[i]| <= limits.maxValueBytes
  }

  ghost predicate ShortParts(family: Family, limits: Limits) {
    forall name :: name in family ==> |name| <= limits.maxNameBytes && ShortValues(family[name], limits)
  }

  /** The limits, stated on the whole input at once. */
  ghost predicate WithinLimits(family: Family, limits: Limits) {
    && |family| <= limits.maxParameters
    && ShortParts(family, limits)
    && TotalValues(family) <= limits.maxValues
    && TotalBytes(family) <= limits.maxTotalBytes
  }

  // What is refused, and under which name.

  /** What the loop reports when it visits a name with these totals behind it; an empty name stands for the whole query. */
  function RefusalAt(family: Family, limits: Limits, bytes: nat, values: nat, name: string): Option<string>
    requires name in family
  {
    if |name| > limits.maxNameBytes then Some(name)
    else if values + |family[name]| > limits.maxValues then Some(name)
    else if !ShortValues(family[name], limits) then Some(name)
    else if bytes + |name| + Bytes(family[name]) > limits.maxTotalBytes then Some("")
    else None
  }

  /** The first report when the names are visited in this order. */
  function ReportFrom(family: Family, limits: Limits, bytes: nat, values: nat, order: seq<string>): Option<string>
    requires forall name :: name in order ==> name in family
    decreases |order|
  {
    if order == [] then None
    else
      var name := order[0];
      var refusal := RefusalAt(family, limits, bytes, values, name);
      if refusal.Some? then refusal
      else
        ReportFrom(family, limits, bytes + |name| + Bytes(family[name]), values + |family[name]|, order[1..])
  }

  function Report(family: Family, limits: Limits, order: seq<string>): Option<string>
    requires forall name :: name in order ==> name in family
  {
    if |family| > limits.maxParameters then Some("") else ReportFrom(family, limits, 0, 0, order)
  }

  /** The names in some order, each once. */
  ghost predicate IsOrder(order: seq<string>, names: set<string>) {
    && (forall i, j :: 0 <= i < j < |order| ==> order[i] != order[j])
    && forall name :: name in order <==> name in names
  }

  /** Visiting these names, in any order, gives no reason to refuse. */
  ghost predicate Clear(family: Family, limits: Limits, names: set<string>) {
    && names <= family.Keys
    && (forall name :: name in names ==> |name| <= limits.maxNameBytes && ShortValues(family[name], limits))
    && Sum(ValueWeight(family), names) <= limits.maxValues
    && Sum(ByteWeight(family), names) <= limits.maxTotalBytes
  }

  /** The name can be reported: some names are clear, and the next one makes the loop report it. */
  ghost predicate CanReport(family: Family, limits: Limits, parameter: string) {
    if |family| > limits.maxParameters then parameter == ""
    else exists names: set<string>, next :: Trips(family, limits, names, next, parameter)
  }

  ghost predicate Trips(family: Family, limits: Limits, names: set<string>, next: string, parameter: string) {
    && next in family && next !in names && Clear(family, limits, names)
    && RefusalAt(family, limits, Sum(ByteWeight(family), names), Sum(ValueWeight(family), names), next) == Some(parameter)
  }

  /** What the loop reports at a name, by the texts: the name, unless only the bytes of the whole query are too many. */
  lemma RefusalOnTexts(family: Family, limits: Limits, bytes: nat, values: nat, name: string, parameter: string)
    requires name in family
    ensures var refused :=
        || |name| > limits.maxNameBytes || values + |family[name]| > limits.maxValues
        || exists value :: value in family[name] && |value| > limits.maxValueBytes;
      RefusalAt(family, limits, bytes, values, name) == Some(parameter) <==>
        || (refused && parameter == name)
        || (!refused && bytes + |name + Concatenated(family[name])| > limits.maxTotalBytes && parameter == "")
  {
    BytesAreCounted(family[name]);
    assert ShortValues(family[name], limits) <==>
      forall value :: value in family[name] ==> |value| <= limits.maxValueBytes by {
      assert forall i :: 0 <= i < |family[name]| ==> family[name][i] in family[name];
    }
  }

  lemma WeightsAt(family: Family, names: set<string>, name: string)
    requires name in family && name !in names
    ensures Sum(ByteWeight(family), names + {name}) == Sum(ByteWeight(family), names) + |name| + Bytes(family[name])
    ensures Sum(ValueWeight(family), names + {name}) == Sum(ValueWeight(family), names) + |family[name]|
  {
    hide Sum;
    SumWithout(ByteWeight(family), names + {name}, name);
    SumWithout(ValueWeight(family), names + {name}, name);
    assert names + {name} - {name} == names;
  }

  /** A clear set stays clear exactly when the next name gives no reason to refuse. */
  lemma ClearExtends(family: Family, limits: Limits, names: set<string>, name: string)
    requires Clear(family, limits, names) && name in family && name !in names
    ensures Clear(family, limits, names + {name}) <==>
      RefusalAt(family, limits, Sum(ByteWeight(family), names), Sum(ValueWeight(family), names), name).None?
  {
    hide Sum, Bytes, ShortValues;
    WeightsAt(family, names, name);
    assert name in names + {name};
  }

  lemma NothingIsClear(family: Family, limits: Limits)
    ensures Clear(family, limits, {})
  {
  }

  lemma AllClear(family: Family, limits: Limits)
    ensures Clear(family, limits, family.Keys) && |family| <= limits.maxParameters <==> WithinLimits(family, limits)
  {
  }

  /** A part of a clear set is clear. */
  lemma ClearIsMonotone(family: Family, limits: Limits, some: set<string>, names: set<string>)
    requires some <= names && Clear(family, limits, names)
    ensures Clear(family, limits, some)
  {
    SumIsMonotone(ByteWeight(family), ByteWeight(family), some, names);
    SumIsMonotone(ValueWeight(family), ValueWeight(family), some, names);
  }

  /** What can be reported is only reported for an input beyond the limits. */
  lemma ReportsMeanRefusal(family: Family, limits: Limits, parameter: string)
    requires CanReport(family, limits, parameter)
    ensures !WithinLimits(family, limits)
  {
    hide WithinLimits, Clear, RefusalAt;
    AllClear(family, limits);
    if |family| <= limits.maxParameters && Clear(family, limits, family.Keys) {
      var names: set<string>, next :| Trips(family, limits, names, next, parameter);
      ClearIsSubset(family, limits, names);
      ClearIsMonotone(family, limits, names + {next}, family.Keys);
      ClearExtends(family, limits, names, next);
    }
  }

  lemma ClearIsSubset(family: Family, limits: Limits, names: set<string>)
    requires Clear(family, limits, names)
    ensures names <= family.Keys
  {
  }

  /** The loop has visited these names in this order, without a report, and added up to these totals. */
  ghost predicate Progress(
    family: Family, limits: Limits, order: seq<string>, visited: set<string>, bytes: nat, values: nat)
  {
    && Clear(family, limits, visited)
    && bytes == Sum(ByteWeight(family), visited) && values == Sum(ValueWeight(family), visited)
    && IsOrder(order, visited)
    && forall rest: seq<string> {:trigger order + rest} :: (forall name :: name in rest ==> name in family) ==>
         && (forall name :: name in order + rest ==> name in family)
         && ReportFrom(family, limits, 0, 0, order + rest) == ReportFrom(family, limits, bytes, values, rest)
  }

  /**
    `validateLimits`. Early refusals do not change what is accepted; the name reported is the first
    one that trips in the order of iteration.
   */
  method ValidateLimits(family: Family, limits: Limits) returns (refusal: Option<string>, ghost order: seq<string>)
    ensures IsOrder(order, family.Keys) && refusal == Report(family, limits, order)
    ensures refusal.None? <==> WithinLimits(family, limits)
    ensures refusal.Some? ==> CanReport(family, limits, refusal.value)
  {
    hide Sum, Bytes, WithinLimits, Clear, Progress, ReportFrom, IsOrder, ShortValues;
    AllClear(family, limits);
    if |family| > limits.maxParameters {
      order := InSomeOrder(family.Keys);
      return Some(""), order;
    }
    var totalBytes: nat, totalValues: nat := 0, 0;
    var pending := family.Keys;
    order := [];
    assert family.Keys - pending == {};
    ProgressStarts(family, limits);
    while pending != {}
      invariant pending <= family.Keys
      invariant Progress(family, limits, order, family.Keys - pending, totalBytes, totalValues)
      decreases pending
    {
      var name :| name in pending;
      ghost var visited := family.Keys - pending;
      assert family.Keys - (pending - {name}) == visited + {name};
      ghost var whole := Visit(family, limits, order, visited, name, totalBytes, totalValues);
      if |name| > limits.maxNameBytes {
        return Some(name), whole;
      }
      totalBytes := totalBytes + |name|;
      totalValues := totalValues + |family[name]|;
      if totalValues > limits.maxValues {
        return Some(name), whole;
      }
      var bytes, short := AddValues(family[name], limits);
      if !short {
        return Some(name), whole;
      }
      totalBytes := totalBytes + bytes;
      if totalBytes > limits.maxTotalBytes {
        return Some(""), whole;
      }
      order := order + [name];
      pending := pending - {name};
    }
    assert family.Keys - {} == family.Keys;
    ProgressEnds(family, limits, order, totalBytes, totalValues);
    return None, order;
  }

  lemma ProgressStarts(family: Family, limits: Limits)
    ensures Progress(family, limits, [], {}, 0, 0)
  {
    hide ReportFrom;
    forall rest: seq<string> ensures [] + rest == rest {
    }
  }

  lemma ProgressEnds(family: Family, limits: Limits, order: seq<string>, bytes: nat, values: nat)
    requires Progress(family, limits, order, family.Keys, bytes, values) && |family| <= limits.maxParameters
    ensures IsOrder(order, family.Keys) && Report(family, limits, order) == None
    ensures WithinLimits(family, limits)
  {
    AllClear(family, limits);
    assert order + [] == order;
  }

  /** One round: the report ends an order of all names, or there is none and the round is behind. */
  lemma Visit(
    family: Family, limits: Limits, order: seq<string>, visited: set<string>, name: string, bytes: nat, values: nat)
    returns (whole: seq<string>)
    requires Progress(family, limits, order, visited, bytes, values) && |family| <= limits.maxParameters
    requires name in family && name !in visited
    ensures var refused := RefusalAt(family, limits, bytes, values, name);
      if refused.Some? then
        && IsOrder(whole, family.Keys) && Report(family, limits, whole) == refused
        && !WithinLimits(family, limits) && CanReport(family, limits, refused.value)
      else
        Progress(
          family, limits, order + [name], visited + {name}, bytes + |name| + Bytes(family[name]),
          values + |family[name]|)
  {
    hide Sum, RefusalAt, Clear, ReportFrom, WithinLimits, Bytes, IsOrder;
    ClearExtends(family, limits, visited, name);
    var refused := RefusalAt(family, limits, bytes, values, name);
    if refused.Some? {
      whole := TrippingOrder(family, limits, order, visited, name, bytes, values);
      assert Trips(family, limits, visited, name, refused.value);
      ReportsMeanRefusal(family, limits, refused.value);
    } else {
      whole := order;
      WeightsAt(family, visited, name);
      OrderExtends(order, visited, name);
      ReportContinues(family, limits, order, name, bytes, values);
    }
  }

  lemma OrderExtends(order: seq<string>, names: set<string>, name: string)
    requires IsOrder(order, names) && name !in names
    ensures IsOrder(order + [name], names + {name})
  {
  }

  lemma ReportContinues(family: Family, limits: Limits, order: seq<string>, name: string, bytes: nat, values: nat)
    requires name in family
    requires RefusalAt(family, limits, bytes, values, name).None?
    requires forall rest: seq<string> {:trigger order + rest} :: (forall other :: other in rest ==> other in family) ==>
      && (forall other :: other in order + rest ==> other in family)
      && ReportFrom(family, limits, 0, 0, order + rest) == ReportFrom(family, limits, bytes, values, rest)
    ensures forall rest: seq<string> {:trigger order + [name] + rest} ::
      (forall other :: other in rest ==> other in family) ==>
        && (forall other :: other in order + [name] + rest ==> other in family)
        && ReportFrom(family, limits, 0, 0, order + [name] + rest) ==
           ReportFrom(family, limits, bytes + |name| + Bytes(family[name]), values + |family[name]|, rest)
  {
    hide RefusalAt, Bytes;
    forall rest: seq<string> | forall other :: other in rest ==> other in family
      ensures forall other :: other in order + [name] + rest ==> other in family
      ensures ReportFrom(family, limits, 0, 0, order + [name] + rest) ==
        ReportFrom(family, limits, bytes + |name| + Bytes(family[name]), values + |family[name]|, rest)
    {
      assert order + [name] + rest == order + ([name] + rest) && ([name] + rest)[1..] == rest;
    }
  }

  /** The names of a set in some order. */
  lemma {:induction false} InSomeOrder(names: set<string>) returns (order: seq<string>)
    ensures IsOrder(order, names)
  {
    if names == {} {
      order := [];
    } else {
      var name :| name in names;
      var rest := InSomeOrder(names - {name});
      order := rest + [name];
    }
  }

  /** An order of all names that continues with a name that trips. */
  lemma TrippingOrder(
    family: Family, limits: Limits, order: seq<string>, visited: set<string>, name: string, bytes: nat, values: nat)
    returns (whole: seq<string>)
    requires Progress(family, limits, order, visited, bytes, values) && |family| <= limits.maxParameters
    requires name in family && name !in visited && RefusalAt(family, limits, bytes, values, name).Some?
    ensures IsOrder(whole, family.Keys)
    ensures Report(family, limits, whole) == RefusalAt(family, limits, bytes, values, name)
  {
    hide RefusalAt, Progress, IsOrder, ReportFrom;
    ProgressOrder(family, limits, order, visited, bytes, values);
    var others := family.Keys - visited - {name};
    var later := InSomeOrder(others);
    OrdersJoin(order, visited, name, later, others);
    assert visited + {name} + others == family.Keys;
    whole := order + ([name] + later);
    OrderedNames(whole, family.Keys);
    assert forall other :: other in [name] + later ==> other in whole;
    ProgressReports(family, limits, order, visited, bytes, values, name, later);
  }

  lemma OrderedNames(order: seq<string>, names: set<string>)
    requires IsOrder(order, names)
    ensures forall name :: name in order <==> name in names
  {
  }

  lemma ProgressOrder(
    family: Family, limits: Limits, order: seq<string>, visited: set<string>, bytes: nat, values: nat)
    requires Progress(family, limits, order, visited, bytes, values)
    ensures IsOrder(order, visited) && visited <= family.Keys
  {
  }

  lemma ProgressReports(
    family: Family, limits: Limits, order: seq<string>, visited: set<string>, bytes: nat, values: nat,
    name: string, later: seq<string>)
    requires Progress(family, limits, order, visited, bytes, values)
    requires forall other :: other in [name] + later ==> other in family
    requires forall other :: other in order + ([name] + later) ==> other in family
    requires name in family && RefusalAt(family, limits, bytes, values, name).Some?
    ensures ReportFrom(family, limits, 0, 0, order + ([name] + later)) == RefusalAt(family, limits, bytes, values, name)
  {
    hide RefusalAt, Clear, IsOrder, Sum;
    assert ([name] + later)[0] == name;
  }

  /** Some order of a clear set is visited without a report. */
  lemma {:induction false} ClearOrder(family: Family, limits: Limits, names: set<string>) returns (order: seq<string>)
    requires Clear(family, limits, names) && |family| <= limits.maxParameters
    ensures Progress(family, limits, order, names, Sum(ByteWeight(family), names), Sum(ValueWeight(family), names))
    decreases names
  {
    hide Clear, RefusalAt, Sum, Progress, Bytes;
    if names == {} {
      order := [];
      ProgressStarts(family, limits);
      SumOfNothing(ByteWeight(family));
      SumOfNothing(ValueWeight(family));
    } else {
      var name :| name in names;
      var others := names - {name};
      assert others + {name} == names;
      ClearIsSubset(family, limits, names);
      ClearIsMonotone(family, limits, others, names);
      order := ClearOrder(family, limits, others);
      ClearExtends(family, limits, others, name);
      WeightsAt(family, others, name);
      var _ := Visit(
        family, limits, order, others, name, Sum(ByteWeight(family), others), Sum(ValueWeight(family), others));
      order := order + [name];
    }
  }

  lemma OrdersJoin(first: seq<string>, names: set<string>, name: string, second: seq<string>, others: set<string>)
    requires IsOrder(first, names) && IsOrder(second, others)
    requires names !! others && name !in names && name !in others
    ensures IsOrder(first + ([name] + second), names + {name} + others)
  {
    var joined := first + ([name] + second);
    forall i, j | 0 <= i < j < |joined| ensures joined[i] != joined[j] {
      assert i < |first| ==> joined[i] == first[i] && first[i] in names;
      assert j < |first| ==> joined[j] == first[j];
      assert i > |first| ==> joined[i] == second[i - |first| - 1];
      assert j > |first| ==> joined[j] == second[j - |first| - 1] && second[j - |first| - 1] in others;
    }
  }

  /** The names that can be reported are exactly those that some order of iteration reports. */
  lemma ReportsAreExact(family: Family, limits: Limits, parameter: string)
    ensures CanReport(family, limits, parameter) <==>
      exists order :: IsOrder(order, family.Keys) && Report(family, limits, order) == Some(parameter)
  {
    hide Clear, RefusalAt, Sum;
    if CanReport(family, limits, parameter) {
      if |family| > limits.maxParameters {
        var order := InSomeOrder(family.Keys);
        assert IsOrder(order, family.Keys) && Report(family, limits, order) == Some(parameter);
      } else {
        var names: set<string>, next :| Trips(family, limits, names, next, parameter);
        var visited := ClearOrder(family, limits, names);
        var order := TrippingOrder(
          family, limits, visited, names, next, Sum(ByteWeight(family), names), Sum(ValueWeight(family), names));
        assert IsOrder(order, family.Keys) && Report(family, limits, order) == Some(parameter);
      }
    }
    if order :| IsOrder(order, family.Keys) && Report(family, limits, order) == Some(parameter) {
      if |family| <= limits.maxParameters {
        NothingIsClear(family, limits);
        SumOfNothing(ByteWeight(family));
        SumOfNothing(ValueWeight(family));
        ReportedTrips(family, limits, order, {}, parameter);
      }
    }
  }

  lemma {:induction false} ReportedTrips(
    family: Family, limits: Limits, order: seq<string>, visited: set<string>, parameter: string)
    requires forall i, j :: 0 <= i < j < |order| ==> order[i] != order[j]
    requires forall name :: name in order ==> name in family && name !in visited
    requires Clear(family, limits, visited)
    requires ReportFrom(family, limits, Sum(ByteWeight(family), visited), Sum(ValueWeight(family), visited), order)
      == Some(parameter)
    ensures exists names: set<string>, next :: Trips(family, limits, names, next, parameter)
    decreases |order|
  {
    hide Clear, RefusalAt, Sum, Bytes;
    var name := order[0];
    var bytes, values := Sum(ByteWeight(family), visited), Sum(ValueWeight(family), visited);
    if RefusalAt(family, limits, bytes, values, name).Some? {
      assert Trips(family, limits, visited, name, parameter);
    } else {
      ClearExtends(family, limits, visited, name);
      WeightsAt(family, visited, name);
      forall other | other in order[1..] ensures other in family && other !in visited + {name} {
        var i :| 0 <= i < |order| - 1 && order[1..][i] == other;
        assert order[i + 1] == other;
      }
      ReportedTrips(family, limits, order[1..], visited + {name}, parameter);
    }
  }

  /** A name of the given length. */
  function Repeated(c: char, length: nat): string {
    seq(length, _ => c)
  }

  /** Two names that are too long: the one that is visited first is reported. */
  lemma TwoNamesTwoReports()
    ensures var first, second := Repeated('a', 1025), Repeated('b', 1025);
      var family: Family := map[first := [], second := []];
      && first != second
      && IsOrder([first, second], family.Keys) && IsOrder([second, first], family.Keys)
      && Report(family, DEFAULT_LIMITS, [first, second]) == Some(first)
      && Report(family, DEFAULT_LIMITS, [second, first]) == Some(second)
  {
    var first, second := Repeated('a', 1025), Repeated('b', 1025);
    assert first[0] == 'a' && second[0] == 'b';
    var family: Family := map[first := [], second := []];
    assert family.Keys == {first, second};
    assert |family| == |{first, second}|;
  }

  method AddValues(values: seq<string>, limits: Limits) returns (bytes: nat, short: bool)
    ensures short <==> ShortValues(values, limits)
    ensures short ==> bytes == Bytes(values)
  {
    bytes := 0;
    for i := 0 to |values|
      invariant ShortValues(values[..i], limits) && bytes == Bytes(values[..i])
    {
      if |values[i]| > limits.maxValueBytes {
        return bytes, false;
      }
      assert values[..i + 1][..i] == values[..i];
      bytes := bytes + |values[i]|;
    }
    assert values[..|values|] == values;
    return bytes, true;
  }

  lemma TotalsOfSubmap(part: Family, whole: Family)
    requires part.Keys <= whole.Keys && forall name :: name in part ==> part[name] == whole[name]
    ensures TotalBytes(part) <= TotalBytes(whole)
    ensures TotalValues(part) <= TotalValues(whole)
  {
    var bytes, allBytes, values, allValues :=
      ByteWeight(part), ByteWeight(whole), ValueWeight(part), ValueWeight(whole);
    forall name | name in part.Keys ensures bytes(name) <= allBytes(name) && values(name) <= allValues(name) {
    }
    SumIsMonotone(bytes, allBytes, part.Keys, whole.Keys);
    SumIsMonotone(values, allValues, part.Keys, whole.Keys);
  }

  /** A family that holds only some of the names stays within the limits. */
  lemma LimitsOfSubmap(part: Family, whole: Family, limits: Limits)
    requires part.Keys <= whole.Keys && forall name :: name in part ==> part[name] == whole[name]
    requires WithinLimits(whole, limits)
    ensures WithinLimits(part, limits)
  {
    TotalsOfSubmap(part, whole);
    SubsetIsSmaller(part.Keys, whole.Keys);
    assert |part| == |part.Keys| && |whole| == |whole.Keys|;
  }

  lemma {:induction false} SubsetIsSmaller(some: set<string>, all: set<string>)
    requires some <= all
    ensures |some| <= |all|
  {
    if some != {} {
      var name :| name in some;
      SubsetIsSmaller(some - {name}, all - {name});
    }
  }

  /** Extending a family at a new name adds the weight of that name and leaves the others alone. */
  lemma SumOfExtension(before: string -> nat, after: string -> nat, names: set<string>, name: string)
    requires name !in names && forall other :: other in names ==> before(other) == after(other)
    ensures Sum(after, names + {name}) == Sum(before, names) + after(name)
  {
    SumWithout(after, names + {name}, name);
    assert names + {name} - {name} == names;
    SumOfEqualWeights(before, after, names);
  }

  /** `extended` is `family` with one more name. */
  ghost predicate Extends(extended: Family, family: Family, name: string) {
    && name !in family && extended.Keys == family.Keys + {name}
    && forall other :: other in family ==> extended[other] == family[other]
  }

  /** One more name adds its own length, its values and their bytes. */
  lemma TotalsOfExtension(extended: Family, family: Family, name: string)
    requires Extends(extended, family, name)
    ensures TotalBytes(extended) == TotalBytes(family) + |name| + Bytes(extended[name])
    ensures TotalValues(extended) == TotalValues(family) + |extended[name]|
    ensures |extended| == |family| + 1
  {
    SumOfExtension(ByteWeight(family), ByteWeight(extended), family.Keys, name);
    SumOfExtension(ValueWeight(family), ValueWeight(extended), family.Keys, name);
    SizeOfExtension(extended.Keys, family.Keys, name);
  }

  /** The totals in terms of the texts: nothing to start with, and each name with its values adds its own. */
  lemma TotalsOnTexts(extended: Family, family: Family, name: string)
    requires Extends(extended, family, name)
    ensures TotalBytes(map[]) == 0 && TotalValues(map[]) == 0
    ensures TotalBytes(extended) == TotalBytes(family) + |name + Concatenated(extended[name])|
    ensures TotalValues(extended) == TotalValues(family) + |extended[name]|
  {
    TotalsOfExtension(extended, family, name);
    BytesAreCounted(extended[name]);
  }

  lemma SizeOfExtension(extended: set<string>, names: set<string>, name: string)
    requires name !in names && extended == names + {name}
    ensures |extended| == |names| + 1
  {
  }
}
