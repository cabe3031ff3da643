/**
  Parsing of a whole query: limits first, then one parameter after the other in sorted order.
 */
module QueryParsing {
  import opened Documents
  import opened Text
  import opened MemberNames
  import opened QueryLimits
  import opened QueryGrammar

  datatype Parser = Parser(customFamilies: set<string>, extensionNamespaces: set<string>, limits: Limits)

  datatype Query = Query(
    includePaths: Option<seq<string>>,
    fields: map<string, seq<string>>,
    sort: Option<seq<SortField>>,
    page: Family,
    filter: Family,
    custom: map<string, Family>,
    extensions: map<string, Family>)

  const EMPTY_QUERY := Query(None, map[], None, map[], map[], map[], map[])

  datatype Code = InvalidName | LimitExceeded | MultipleValues | InvalidValue | UnknownParameter

  /** What one parameter contributes to the query. */
  datatype Reading =
    | IncludeReading(paths: seq<string>)
    | FieldsReading(resourceType: string, names: seq<string>)
    | SortReading(fields: seq<SortField>)
    | PageReading
    | FilterReading
    | CustomReading(base: string)
    | ExtensionReading(namespace: string)
    | Refused(code: Code)

  // Extension families.

  predicate OnlyLowercaseAscii(value: string) {
    value != "" && forall i | 0 <= i < |value| :: 'a' <= value[i] <= 'z'
  }

  /** `extensionQueryBase`: the namespace of a base of the form `namespace:name`. */
  function ExtensionNamespace(base: string): Option<string> {
    var colon := IndexOf(base, ':');
    if colon != -1 && ValidExtensionNamespace(base[..colon]) && OnlyLowercaseAscii(base[colon + 1..])
    then Some(base[..colon])
    else None
  }

  // One parameter.

  function ReadInclude(parser: Parser, selectors: seq<string>, values: seq<string>): Reading {
    if selectors != [] then Refused(InvalidName)
    else if |values| != 1 then Refused(MultipleValues)
    else
      match ReadList(values[0], ValidMemberPath)
      case None => Refused(InvalidValue)
      case Some(paths) => if |paths| > parser.limits.maxListItems then Refused(LimitExceeded) else IncludeReading(paths)
  }

  function ReadFields(parser: Parser, selectors: seq<string>, values: seq<string>): Reading {
    if |selectors| != 1 || selectors[0] == "" || '.' in selectors[0] then Refused(InvalidName)
    else if |values| != 1 then Refused(MultipleValues)
    else
      match ReadList(values[0], ValidImplementationMemberName)
      case None => Refused(InvalidValue)
      case Some(names) =>
        if |names| > parser.limits.maxListItems then Refused(LimitExceeded) else FieldsReading(selectors[0], names)
  }

  function ReadSorting(parser: Parser, selectors: seq<string>, values: seq<string>): Reading {
    if selectors != [] then Refused(InvalidName)
    else if |values| != 1 then Refused(MultipleValues)
    else
      match ReadSort(values[0])
      case None => Refused(InvalidValue)
      case Some(fields) => if |fields| > parser.limits.maxListItems then Refused(LimitExceeded) else SortReading(fields)
  }

  function ReadOther(parser: Parser, base: string): Reading {
    var namespace := ExtensionNamespace(base);
    if namespace.Some? then
      if namespace.value in parser.extensionNamespaces then ExtensionReading(namespace.value)
      else Refused(UnknownParameter)
    else if base in parser.customFamilies then CustomReading(base)
    else Refused(UnknownParameter)
  }

  function ReadNamed(parser: Parser, name: FamilyName, values: seq<string>): Reading {
    if |name.selectors| > parser.limits.maxSelectors then Refused(LimitExceeded)
    else if name.base == "include" then ReadInclude(parser, name.selectors, values)
    else if name.base == "fields" then ReadFields(parser, name.selectors, values)
    else if name.base == "sort" then ReadSorting(parser, name.selectors, values)
    else if name.base == "page" then PageReading
    else if name.base == "filter" then FilterReading
    else ReadOther(parser, name.base)
  }

  function ReadParameter(parser: Parser, name: string, values: seq<string>): Reading {
    match ReadName(name)
    case None => Refused(InvalidName)
    case Some(parts) => ReadNamed(parser, parts, values)
  }

  /** One round of the loop in `Parse`, up to where the query is updated. */
  method ParseParameter(parser: Parser, name: string, values: seq<string>) returns (reading: Reading)
    ensures reading == ReadParameter(parser, name, values)
  {
    var parsed := ParseFamilyName(name);
    if parsed.None? {
      return Refused(InvalidName);
    }
    var base, selectors := parsed.value.base, parsed.value.selectors;
    if |selectors| > parser.limits.maxSelectors {
      return Refused(LimitExceeded);
    }
    if base == "include" {
      reading := ParseInclude(parser, selectors, values);
    } else if base == "fields" {
      reading := ParseFields(parser, selectors, values);
    } else if base == "sort" {
      reading := ParseSorting(parser, selectors, values);
    } else if base == "page" {
      reading := PageReading;
    } else if base == "filter" {
      reading := FilterReading;
    } else {
      reading := ReadOther(parser, base);
    }
  }

  method ParseInclude(parser: Parser, selectors: seq<string>, values: seq<string>) returns (reading: Reading)
    ensures reading == ReadInclude(parser, selectors, values)
  {
    if |selectors| != 0 {
      return Refused(InvalidName);
    }
    if |values| != 1 {
      return Refused(MultipleValues);
    }
    var paths := ParseList(values[0], ValidMemberPath);
    if paths.None? {
      return Refused(InvalidValue);
    }
    if |paths.value| > parser.limits.maxListItems {
      return Refused(LimitExceeded);
    }
    return IncludeReading(paths.value);
  }

  method ParseFields(parser: Parser, selectors: seq<string>, values: seq<string>) returns (reading: Reading)
    ensures reading == ReadFields(parser, selectors, values)
  {
    if |selectors| != 1 || selectors[0] == "" || '.' in selectors[0] {
      return Refused(InvalidName);
    }
    if |values| != 1 {
      return Refused(MultipleValues);
    }
    var names := ParseList(values[0], ValidImplementationMemberName);
    if names.None? {
      return Refused(InvalidValue);
    }
    if |names.value| > parser.limits.maxListItems {
      return Refused(LimitExceeded);
    }
    return FieldsReading(selectors[0], names.value);
  }

  method ParseSorting(parser: Parser, selectors: seq<string>, values: seq<string>) returns (reading: Reading)
    ensures reading == ReadSorting(parser, selectors, values)
  {
    if |selectors| != 0 {
      return Refused(InvalidName);
    }
    if |values| != 1 {
      return Refused(MultipleValues);
    }
    var fields := ParseSort(values[0]);
    if fields.None? {
      return Refused(InvalidValue);
    }
    if |fields.value| > parser.limits.maxListItems {
      return Refused(LimitExceeded);
    }
    return SortReading(fields.value);
  }

  // What a query contains.

  type Readings = map<string, Reading>

  /** The name under which a reading can occur, where there is only one. */
  function OnlyName(reading: Reading): Option<string> {
    match reading
    case IncludeReading(_) => Some("include")
    case SortReading(_) => Some("sort")
    case FieldsReading(resourceType, _) => Some("fields[" + resourceType + "]")
    case _ => None
  }

  ghost predicate Proper(readings: Readings) {
    forall name :: name in readings && OnlyName(readings[name]).Some? ==> OnlyName(readings[name]) == Some(name)
  }

  lemma NamedReadings(parser: Parser, parts: FamilyName, values: seq<string>)
    ensures ReadNamed(parser, parts, values).IncludeReading? ==> parts == FamilyName("include", [])
    ensures ReadNamed(parser, parts, values).SortReading? ==> parts == FamilyName("sort", [])
    ensures ReadNamed(parser, parts, values).FieldsReading? ==>
      parts == FamilyName("fields", [ReadNamed(parser, parts, values).resourceType])
  {
    hide ReadList, ReadSort, ValidMemberPath, ValidImplementationMemberName;
  }

  lemma ReadingsHaveTheirNames(parser: Parser, name: string, values: seq<string>)
    ensures OnlyName(ReadParameter(parser, name, values)).Some? ==>
      OnlyName(ReadParameter(parser, name, values)) == Some(name)
  {
    hide ReadName, ReadNamed, WellFormedName;
    if ReadName(name).Some? {
      var parts := ReadName(name).value;
      NamesArePrinted(name, parts);
      NamedReadings(parser, parts, values);
      OnlyNamesPrint(parts);
      assert "fields" + "[" == "fields[";
    }
  }

  lemma OnlyNamesPrint(parts: FamilyName)
    ensures parts.selectors == [] ==> PrintName(parts) == parts.base
    ensures |parts.selectors| == 1 ==> PrintName(parts) == parts.base + "[" + parts.selectors[0] + "]"
  {
    if |parts.selectors| == 1 {
      assert PrintSelectors(parts.selectors[1..]) == "";
      assert PrintSelectors(parts.selectors) == "[" + parts.selectors[0] + "]" + "";
      assert parts.base + ("[" + parts.selectors[0] + "]" + "") == parts.base + "[" + parts.selectors[0] + "]";
    } else if parts.selectors == [] {
      assert parts.base + "" == parts.base;
    }
  }

  /** The parameters among `names` with this reading, with their values. */
  ghost function Select(values: Family, readings: Readings, names: set<string>, reading: Reading): Family {
    map name | name in names && name in values && name in readings && readings[name] == reading :: values[name]
  }

  function FamilyAt(families: map<string, Family>, key: string): Family {
    if key in families then families[key] else map[]
  }

  ghost predicate CollectsInclude(paths: Option<seq<string>>, readings: Readings, names: set<string>) {
    && (paths.Some? ==> "include" in names && "include" in readings
                          && readings["include"] == IncludeReading(paths.value))
    && forall name {:trigger readings[name]} ::
         name in names && name in readings && readings[name].IncludeReading? ==> paths == Some(readings[name].paths)
  }

  ghost predicate CollectsSort(sort: Option<seq<SortField>>, readings: Readings, names: set<string>) {
    && (sort.Some? ==> "sort" in names && "sort" in readings && readings["sort"] == SortReading(sort.value))
    && forall name {:trigger readings[name]} ::
         name in names && name in readings && readings[name].SortReading? ==> sort == Some(readings[name].fields)
  }

  ghost predicate HasFieldset(readings: Readings, names: set<string>, resourceType: string, fieldset: seq<string>) {
    exists name :: name in names && name in readings && readings[name] == FieldsReading(resourceType, fieldset)
  }

  ghost predicate CollectsFields(fields: map<string, seq<string>>, readings: Readings, names: set<string>) {
    forall resourceType, fieldset ::
      HasFieldset(readings, names, resourceType, fieldset) <==>
        resourceType in fields && fields[resourceType] == fieldset
  }

  ghost predicate CollectsCustom(families: map<string, Family>, values: Family, readings: Readings, names: set<string>) {
    && (forall key :: FamilyAt(families, key) == Select(values, readings, names, CustomReading(key)))
    && forall key :: key in families ==> families[key] != map[]
  }

  ghost predicate CollectsExtensions(
    families: map<string, Family>, values: Family, readings: Readings, names: set<string>)
  {
    && (forall key :: FamilyAt(families, key) == Select(values, readings, names, ExtensionReading(key)))
    && forall key :: key in families ==> families[key] != map[]
  }

  /** The query holds what the readings of these names contribute, and nothing else. */
  ghost predicate Collects(query: Query, values: Family, readings: Readings, names: set<string>) {
    && CollectsInclude(query.includePaths, readings, names)
    && CollectsSort(query.sort, readings, names)
    && CollectsFields(query.fields, readings, names)
    && query.page == Select(values, readings, names, PageReading)
    && query.filter == Select(values, readings, names, FilterReading)
    && CollectsCustom(query.custom, values, readings, names)
    && CollectsExtensions(query.extensions, values, readings, names)
  }

  /** `addFamilyValue` copies the values under the full name. */
  function AddTo(
    families: map<string, Family>, key: string, name: string, values: seq<string>): map<string, Family>
  {
    families[key := FamilyAt(families, key)[name := values]]
  }

  /** The update at the end of a round. */
  function Record(query: Query, name: string, values: seq<string>, reading: Reading): Query {
    match reading
    case IncludeReading(paths) => query.(includePaths := Some(paths))
    case FieldsReading(resourceType, names) => query.(fields := query.fields[resourceType := names])
    case SortReading(fields) => query.(sort := Some(fields))
    case PageReading => query.(page := query.page[name := values])
    case FilterReading => query.(filter := query.filter[name := values])
    case CustomReading(base) =>
      query.(custom := AddTo(query.custom, base, name, values))
    case ExtensionReading(namespace) =>
      query.(extensions := AddTo(query.extensions, namespace, name, values))
    case Refused(_) => query
  }

  lemma SelectExtends(values: Family, readings: Readings, names: set<string>, name: string, reading: Reading)
    requires name in values && name in readings && name !in names
    ensures Select(values, readings, names + {name}, reading) ==
      if readings[name] == reading then Select(values, readings, names, reading)[name := values[name]]
      else Select(values, readings, names, reading)
  {
  }

  lemma FieldsetsExtend(
    fields: map<string, seq<string>>, readings: Readings, names: set<string>, name: string)
    requires Proper(readings) && CollectsFields(fields, readings, names) && name in readings && name !in names
    ensures readings[name].FieldsReading? ==>
      CollectsFields(fields[readings[name].resourceType := readings[name].names], readings, names + {name})
    ensures !readings[name].FieldsReading? ==> CollectsFields(fields, readings, names + {name})
  {
    forall resourceType, fieldset
      ensures HasFieldset(readings, names + {name}, resourceType, fieldset) <==>
        HasFieldset(readings, names, resourceType, fieldset) || readings[name] == FieldsReading(resourceType, fieldset)
    {
      if readings[name] == FieldsReading(resourceType, fieldset) {
        assert name in names + {name};
      }
    }
    if readings[name].FieldsReading? {
      forall fieldset ensures !HasFieldset(readings, names, readings[name].resourceType, fieldset) {
        assert forall other :: other in names && other in readings ==>
          readings[other] != FieldsReading(readings[name].resourceType, fieldset) || other == name;
      }
    }
  }

  lemma CustomExtends(
    families: map<string, Family>, values: Family, readings: Readings, names: set<string>, name: string)
    requires name in values && name in readings && name !in names
    requires CollectsCustom(families, values, readings, names)
    ensures readings[name].CustomReading? ==>
      CollectsCustom(AddTo(families, readings[name].base, name, values[name]), values, readings, names + {name})
    ensures !readings[name].CustomReading? ==> CollectsCustom(families, values, readings, names + {name})
  {
    hide Select;
    forall key ensures Select(values, readings, names + {name}, CustomReading(key)) ==
        if readings[name] == CustomReading(key)
        then Select(values, readings, names, CustomReading(key))[name := values[name]]
        else Select(values, readings, names, CustomReading(key))
    {
      SelectExtends(values, readings, names, name, CustomReading(key));
    }
    if readings[name].CustomReading? {
      assert name in FamilyAt(families, readings[name].base)[name := values[name]];
    }
  }

  lemma ExtensionsExtend(
    families: map<string, Family>, values: Family, readings: Readings, names: set<string>, name: string)
    requires name in values && name in readings && name !in names
    requires CollectsExtensions(families, values, readings, names)
    ensures readings[name].ExtensionReading? ==>
      CollectsExtensions(AddTo(families, readings[name].namespace, name, values[name]), values, readings, names + {name})
    ensures !readings[name].ExtensionReading? ==> CollectsExtensions(families, values, readings, names + {name})
  {
    hide Select;
    forall key ensures Select(values, readings, names + {name}, ExtensionReading(key)) ==
        if readings[name] == ExtensionReading(key)
        then Select(values, readings, names, ExtensionReading(key))[name := values[name]]
        else Select(values, readings, names, ExtensionReading(key))
    {
      SelectExtends(values, readings, names, name, ExtensionReading(key));
    }
    if readings[name].ExtensionReading? {
      assert name in FamilyAt(families, readings[name].namespace)[name := values[name]];
    }
  }

  lemma RecordCollects(query: Query, values: Family, readings: Readings, names: set<string>, name: string)
    requires Proper(readings) && Collects(query, values, readings, names)
    requires name in values && name in readings && name !in names && !readings[name].Refused?
    ensures Collects(Record(query, name, values[name], readings[name]), values, readings, names + {name})
  {
    hide Select, CollectsFields, CollectsCustom, CollectsExtensions;
    SelectExtends(values, readings, names, name, PageReading);
    SelectExtends(values, readings, names, name, FilterReading);
    FieldsetsExtend(query.fields, readings, names, name);
    CustomExtends(query.custom, values, readings, names, name);
    ExtensionsExtend(query.extensions, values, readings, names, name);
  }

  // The whole query.

  datatype Result =
    | Parsed(query: Query)
    | LimitRefusal(parameter: string)
    | ParameterRefusal(parameter: string, code: Code)

  ghost function ReadingsOf(parser: Parser, values: Family): Readings {
    map name | name in values :: ReadParameter(parser, name, values[name])
  }

  /** What `Parse` has to answer. Only the name in a limit refusal depends on the order in which the map is visited. */
  ghost predicate Answers(result: Result, parser: Parser, values: Family) {
    var readings := ReadingsOf(parser, values);
    match result
    case Parsed(query) =>
      && WithinLimits(values, parser.limits)
      && (forall name :: name in values ==> !readings[name].Refused?)
      && Collects(query, values, readings, values.Keys)
    case LimitRefusal(parameter) => CanReport(values, parser.limits, parameter)
    case ParameterRefusal(parameter, code) =>
      && WithinLimits(values, parser.limits)
      && parameter in values && readings[parameter] == Refused(code)
      && forall name :: name in values && readings[name].Refused? ==> name == parameter || Before(parameter, name)
  }

  /** `QueryParser.Parse`: a refusal names the first offending parameter in byte order. */
  method Parse(parser: Parser, values: Family) returns (result: Result)
    ensures Answers(result, parser, values)
  {
    hide ReadParameter, Collects, WithinLimits, CanReport, StrictlySorted, Elements, Record, Proper;
    var refusal, _ := ValidateLimits(values, parser.limits);
    if refusal.Some? {
      return LimitRefusal(refusal.value);
    }
    ghost var readings := ReadingsOf(parser, values);
    ReadingsAreProper(parser, values);
    var query := EMPTY_QUERY;
    var names := SortNames(values.Keys);
    NothingCollected(values, readings, names);
    for index := 0 to |names|
      invariant forall i :: 0 <= i < index ==> names[i] in values && !readings[names[i]].Refused?
      invariant Collects(query, values, readings, Elements(names[..index]))
    {
      var name := names[index];
      ElementsAreIndexed(names, index);
      var reading := ParseParameter(parser, name, values[name]);
      if reading.Refused? {
        FirstRefusal(values, readings, names, index);
        return ParameterRefusal(name, reading.code);
      }
      VisitedNames(names, index);
      RecordCollects(query, values, readings, Elements(names[..index]), name);
      query := Record(query, name, values[name], reading);
    }
    assert names[..|names|] == names;
    NoRefusal(values, readings, names);
    return Parsed(query);
  }

  lemma NothingCollected(values: Family, readings: Readings, names: seq<string>)
    ensures Collects(EMPTY_QUERY, values, readings, Elements(names[..0]))
  {
  }

  lemma ElementsAreIndexed(names: seq<string>, index: nat)
    requires index < |names|
    ensures names[index] in Elements(names)
  {
  }

  lemma NoRefusal(values: Family, readings: Readings, names: seq<string>)
    requires Elements(names) == values.Keys == readings.Keys
    requires forall i :: 0 <= i < |names| ==> names[i] in values && !readings[names[i]].Refused?
    ensures forall name :: name in values ==> !readings[name].Refused?
  {
    forall name | name in values ensures !readings[name].Refused? {
      assert name in Elements(names);
    }
  }

  lemma ReadingsAreProper(parser: Parser, values: Family)
    ensures Proper(ReadingsOf(parser, values))
  {
    forall name | name in values
      ensures OnlyName(ReadingsOf(parser, values)[name]).Some? ==> OnlyName(ReadingsOf(parser, values)[name]) == Some(name)
    {
      ReadingsHaveTheirNames(parser, name, values[name]);
    }
  }

  lemma VisitedNames(names: seq<string>, index: nat)
    requires StrictlySorted(names) && index < |names|
    ensures names[index] !in Elements(names[..index])
    ensures Elements(names[..index + 1]) == Elements(names[..index]) + {names[index]}
  {
    assert names[..index + 1] == names[..index] + [names[index]];
    forall i | 0 <= i < index ensures names[i] != names[index] {
      BeforeIsIrreflexive(names[index]);
    }
  }

  lemma FirstRefusal(values: Family, readings: Readings, names: seq<string>, index: nat)
    requires StrictlySorted(names) && Elements(names) == values.Keys == readings.Keys && index < |names|
    requires forall i :: 0 <= i < index ==> names[i] in values && !readings[names[i]].Refused?
    ensures forall name :: name in values && readings[name].Refused? ==>
      name == names[index] || Before(names[index], name)
  {
    forall name | name in values && readings[name].Refused? ensures name == names[index] || Before(names[index], name) {
      assert name in Elements(names);
      var i :| 0 <= i < |names| && names[i] == name;
    }
  }

  /** There is only one answer, up to the name in a limit refusal. */
  lemma AnswersAreUnique(first: Result, second: Result, parser: Parser, values: Family)
    requires Answers(first, parser, values) && Answers(second, parser, values)
    ensures first.LimitRefusal? <==> !WithinLimits(values, parser.limits)
    ensures first == second || (first.LimitRefusal? && second.LimitRefusal?)
  {
    hide WithinLimits, CanReport, Collects, ReadParameter;
    if first.LimitRefusal? {
      ReportsMeanRefusal(values, parser.limits, first.parameter);
    }
    if second.LimitRefusal? {
      ReportsMeanRefusal(values, parser.limits, second.parameter);
    }
    if first.ParameterRefusal? && second.ParameterRefusal? {
      BeforeIsTotal(first.parameter, second.parameter);
    }
    if first.Parsed? && second.Parsed? {
      CollectedIsUnique(first.query, second.query, values, ReadingsOf(parser, values), values.Keys);
    }
  }

  /** Two names of 1025 bytes have two answers. */
  lemma LimitRefusalsDependOnTheOrder(parser: Parser)
    requires parser.limits == DEFAULT_LIMITS
    ensures var first, second := Repeated('a', 1025), Repeated('b', 1025);
      var values: Family := map[first := [], second := []];
      && first != second
      && Answers(LimitRefusal(first), parser, values) && Answers(LimitRefusal(second), parser, values)
  {
    hide CanReport, Report, IsOrder;
    var first, second := Repeated('a', 1025), Repeated('b', 1025);
    var values: Family := map[first := [], second := []];
    TwoNamesTwoReports();
    ReportsAreExact(values, DEFAULT_LIMITS, first);
    ReportsAreExact(values, DEFAULT_LIMITS, second);
  }

  lemma CollectedIsUnique(first: Query, second: Query, values: Family, readings: Readings, names: set<string>)
    requires Collects(first, values, readings, names) && Collects(second, values, readings, names)
    ensures first == second
  {
    assert first.includePaths == second.includePaths && first.sort == second.sort;
    FieldsAreUnique(first.fields, second.fields, readings, names);
    forall key ensures FamilyAt(first.custom, key) == FamilyAt(second.custom, key) {
    }
    forall key ensures FamilyAt(first.extensions, key) == FamilyAt(second.extensions, key) {
    }
    FamiliesAreUnique(first.custom, second.custom);
    FamiliesAreUnique(first.extensions, second.extensions);
  }

  lemma FieldsAreUnique(
    first: map<string, seq<string>>, second: map<string, seq<string>>, readings: Readings, names: set<string>)
    requires CollectsFields(first, readings, names) && CollectsFields(second, readings, names)
    ensures first == second
  {
    forall key | key in first ensures key in second && first[key] == second[key] {
      assert HasFieldset(readings, names, key, first[key]);
    }
    forall key | key in second ensures key in first {
      assert HasFieldset(readings, names, key, second[key]);
    }
  }

  lemma FamiliesAreUnique(first: map<string, Family>, second: map<string, Family>)
    requires forall key :: FamilyAt(first, key) == FamilyAt(second, key)
    requires forall key :: key in first ==> first[key] != map[]
    requires forall key :: key in second ==> second[key] != map[]
    ensures first == second
  {
    forall key ensures key in first <==> key in second {
      assert FamilyAt(first, key) == FamilyAt(second, key);
    }
    forall key | key in first ensures first[key] == second[key] {
      assert FamilyAt(first, key) == FamilyAt(second, key);
    }
  }

  /** What a parsed query says about sorting and paging, in terms of the values it was parsed from. */
  lemma ParsedSortAndPage(parser: Parser, values: Family, query: Query)
    requires Answers(Parsed(query), parser, values)
    ensures query.sort.Some? <==> "sort" in values
    ensures query.sort.Some? ==>
      && WellFormedSort(query.sort.value) && |query.sort.value| <= parser.limits.maxListItems
      && values["sort"] == [PrintSort(query.sort.value)]
    ensures "sort" !in query.page
    ensures forall name :: name in query.page ==> name in values && query.page[name] == values[name]
  {
    hide ReadParameter, WellFormedSort, PrintSort;
    var readings := ReadingsOf(parser, values);
    if "sort" in values {
      assert readings["sort"] == ReadParameter(parser, "sort", values["sort"]);
      SortIsRead(parser, values["sort"]);
    }
  }

  /** The parameter `sort` is refused or read as the sort fields it prints. */
  lemma SortIsRead(parser: Parser, values: seq<string>)
    ensures var reading := ReadParameter(parser, "sort", values);
      || reading.Refused?
      || (reading.SortReading? && WellFormedSort(reading.fields) && |reading.fields| <= parser.limits.maxListItems
          && values == [PrintSort(reading.fields)])
  {
    hide ReadName, ReadSort, WellFormedSort, PrintSort;
    SortNameReads();
    if |values| == 1 && ReadSort(values[0]).Some? {
      SortsArePrinted(values[0], ReadSort(values[0]).value);
    }
  }

  lemma SortNameReads()
    ensures ReadName("sort") == Some(FamilyName("sort", []))
  {
    assert "sort"[0] == 's' && "sort"[1] == 'o' && "sort"[2] == 'r' && "sort"[3] == 't';
    NamesArePrinted("sort", FamilyName("sort", []));
    assert "sort" + "" == "sort";
  }
}
