/**
  Where the parameters of a query go, told by how their names are printed and by their values. The
  branches of the parser are not mentioned here; they are proved to come to this.
 */
module QueryPlaces {
  import opened Documents
  import opened Text
  import opened MemberNames
  import opened QueryLimits
  import opened QueryGrammar
  import opened QueryParsing

  // Which parameter says what, in terms of how its name is printed.

  /** A base of the form `namespace:name`. */
  ghost predicate IsExtensionBase(base: string, namespace: string) {
    exists local: string ::
      && base == namespace + ":" + local
      && ValidExtensionNamespace(namespace)
      && local != "" && forall i :: 0 <= i < |local| ==> 'a' <= local[i] <= 'z'
  }

  lemma ExtensionBasesArePrinted(base: string, namespace: string)
    ensures ExtensionNamespace(base) == Some(namespace) <==> IsExtensionBase(base, namespace)
  {
    hide IndexOf;
    if ExtensionNamespace(base) == Some(namespace) {
      var colon := IndexOf(base, ':');
      assert base == base[..colon] + ":" + base[colon + 1..];
    }
    if IsExtensionBase(base, namespace) {
      var local: string :| base == namespace + ":" + local && ValidExtensionNamespace(namespace)
        && local != "" && forall i :: 0 <= i < |local| ==> 'a' <= local[i] <= 'z';
      assert ':' !in namespace by {
        assert !AsciiLetter(':') && !Digit(':');
      }
      FirstIndex(namespace, ':', local);
      assert base == namespace + [':'] + local;
      assert base[..|namespace|] == namespace && base[|namespace| + 1..] == local;
    }
  }

  ghost predicate IsListOf(values: seq<string>, items: seq<string>, limit: nat) {
    values == [Join(items, ',')] && |items| <= limit
  }

  ghost predicate AreMemberPaths(paths: seq<string>) {
    forall i :: 0 <= i < |paths| ==> ValidMemberPath(paths[i])
  }

  ghost predicate AreMemberNames(names: seq<string>) {
    forall i :: 0 <= i < |names| ==> ValidImplementationMemberName(names[i])
  }

  ghost predicate IsReserved(base: string) {
    base in {"include", "fields", "sort", "page", "filter"}
  }

  /** A fieldset names one type. */
  ghost predicate NamesType(selectors: seq<string>, resourceType: string) {
    selectors == [resourceType] && resourceType != "" && '.' !in resourceType
  }

  /** What a parameter with these name parts and values contributes. */
  ghost predicate Contributes(parser: Parser, parts: FamilyName, values: seq<string>, reading: Reading) {
    var fits := |parts.selectors| <= parser.limits.maxSelectors;
    match reading
    case IncludeReading(paths) =>
      && parts == FamilyName("include", []) && AreMemberPaths(paths)
      && IsListOf(values, paths, parser.limits.maxListItems)
    case SortReading(fields) =>
      && parts == FamilyName("sort", []) && WellFormedSort(fields) && values == [PrintSort(fields)]
      && |fields| <= parser.limits.maxListItems
    case FieldsReading(resourceType, names) =>
      && parts.base == "fields" && NamesType(parts.selectors, resourceType) && fits && AreMemberNames(names)
      && IsListOf(values, names, parser.limits.maxListItems)
    case PageReading => parts.base == "page" && fits
    case FilterReading => parts.base == "filter" && fits
    case CustomReading(base) =>
      && parts.base == base && fits && base in parser.customFamilies
      && !IsReserved(base) && forall namespace :: !IsExtensionBase(base, namespace)
    case ExtensionReading(namespace) =>
      IsExtensionBase(parts.base, namespace) && fits && namespace in parser.extensionNamespaces
    case Refused(code) => Explains(parser, parts, values, code)
  }

  /** Why it is refused: the selectors are too many; the name is out of shape; the number of values; the value; its length. */
  ghost predicate Explains(parser: Parser, parts: FamilyName, values: seq<string>, code: Code) {
    var many := |parts.selectors| > parser.limits.maxSelectors;
    var shaped :=
      if parts.base == "fields" then exists resourceType :: NamesType(parts.selectors, resourceType)
      else parts.selectors == [];
    var listed := parts.base in {"include", "fields", "sort"};
    match code
    case InvalidName => !many && listed && !shaped
    case MultipleValues => !many && listed && shaped && |values| != 1
    case InvalidValue => !many && listed && shaped && |values| == 1 && !IsReadable(parts.base, values[0])
    case LimitExceeded =>
      many || (listed && shaped && |values| == 1 && IsReadable(parts.base, values[0])
               && ItemCount(values[0]) > parser.limits.maxListItems)
    case UnknownParameter =>
      && !many && !IsReserved(parts.base)
      && (forall namespace :: IsExtensionBase(parts.base, namespace) ==> namespace !in parser.extensionNamespaces)
      && (parts.base in parser.customFamilies ==> exists namespace :: IsExtensionBase(parts.base, namespace))
  }

  /** The value lists member paths, member names or sort fields, as the base demands. */
  ghost predicate IsReadable(base: string, value: string) {
    if base == "include" then exists paths :: AreMemberPaths(paths) && Join(paths, ',') == value
    else if base == "fields" then exists names :: AreMemberNames(names) && Join(names, ',') == value
    else exists fields :: WellFormedSort(fields) && PrintSort(fields) == value
  }

  /** One more than the number of commas, and none for an empty value. */
  ghost function ItemCount(value: string): nat {
    if value == "" then 0 else 1 + multiset(value)[',']
  }

  lemma {:induction false} JoinedCommas(items: seq<string>)
    requires forall i :: 0 <= i < |items| ==> ',' !in items[i]
    ensures items != [] ==> multiset(Join(items, ','))[','] == |items| - 1
  {
    if |items| == 1 {
      assert Join(items, ',') == items[0];
    } else if items != [] {
      var rest := items[1..];
      assert forall i :: 0 <= i < |rest| ==> rest[i] == items[i + 1];
      JoinedCommas(rest);
      assert Join(items, ',') == items[0] + [','] + Join(rest, ',');
    }
  }

  lemma ItemsAreCounted(items: seq<string>)
    requires forall i :: 0 <= i < |items| ==> items[i] != "" && ',' !in items[i]
    ensures ItemCount(Join(items, ',')) == |items|
  {
    if items != [] {
      JoinedCommas(items);
      JoinIsNotEmpty(items, ',');
    }
  }

  lemma IncludeIsReadable(value: string)
    ensures IsReadable("include", value) <==> ReadList(value, ValidMemberPath).Some?
    ensures ReadList(value, ValidMemberPath).Some? ==>
      ItemCount(value) == |ReadList(value, ValidMemberPath).value|
  {
    hide ReadList, ValidMemberPath, ItemCount;
    forall paths ensures ReadList(value, ValidMemberPath) == Some(paths) <==>
        AreMemberPaths(paths) && Join(paths, ',') == value
    {
      IncludesArePrinted(value, paths);
    }
    if ReadList(value, ValidMemberPath).Some? {
      var paths := ReadList(value, ValidMemberPath).value;
      forall i | 0 <= i < |paths| ensures paths[i] != "" && ',' !in paths[i] {
        ItemsHaveNoComma(paths[i]);
      }
      ItemsAreCounted(paths);
    }
  }

  lemma FieldsetIsReadable(value: string)
    ensures IsReadable("fields", value) <==> ReadList(value, ValidImplementationMemberName).Some?
    ensures ReadList(value, ValidImplementationMemberName).Some? ==>
      ItemCount(value) == |ReadList(value, ValidImplementationMemberName).value|
  {
    hide ReadList, ValidImplementationMemberName, ItemCount;
    assert "fields" != "include";
    forall names ensures ReadList(value, ValidImplementationMemberName) == Some(names) <==>
        AreMemberNames(names) && Join(names, ',') == value
    {
      FieldsetsArePrinted(value, names);
    }
    if ReadList(value, ValidImplementationMemberName).Some? {
      var names := ReadList(value, ValidImplementationMemberName).value;
      forall i | 0 <= i < |names| ensures names[i] != "" && ',' !in names[i] {
        ItemsHaveNoComma(names[i]);
      }
      ItemsAreCounted(names);
    }
  }

  lemma SortIsReadable(value: string)
    ensures IsReadable("sort", value) <==> ReadSort(value).Some?
    ensures ReadSort(value).Some? ==> ItemCount(value) == |ReadSort(value).value|
  {
    hide ReadSort, WellFormedSort, PrintSort, ItemCount;
    assert "sort" != "include" && "sort" != "fields";
    forall fields ensures ReadSort(value) == Some(fields) <==> WellFormedSort(fields) && PrintSort(fields) == value {
      SortsArePrinted(value, fields);
    }
    if ReadSort(value).Some? {
      SortItems(ReadSort(value).value);
    }
  }

  lemma SortItems(fields: seq<SortField>)
    requires WellFormedSort(fields)
    ensures ItemCount(PrintSort(fields)) == |fields|
  {
    hide ItemCount;
    PrintedFieldsReadBack(fields);
    ItemsAreCounted(PrintFields(fields));
  }

  lemma IncludeContributes(parser: Parser, parts: FamilyName, values: seq<string>, reading: Reading)
    requires parts.base == "include" && |parts.selectors| <= parser.limits.maxSelectors
    ensures ReadInclude(parser, parts.selectors, values) == reading <==> Contributes(parser, parts, values, reading)
  {
    hide ReadList, ValidMemberPath, IsReadable, ItemCount, WellFormedSort, PrintSort, IsExtensionBase, AreMemberPaths;
    hide AreMemberNames, ValidImplementationMemberName;
    ReservedIsNoExtension();
    if |values| == 1 {
      IncludeIsReadable(values[0]);
      if reading.IncludeReading? {
        IncludesArePrinted(values[0], reading.paths);
        AreThePaths(reading.paths);
      }
    }
  }

  lemma AreThePaths(paths: seq<string>)
    ensures AreMemberPaths(paths) <==> forall i :: 0 <= i < |paths| ==> ValidMemberPath(paths[i])
    ensures AreMemberNames(paths) <==> forall i :: 0 <= i < |paths| ==> ValidImplementationMemberName(paths[i])
  {
  }

  lemma ReservedIsNoExtension()
    ensures forall base, namespace :: IsReserved(base) ==> !IsExtensionBase(base, namespace)
  {
    forall base, namespace | IsExtensionBase(base, namespace) ensures ':' in base {
    }
  }

  lemma SortContributes(parser: Parser, parts: FamilyName, values: seq<string>, reading: Reading)
    requires parts.base == "sort" && |parts.selectors| <= parser.limits.maxSelectors
    ensures ReadSorting(parser, parts.selectors, values) == reading <==> Contributes(parser, parts, values, reading)
  {
    hide ReadSort, IsReadable, ItemCount, WellFormedSort, PrintSort, IsExtensionBase, AreMemberPaths;
    hide AreMemberNames;
    ReservedIsNoExtension();
    if |values| == 1 {
      SortIsReadable(values[0]);
      if reading.SortReading? {
        SortsArePrinted(values[0], reading.fields);
      }
    }
  }

  lemma FieldsContributes(parser: Parser, parts: FamilyName, values: seq<string>, reading: Reading)
    requires parts.base == "fields" && |parts.selectors| <= parser.limits.maxSelectors
    ensures ReadFields(parser, parts.selectors, values) == reading <==> Contributes(parser, parts, values, reading)
  {
    hide ReadList, IsReadable, ItemCount, WellFormedSort, PrintSort, IsExtensionBase, AreMemberPaths, AreMemberNames;
    hide ValidImplementationMemberName, ValidMemberPath;
    ReservedIsNoExtension();
    OneType(parts.selectors);
    if |values| == 1 {
      FieldsetIsReadable(values[0]);
      if reading.FieldsReading? {
        FieldsetsArePrinted(values[0], reading.names);
        AreThePaths(reading.names);
      }
    }
  }

  lemma OneType(selectors: seq<string>)
    ensures |selectors| == 1 && selectors[0] != "" && '.' !in selectors[0] ==> NamesType(selectors, selectors[0])
    ensures forall resourceType :: NamesType(selectors, resourceType) ==>
      |selectors| == 1 && selectors[0] == resourceType != "" && '.' !in resourceType
  {
  }

  lemma OtherContributes(parser: Parser, parts: FamilyName, values: seq<string>, reading: Reading)
    requires !IsReserved(parts.base) && |parts.selectors| <= parser.limits.maxSelectors
    ensures ReadOther(parser, parts.base) == reading <==> Contributes(parser, parts, values, reading)
  {
    hide IsReadable, ItemCount, WellFormedSort, PrintSort, IsExtensionBase, AreMemberPaths, AreMemberNames, NamesType;
    hide ExtensionNamespace;
    forall namespace
      ensures ExtensionNamespace(parts.base) == Some(namespace) <==> IsExtensionBase(parts.base, namespace)
    {
      ExtensionBasesArePrinted(parts.base, namespace);
    }
  }

  lemma FamilyContributes(parser: Parser, parts: FamilyName, values: seq<string>, reading: Reading)
    requires parts.base in {"page", "filter"} || |parts.selectors| > parser.limits.maxSelectors
    ensures ReadNamed(parser, parts, values) == reading <==> Contributes(parser, parts, values, reading)
  {
    hide IsReadable, ItemCount, WellFormedSort, PrintSort, IsExtensionBase, AreMemberPaths, AreMemberNames;
    hide ReadInclude, ReadFields, ReadSorting, ReadOther;
    ReservedIsNoExtension();
    OneType(parts.selectors);
  }

  /** Parsing a parameter gives what its printed name and its values contribute, and nothing else. */
  lemma NamedContributes(parser: Parser, parts: FamilyName, values: seq<string>, reading: Reading)
    ensures ReadNamed(parser, parts, values) == reading <==> Contributes(parser, parts, values, reading)
  {
    hide Contributes, ReadInclude, ReadFields, ReadSorting, ReadOther;
    if parts.base in {"page", "filter"} || |parts.selectors| > parser.limits.maxSelectors {
      FamilyContributes(parser, parts, values, reading);
    } else if parts.base == "include" {
      IncludeContributes(parser, parts, values, reading);
    } else if parts.base == "fields" {
      FieldsContributes(parser, parts, values, reading);
    } else if parts.base == "sort" {
      SortContributes(parser, parts, values, reading);
    } else {
      OtherContributes(parser, parts, values, reading);
    }
  }

  /** The same from the name as it is written: a name that nothing prints is refused. */
  lemma ParametersContribute(parser: Parser, name: string, values: seq<string>, reading: Reading)
    ensures ReadParameter(parser, name, values) == reading <==>
      || (exists parts :: WellFormedName(parts) && PrintName(parts) == name && Contributes(parser, parts, values, reading))
      || (reading == Refused(InvalidName) && forall parts :: !(WellFormedName(parts) && PrintName(parts) == name))
  {
    hide ReadName, ReadNamed, Contributes, WellFormedName, PrintName;
    forall parts ensures ReadName(name) == Some(parts) <==> WellFormedName(parts) && PrintName(parts) == name {
      NamesArePrinted(name, parts);
    }
    if ReadName(name).Some? {
      NamedContributes(parser, ReadName(name).value, values, reading);
    }
  }

  // Where the parameters of a parsed query end up.

  /** The name is the base, alone or followed by brackets. */
  predicate HasBase(name: string, base: string) {
    name == base || base + "[" <= name
  }

  lemma BaseOfName(parts: FamilyName, base: string)
    requires WellFormedName(parts) && '[' !in base
    ensures HasBase(PrintName(parts), base) <==> parts.base == base
  {
    hide PrintSelectors;
    NoSelectors();
    var name := PrintName(parts);
    if HasBase(name, base) {
      assert name != base ==> name[|base|] == '[' && name[..|base|] == base;
      assert parts.selectors != [] ==> name[|parts.base|] == '[' && name[..|parts.base|] == parts.base;
      assert forall i :: 0 <= i < |base| && i < |name| ==> name[i] == base[i];
      assert forall i :: 0 <= i < |parts.base| ==> name[i] == parts.base[i];
    }
    if parts.base == base && parts.selectors != [] {
      assert base + "[" <= name;
    }
  }

  datatype Place =
    | AtInclude
    | AtSort
    | AtFields(resourceType: string)
    | AtPage
    | AtFilter
    | AtCustom(base: string)
    | AtExtension(namespace: string)

  /** The query has these values of this name in this place. */
  ghost predicate Has(query: Query, place: Place, name: string, values: seq<string>) {
    match place
    case AtInclude => name == "include" && query.includePaths.Some? && values == [Join(query.includePaths.value, ',')]
    case AtSort => name == "sort" && query.sort.Some? && values == [PrintSort(query.sort.value)]
    case AtFields(resourceType) =>
      && name == "fields[" + resourceType + "]" && resourceType in query.fields
      && values == [Join(query.fields[resourceType], ',')]
    case AtPage => name in query.page && values == query.page[name]
    case AtFilter => name in query.filter && values == query.filter[name]
    case AtCustom(base) => base in query.custom && name in query.custom[base] && values == query.custom[base][name]
    case AtExtension(namespace) =>
      && namespace in query.extensions && name in query.extensions[namespace]
      && values == query.extensions[namespace][name]
  }

  /** The place of a parameter is told by its name alone. */
  ghost predicate BelongsTo(parser: Parser, name: string, place: Place) {
    match place
    case AtInclude => name == "include"
    case AtSort => name == "sort"
    case AtFields(resourceType) => name == "fields[" + resourceType + "]"
    case AtPage => HasBase(name, "page")
    case AtFilter => HasBase(name, "filter")
    case AtCustom(base) =>
      && base in parser.customFamilies && '[' !in base && HasBase(name, base)
      && !IsReserved(base) && forall namespace :: !IsExtensionBase(base, namespace)
    case AtExtension(namespace) =>
      && namespace in parser.extensionNamespaces
      && exists base :: IsExtensionBase(base, namespace) && HasBase(name, base)
  }

  /** Where a reading is recorded. */
  function PlaceOf(reading: Reading): Place
    requires !reading.Refused?
  {
    match reading
    case IncludeReading(_) => AtInclude
    case SortReading(_) => AtSort
    case FieldsReading(resourceType, _) => AtFields(resourceType)
    case PageReading => AtPage
    case FilterReading => AtFilter
    case CustomReading(base) => AtCustom(base)
    case ExtensionReading(namespace) => AtExtension(namespace)
  }

  lemma FixedNames(parts: FamilyName, name: string)
    requires WellFormedName(parts) && PrintName(parts) == name
    ensures name == "include" <==> parts == FamilyName("include", [])
    ensures name == "sort" <==> parts == FamilyName("sort", [])
    ensures forall resourceType :: name == "fields[" + resourceType + "]" ==> parts.base == "fields"
    ensures forall resourceType :: parts == FamilyName("fields", [resourceType]) ==> name == "fields[" + resourceType + "]"
  {
    hide PrintSelectors;
    NoSelectors();
    OnlyNamesPrint(parts);
    BaseOfName(parts, "include");
    BaseOfName(parts, "sort");
    BaseOfName(parts, "fields");
    assert parts.selectors != [] ==> name[|parts.base|] == '[';
    assert "fields" + "[" == "fields[";
    forall resourceType | name == "fields[" + resourceType + "]" ensures HasBase(name, "fields") {
      assert ("fields" + "[") <= name;
    }
    forall resourceType | parts == FamilyName("fields", [resourceType]) ensures name == "fields[" + resourceType + "]" {
      assert name == "fields" + "[" + resourceType + "]";
    }
  }

  /** A parameter that is not refused is recorded in the one place its name belongs to. */
  lemma ReadingsBelong(parser: Parser, name: string, values: seq<string>, place: Place)
    requires !ReadParameter(parser, name, values).Refused?
    ensures BelongsTo(parser, name, place) <==> place == PlaceOf(ReadParameter(parser, name, values))
  {
    hide ReadParameter, PrintName, WellFormedName, Contributes, BelongsTo, PlaceOf;
    var reading := ReadParameter(parser, name, values);
    ParametersContribute(parser, name, values, reading);
    var parts :| WellFormedName(parts) && PrintName(parts) == name && Contributes(parser, parts, values, reading);
    if place.AtCustom? || place.AtExtension? {
      FamiliesBelong(parser, parts, name, values, reading, place);
    } else {
      ReservedBelong(parser, parts, name, values, reading, place);
    }
  }

  lemma ReservedBelong(
    parser: Parser, parts: FamilyName, name: string, values: seq<string>, reading: Reading, place: Place)
    requires WellFormedName(parts) && PrintName(parts) == name && Contributes(parser, parts, values, reading)
    requires !reading.Refused? && !place.AtCustom? && !place.AtExtension?
    ensures BelongsTo(parser, name, place) <==> place == PlaceOf(reading)
  {
    hide PrintName, AreMemberPaths, AreMemberNames, WellFormedSort, PrintSort, Explains, IsExtensionBase, HasBase;
    FixedNames(parts, name);
    BaseOfName(parts, "page");
    BaseOfName(parts, "filter");
    ReservedIsNoExtension();
    FieldsetName(parts, name, values, parser, reading);
  }

  lemma FamiliesBelong(
    parser: Parser, parts: FamilyName, name: string, values: seq<string>, reading: Reading, place: Place)
    requires WellFormedName(parts) && PrintName(parts) == name && Contributes(parser, parts, values, reading)
    requires !reading.Refused? && (place.AtCustom? || place.AtExtension?)
    ensures BelongsTo(parser, name, place) <==> place == PlaceOf(reading)
  {
    hide PrintName, AreMemberPaths, AreMemberNames, WellFormedSort, PrintSort, Explains, IsExtensionBase, HasBase;
    ReservedIsNoExtension();
    OneNamespace();
    ExtensionBasesHaveNoBracket();
    forall base: string | '[' !in base ensures HasBase(name, base) <==> parts.base == base {
      BaseOfName(parts, base);
    }
  }

  lemma FieldsetName(parts: FamilyName, name: string, values: seq<string>, parser: Parser, reading: Reading)
    requires WellFormedName(parts) && PrintName(parts) == name && Contributes(parser, parts, values, reading)
    requires !reading.Refused?
    ensures forall resourceType :: name == "fields[" + resourceType + "]" ==>
      reading.FieldsReading? && resourceType == reading.resourceType
    ensures reading.FieldsReading? ==> name == "fields[" + reading.resourceType + "]"
  {
    hide PrintName, AreMemberPaths, AreMemberNames, WellFormedSort, PrintSort, Explains, IsExtensionBase;
    FixedNames(parts, name);
    ReservedIsNoExtension();
    forall resourceType | name == "fields[" + resourceType + "]"
      ensures reading.FieldsReading? && resourceType == reading.resourceType
    {
      assert parts.base == "fields";
      assert reading.FieldsReading?;
      assert parts == FamilyName("fields", [reading.resourceType]);
      assert ("fields[" + resourceType + "]")[7..|name| - 1] == resourceType;
      assert ("fields[" + reading.resourceType + "]")[7..|name| - 1] == reading.resourceType;
    }
  }

  lemma OneNamespace()
    ensures forall base, first, second :: IsExtensionBase(base, first) && IsExtensionBase(base, second) ==> first == second
  {
    hide IsExtensionBase, ExtensionNamespace;
    forall base, namespace ensures ExtensionNamespace(base) == Some(namespace) <==> IsExtensionBase(base, namespace) {
      ExtensionBasesArePrinted(base, namespace);
    }
  }

  lemma ExtensionBasesHaveNoBracket()
    ensures forall base, namespace :: IsExtensionBase(base, namespace) ==> '[' !in base
  {
    forall base, namespace | IsExtensionBase(base, namespace) ensures '[' !in base {
      assert !AsciiLetter('[') && !Digit('[');
    }
  }

  /** The query has a parameter in a place exactly when its reading is recorded there. */
  lemma RecordedPlaces(parser: Parser, values: Family, query: Query, place: Place, name: string, held: seq<string>)
    requires Answers(Parsed(query), parser, values)
    ensures Has(query, place, name, held) <==>
      && name in values && held == values[name]
      && !ReadParameter(parser, name, values[name]).Refused?
      && place == PlaceOf(ReadParameter(parser, name, values[name]))
  {
    hide ReadParameter, PrintSort, Join, WithinLimits, CollectsInclude, CollectsSort, CollectsFields, CollectsCustom;
    hide CollectsExtensions;
    var readings := ReadingsOf(parser, values);
    if name in values {
      assert readings[name] == ReadParameter(parser, name, values[name]);
      RecordedValues(parser, name, values[name]);
    }
    match place
    case AtInclude => RecordedInclude(parser, values, query);
    case AtSort => RecordedSort(parser, values, query);
    case AtFields(resourceType) => RecordedFields(parser, values, query, resourceType);
    case AtCustom(base) => RecordedFamilies(values, query, readings, base);
    case AtExtension(namespace) => RecordedFamilies(values, query, readings, namespace);
    case _ =>
  }

  /** What include, sort and fieldset readings say about the name and the values. */
  lemma RecordedValues(parser: Parser, name: string, values: seq<string>)
    ensures var reading := ReadParameter(parser, name, values);
      && (reading.IncludeReading? ==> name == "include" && values == [Join(reading.paths, ',')])
      && (reading.SortReading? ==> name == "sort" && values == [PrintSort(reading.fields)])
      && (reading.FieldsReading? ==>
            name == "fields[" + reading.resourceType + "]" && values == [Join(reading.names, ',')])
  {
    hide ReadParameter, PrintName, AreMemberPaths, AreMemberNames, WellFormedSort, PrintSort, Explains, IsExtensionBase;
    hide Join;
    var reading := ReadParameter(parser, name, values);
    ParametersContribute(parser, name, values, reading);
    if reading.IncludeReading? || reading.SortReading? || reading.FieldsReading? {
      var parts :| WellFormedName(parts) && PrintName(parts) == name && Contributes(parser, parts, values, reading);
      FixedNames(parts, name);
    }
  }

  lemma RecordedInclude(parser: Parser, values: Family, query: Query)
    requires Answers(Parsed(query), parser, values)
    ensures query.includePaths.Some? ==>
      "include" in values && ReadParameter(parser, "include", values["include"]) == IncludeReading(query.includePaths.value)
    ensures forall name :: name in values && ReadParameter(parser, name, values[name]).IncludeReading? ==>
      query.includePaths == Some(ReadParameter(parser, name, values[name]).paths)
  {
    hide ReadParameter, WithinLimits, CollectsSort, CollectsFields, CollectsCustom, CollectsExtensions, Select;
    var readings := ReadingsOf(parser, values);
    forall name | name in values ensures readings[name] == ReadParameter(parser, name, values[name]) {
    }
  }

  lemma RecordedSort(parser: Parser, values: Family, query: Query)
    requires Answers(Parsed(query), parser, values)
    ensures query.sort.Some? ==>
      "sort" in values && ReadParameter(parser, "sort", values["sort"]) == SortReading(query.sort.value)
    ensures forall name :: name in values && ReadParameter(parser, name, values[name]).SortReading? ==>
      query.sort == Some(ReadParameter(parser, name, values[name]).fields)
  {
    hide ReadParameter, WithinLimits, CollectsInclude, CollectsFields, CollectsCustom, CollectsExtensions, Select;
    var readings := ReadingsOf(parser, values);
    forall name | name in values ensures readings[name] == ReadParameter(parser, name, values[name]) {
    }
  }

  lemma RecordedFields(parser: Parser, values: Family, query: Query, resourceType: string)
    requires Answers(Parsed(query), parser, values)
    ensures var name := "fields[" + resourceType + "]";
      && (resourceType in query.fields ==>
            name in values
            && ReadParameter(parser, name, values[name]) == FieldsReading(resourceType, query.fields[resourceType]))
      && (name in values && ReadParameter(parser, name, values[name]).FieldsReading?
          && ReadParameter(parser, name, values[name]).resourceType == resourceType ==>
            resourceType in query.fields
            && query.fields[resourceType] == ReadParameter(parser, name, values[name]).names)
  {
    hide ReadParameter, WithinLimits, CollectsInclude, CollectsSort, CollectsCustom, CollectsExtensions, Select;
    var readings, name := ReadingsOf(parser, values), "fields[" + resourceType + "]";
    if resourceType in query.fields {
      assert HasFieldset(readings, values.Keys, resourceType, query.fields[resourceType]);
      var other :| other in values && other in readings
        && readings[other] == FieldsReading(resourceType, query.fields[resourceType]);
      RecordedValues(parser, other, values[other]);
    }
    if name in values && readings[name].FieldsReading? && readings[name].resourceType == resourceType {
      assert HasFieldset(readings, values.Keys, resourceType, readings[name].names);
    }
  }

  lemma RecordedFamilies(values: Family, query: Query, readings: Readings, key: string)
    requires Collects(query, values, readings, values.Keys) && readings.Keys == values.Keys
    ensures forall name :: key in query.custom && name in query.custom[key] <==>
      name in values && readings[name] == CustomReading(key)
    ensures forall name :: key in query.custom && name in query.custom[key] ==> query.custom[key][name] == values[name]
    ensures forall name :: key in query.extensions && name in query.extensions[key] <==>
      name in values && readings[name] == ExtensionReading(key)
    ensures forall name :: key in query.extensions && name in query.extensions[key] ==>
      query.extensions[key][name] == values[name]
  {
    hide CollectsInclude, CollectsSort, CollectsFields;
    assert FamilyAt(query.custom, key) == Select(values, readings, values.Keys, CustomReading(key));
    assert FamilyAt(query.extensions, key) == Select(values, readings, values.Keys, ExtensionReading(key));
    forall name
      ensures name in FamilyAt(query.custom, key) <==> name in values && readings[name] == CustomReading(key)
      ensures name in FamilyAt(query.extensions, key) <==> name in values && readings[name] == ExtensionReading(key)
    {
    }
  }

  /**
    Where the parameters of an accepted query are: each in the one place that its printed name belongs
    to, with its values, and nothing else is anywhere.
   */
  lemma ParametersAreInTheirPlaces(parser: Parser, values: Family, query: Query)
    requires Answers(Parsed(query), parser, values)
    ensures forall place, name, held :: Has(query, place, name, held) <==>
      name in values && held == values[name] && BelongsTo(parser, name, place)
    ensures forall name :: name in values ==> exists place :: BelongsTo(parser, name, place)
    ensures forall name, first, second ::
      name in values && BelongsTo(parser, name, first) && BelongsTo(parser, name, second) ==> first == second
  {
    hide ReadParameter, Has, BelongsTo, WithinLimits, Collects, PlaceOf;
    var readings := ReadingsOf(parser, values);
    forall name | name in values ensures !ReadParameter(parser, name, values[name]).Refused? {
      assert readings[name] == ReadParameter(parser, name, values[name]);
    }
    forall name, place | name in values
      ensures BelongsTo(parser, name, place) <==> place == PlaceOf(ReadParameter(parser, name, values[name]))
    {
      ReadingsBelong(parser, name, values[name], place);
    }
    forall name | name in values ensures exists place :: BelongsTo(parser, name, place) {
      assert BelongsTo(parser, name, PlaceOf(ReadParameter(parser, name, values[name])));
    }
    forall place, name, held
      ensures Has(query, place, name, held) <==>
        name in values && held == values[name] && BelongsTo(parser, name, place)
    {
      RecordedPlaces(parser, values, query, place, name, held);
    }
  }

  /** In particular the page family holds exactly the parameters named `page` or `page[…`, and the filter family likewise. */
  lemma PageAndFilter(parser: Parser, values: Family, query: Query, name: string)
    requires Answers(Parsed(query), parser, values)
    ensures name in query.page <==> name in values && (name == "page" || "page[" <= name)
    ensures name in query.page ==> query.page[name] == values[name]
    ensures name in query.filter <==> name in values && (name == "filter" || "filter[" <= name)
    ensures name in query.filter ==> query.filter[name] == values[name]
  {
    hide Answers;
    ParametersAreInTheirPlaces(parser, values, query);
    assert "page" + "[" == "page[" && "filter" + "[" == "filter[";
    if name in values {
      assert Has(query, AtPage, name, values[name]) <==> BelongsTo(parser, name, AtPage);
      assert Has(query, AtFilter, name, values[name]) <==> BelongsTo(parser, name, AtFilter);
    }
    if name in query.page {
      assert Has(query, AtPage, name, query.page[name]);
    }
    if name in query.filter {
      assert Has(query, AtFilter, name, query.filter[name]);
    }
  }

  /** A refusal names the first parameter in byte order that contributes nothing, with the reason. */
  lemma RefusalsOnNames(parser: Parser, values: Family, parameter: string, code: Code)
    requires Answers(ParameterRefusal(parameter, code), parser, values)
    ensures parameter in values
    ensures
      || (exists parts ::
            WellFormedName(parts) && PrintName(parts) == parameter && Explains(parser, parts, values[parameter], code))
      || (code == InvalidName && forall parts :: !(WellFormedName(parts) && PrintName(parts) == parameter))
    ensures forall name :: name in values && Before(name, parameter) ==>
      exists parts, reading: Reading ::
        && WellFormedName(parts) && PrintName(parts) == name && !reading.Refused?
        && Contributes(parser, parts, values[name], reading)
  {
    hide ReadParameter, WellFormedName, PrintName, Contributes, WithinLimits, Explains;
    var readings := ReadingsOf(parser, values);
    ParametersContribute(parser, parameter, values[parameter], Refused(code));
    assert forall parts :: Contributes(parser, parts, values[parameter], Refused(code)) ==>
      Explains(parser, parts, values[parameter], code) by {
      RefusedIsExplained(parser, values[parameter], code);
    }
    forall name | name in values && Before(name, parameter)
      ensures exists parts, reading: Reading ::
        && WellFormedName(parts) && PrintName(parts) == name && !reading.Refused?
        && Contributes(parser, parts, values[name], reading)
    {
      BeforeIsTotal(name, parameter);
      assert !readings[name].Refused?;
      ParametersContribute(parser, name, values[name], readings[name]);
    }
  }

  lemma RefusedIsExplained(parser: Parser, values: seq<string>, code: Code)
    ensures forall parts :: Contributes(parser, parts, values, Refused(code)) ==> Explains(parser, parts, values, code)
  {
    hide Explains;
  }
}
