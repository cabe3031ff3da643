/**
  The grammar of query parameters: bracketed family names, sort expressions and comma-separated
  lists. Each parser is the exact inverse of a printer.
 */
module QueryGrammar {
  import opened Documents
  import opened Text
  import opened MemberNames

  // Family names.

  datatype FamilyName = FamilyName(base: string, selectors: seq<string>)

  predicate ValidSelector(selector: string) {
    selector == "" || ValidMemberPath(selector)
  }

  /** A base without `[`, and selectors that are empty or member paths. */
  ghost predicate WellFormedName(name: FamilyName) {
    && name.base != "" && '[' !in name.base
    && forall i :: 0 <= i < |name.selectors| ==> ValidSelector(name.selectors[i])
  }

  function PrintSelectors(selectors: seq<string>): string {
    if selectors == [] then "" else "[" + selectors[0] + "]" + PrintSelectors(selectors[1..])
  }

  function PrintName(name: FamilyName): string {
    name.base + PrintSelectors(name.selectors)
  }

  /** What the loop of `parseFamilyName` makes of a remainder. */
  function ReadSelectors(remainder: string): Option<seq<string>>
    decreases |remainder|
  {
    if remainder == "" then Some([])
    else if remainder[0] != '[' then None
    else
      var end := IndexOf(remainder, ']');
      if end == -1 || !ValidSelector(remainder[1..end]) then None
      else
        var rest :- ReadSelectors(remainder[end + 1..]);
        Some([remainder[1..end]] + rest)
  }

  function ReadName(name: string): Option<FamilyName> {
    var bracket := IndexOf(name, '[');
    if name == "" || bracket == 0 then None
    else if bracket == -1 then Some(FamilyName(name, []))
    else
      var selectors :- ReadSelectors(name[bracket..]);
      Some(FamilyName(name[..bracket], selectors))
  }

  /** `parseFamilyName`. */
  method ParseFamilyName(name: string) returns (result: Option<FamilyName>)
    ensures result == ReadName(name)
  {
    hide IndexOf, ValidMemberPath;
    var bracket := IndexOf(name, '[');
    if bracket < 0 {
      if name == "" {
        return None;
      }
      return Some(FamilyName(name, []));
    }
    var base := name[..bracket];
    if base == "" {
      return None;
    }
    var remainder := name[bracket..];
    var selectors: seq<string> := [];
    PrependedNothing(ReadSelectors(remainder));
    while remainder != ""
      invariant ReadSelectors(name[bracket..]) == Prepended(selectors, ReadSelectors(remainder))
      decreases |remainder|
    {
      if remainder[0] != '[' {
        return None;
      }
      var end := IndexOf(remainder, ']');
      if end == -1 {
        return None;
      }
      var selector := remainder[1..end];
      if selector != "" && !ValidMemberPath(selector) {
        return None;
      }
      PrependedStep(selectors, selector, ReadSelectors(remainder[end + 1..]));
      selectors := selectors + [selector];
      remainder := remainder[end + 1..];
    }
    assert selectors + [] == selectors;
    return Some(FamilyName(base, selectors));
  }

  function Prepended(before: seq<string>, after: Option<seq<string>>): Option<seq<string>> {
    if after.Some? then Some(before + after.value) else None
  }

  lemma PrependedNothing(after: Option<seq<string>>)
    ensures Prepended([], after) == after
  {
    if after.Some? {
      assert [] + after.value == after.value;
    }
  }

  lemma PrependedStep(before: seq<string>, one: string, after: Option<seq<string>>)
    ensures Prepended(before, Prepended([one], after)) == Prepended(before + [one], after)
  {
    if after.Some? {
      assert before + ([one] + after.value) == before + [one] + after.value;
    }
  }

  lemma {:induction false} PrintedSelectorsReadBack(selectors: seq<string>)
    requires forall i :: 0 <= i < |selectors| ==> ValidSelector(selectors[i])
    ensures ReadSelectors(PrintSelectors(selectors)) == Some(selectors)
  {
    if selectors != [] {
      var selector, rest := selectors[0], PrintSelectors(selectors[1..]);
      PrintedSelectorsReadBack(selectors[1..]);
      SelectorEnds(selector, rest);
      assert selectors == [selector] + selectors[1..];
    }
  }

  lemma SelectorEnds(selector: string, rest: string)
    requires ValidSelector(selector)
    ensures var remainder := "[" + selector + "]" + rest;
      && IndexOf(remainder, ']') == |selector| + 1
      && remainder[1..|selector| + 1] == selector && remainder[|selector| + 2..] == rest
  {
    if selector != "" {
      PathCharacters(selector);
    }
    FirstIndex("[" + selector, ']', rest);
    assert "[" + selector + [']'] + rest == "[" + selector + "]" + rest;
  }

  ghost predicate AllValid(selectors: seq<string>) {
    forall i :: 0 <= i < |selectors| ==> ValidSelector(selectors[i])
  }

  lemma {:induction false} ReadSelectorsPrintBack(remainder: string)
    ensures ReadSelectors(remainder).Some? ==>
      && PrintSelectors(ReadSelectors(remainder).value) == remainder && AllValid(ReadSelectors(remainder).value)
    decreases |remainder|
  {
    if ReadSelectors(remainder).Some? && remainder != "" {
      var end := IndexOf(remainder, ']');
      ReadSelectorsPrintBack(remainder[end + 1..]);
      PrintedPrepends(remainder, end, ReadSelectors(remainder[end + 1..]).value);
    }
  }

  lemma PrintedPrepends(remainder: string, end: int, rest: seq<string>)
    requires remainder != "" && remainder[0] == '[' && 0 < end < |remainder| && remainder[end] == ']'
    requires PrintSelectors(rest) == remainder[end + 1..] && AllValid(rest) && ValidSelector(remainder[1..end])
    ensures PrintSelectors([remainder[1..end]] + rest) == remainder && AllValid([remainder[1..end]] + rest)
  {
    var selector := remainder[1..end];
    assert ([selector] + rest)[1..] == rest;
    assert "[" + selector + "]" + remainder[end + 1..] == remainder;
  }

  /**
    A family name is accepted exactly when it is a non-empty base without `[` followed by bracketed
    selectors, and parsing returns the only base and selectors that print as it.
   */
  lemma NamesArePrinted(name: string, parts: FamilyName)
    ensures ReadName(name) == Some(parts) <==> WellFormedName(parts) && PrintName(parts) == name
  {
    hide IndexOf, ReadSelectors, PrintSelectors, ValidSelector;
    NoSelectors();
    if ReadName(name) == Some(parts) {
      var bracket := IndexOf(name, '[');
      if bracket != -1 {
        ReadSelectorsPrintBack(name[bracket..]);
        assert name[..bracket] + name[bracket..] == name;
      } else {
        assert name + "" == name;
      }
    }
    if WellFormedName(parts) && PrintName(parts) == name {
      PrintedSelectorsReadBack(parts.selectors);
      if parts.selectors == [] {
        assert parts.base + "" == parts.base;
      } else {
        BaseEnds(parts.base, PrintSelectors(parts.selectors));
      }
    }
  }

  lemma NoSelectors()
    ensures PrintSelectors([]) == ""
    ensures forall selectors :: selectors != [] ==>
      PrintSelectors(selectors) != "" && PrintSelectors(selectors)[0] == '['
  {
  }

  lemma BaseEnds(base: string, brackets: string)
    requires '[' !in base && brackets != "" && brackets[0] == '['
    ensures IndexOf(base + brackets, '[') == |base|
    ensures (base + brackets)[..|base|] == base && (base + brackets)[|base|..] == brackets
  {
    hide IndexOf;
    FirstIndex(base, '[', brackets[1..]);
    assert base + ['['] + brackets[1..] == base + brackets;
  }

  // Sort expressions.

  datatype SortField = SortField(name: string, descending: bool)

  function PrintField(field: SortField): string {
    (if field.descending then "-" else "") + field.name
  }

  function PrintFields(fields: seq<SortField>): seq<string> {
    seq(|fields|, i requires 0 <= i < |fields| => PrintField(fields[i]))
  }

  function PrintSort(fields: seq<SortField>): string {
    Join(PrintFields(fields), ',')
  }

  ghost predicate WellFormedSort(fields: seq<SortField>) {
    fields != [] && forall i :: 0 <= i < |fields| ==> ValidMemberPath(fields[i].name)
  }

  /** One item of a sort expression. */
  function ReadField(item: string): Option<SortField> {
    var descending := item != "" && item[0] == '-';
    var name := if descending then item[1..] else item;
    if ValidMemberPath(name) then Some(SortField(name, descending)) else None
  }

  function ReadSort(value: string): Option<seq<SortField>> {
    if value == "" then None else Each(ReadField, Split(value, ','))
  }

  method ParseField(item: string) returns (field: Option<SortField>)
    ensures field == ReadField(item)
  {
    var descending := |item| > 0 && item[0] == '-';
    var name := if descending then item[1..] else item;
    if !ValidMemberPath(name) {
      return None;
    }
    return Some(SortField(name, descending));
  }

  /** `parseSort`. */
  method ParseSort(value: string) returns (result: Option<seq<SortField>>)
    ensures result == ReadSort(value)
  {
    if value == "" {
      return None;
    }
    var items := Split(value, ',');
    var fields: seq<SortField> := [];
    for index := 0 to |items|
      invariant |fields| == index && Reads(ReadField, items[..index], fields)
    {
      var field := ParseField(items[index]);
      if field.None? {
        EachFails(ReadField, items, index);
        return None;
      }
      ReadsExtend(ReadField, items, fields, field.value);
      fields := fields + [field.value];
    }
    assert items[..|items|] == items;
    ReadsIsEach(ReadField, items, fields);
    return Some(fields);
  }

  /** `results` is what reading the items one by one gives. */
  ghost predicate Reads<A(!new), B>(read: A -> Option<B>, items: seq<A>, results: seq<B>) {
    |items| == |results| && forall i :: 0 <= i < |items| ==> read(items[i]) == Some(results[i])
  }

  lemma ReadsExtend<A(!new), B>(read: A -> Option<B>, items: seq<A>, results: seq<B>, result: B)
    requires |results| < |items| && Reads(read, items[..|results|], results) && read(items[|results|]) == Some(result)
    ensures Reads(read, items[..|results| + 1], results + [result])
  {
    assert forall i :: 0 <= i < |results| ==> items[..|results| + 1][i] == items[..|results|][i];
  }

  lemma ReadsIsEach<A(!new), B>(read: A -> Option<B>, items: seq<A>, results: seq<B>)
    ensures Each(read, items) == Some(results) <==> Reads(read, items, results)
  {
    if Reads(read, items, results) {
      assert Each(read, items).value == results;
    }
  }

  lemma EachFails<A(!new), B>(read: A -> Option<B>, items: seq<A>, i: nat)
    requires i < |items| && read(items[i]).None?
    ensures Each(read, items).None?
  {
  }

  lemma FieldsArePrinted(item: string, field: SortField)
    ensures ReadField(item) == Some(field) <==> ValidMemberPath(field.name) && PrintField(field) == item
  {
    if ValidMemberPath(field.name) && PrintField(field) == item {
      PathCharacters(field.name);
      if field.descending {
        assert item[1..] == field.name;
      } else {
        assert item == field.name;
      }
    }
  }

  /** A field sorts downwards exactly when a minus sign stands before its path. */
  lemma SortItemsOnText(item: string, name: string, descending: bool)
    ensures ReadField(item) == Some(SortField(name, descending)) <==>
      ValidMemberPath(name) && item == if descending then "-" + name else name
  {
    hide ValidMemberPath;
    FieldsArePrinted(item, SortField(name, descending));
  }

  lemma PrintedFieldHasNoComma(field: SortField)
    requires ValidMemberPath(field.name)
    ensures ',' !in PrintField(field) && PrintField(field) != ""
  {
    PathCharacters(field.name);
  }

  /** A sort expression is accepted exactly when it prints some sort fields, which parsing returns. */
  lemma SortsArePrinted(value: string, fields: seq<SortField>)
    ensures ReadSort(value) == Some(fields) <==> WellFormedSort(fields) && PrintSort(fields) == value
  {
    if ReadSort(value) == Some(fields) {
      ReadsIsEach(ReadField, Split(value, ','), fields);
      ReadFieldsPrintBack(Split(value, ','), fields);
    }
    if WellFormedSort(fields) && PrintSort(fields) == value {
      PrintedFieldsReadBack(fields);
      SplitOfJoin(PrintFields(fields), ',');
      JoinIsNotEmpty(PrintFields(fields), ',');
      ReadsIsEach(ReadField, PrintFields(fields), fields);
    }
  }

  lemma ReadFieldsPrintBack(items: seq<string>, fields: seq<SortField>)
    requires Reads(ReadField, items, fields)
    ensures PrintFields(fields) == items
    ensures forall i :: 0 <= i < |fields| ==> ValidMemberPath(fields[i].name)
  {
    forall i | 0 <= i < |items| ensures ValidMemberPath(fields[i].name) && PrintField(fields[i]) == items[i] {
      FieldsArePrinted(items[i], fields[i]);
    }
  }

  lemma PrintedFieldsReadBack(fields: seq<SortField>)
    requires WellFormedSort(fields)
    ensures Reads(ReadField, PrintFields(fields), fields)
    ensures forall i :: 0 <= i < |fields| ==> ',' !in PrintFields(fields)[i] && PrintFields(fields)[i] != ""
  {
    var items := PrintFields(fields);
    forall i | 0 <= i < |items| ensures ',' !in items[i] && items[i] != "" && ReadField(items[i]) == Some(fields[i]) {
      PrintedFieldHasNoComma(fields[i]);
      FieldsArePrinted(items[i], fields[i]);
    }
  }

  lemma JoinIsNotEmpty(parts: seq<string>, separator: char)
    requires parts != [] && parts[0] != ""
    ensures Join(parts, separator) != ""
  {
  }

  // Include paths and fieldsets.

  /** The list read by `parseInclude` and `parseFields`; an empty value is an empty list. */
  function ReadList(value: string, valid: string -> bool): Option<seq<string>> {
    if value == "" then Some([])
    else if forall i | 0 <= i < |Split(value, ',')| :: valid(Split(value, ',')[i]) then Some(Split(value, ','))
    else None
  }

  method ParseList(value: string, valid: string -> bool) returns (result: Option<seq<string>>)
    ensures result == ReadList(value, valid)
  {
    if value == "" {
      return Some([]);
    }
    var items := Split(value, ',');
    for i := 0 to |items|
      invariant forall j :: 0 <= j < i ==> valid(items[j])
    {
      if !valid(items[i]) {
        return None;
      }
    }
    return Some(items);
  }

  /** A list is accepted exactly when it joins valid items, which parsing returns. */
  lemma ListsArePrinted(value: string, valid: string -> bool, items: seq<string>)
    requires forall item :: valid(item) ==> item != "" && ',' !in item
    ensures ReadList(value, valid) == Some(items) <==>
      (forall i :: 0 <= i < |items| ==> valid(items[i])) && Join(items, ',') == value
  {
    if (forall i :: 0 <= i < |items| ==> valid(items[i])) && Join(items, ',') == value && items != [] {
      SplitOfJoin(items, ',');
      JoinIsNotEmpty(items, ',');
    }
  }

  lemma ItemsHaveNoComma(item: string)
    ensures ValidMemberPath(item) || ValidImplementationMemberName(item) ==> item != "" && ',' !in item
  {
    if ValidMemberPath(item) {
      PathCharacters(item);
    }
    if ValidImplementationMemberName(item) {
      NameCharacters(item);
    }
    assert !AllowedInside(',');
  }

  /** `parseInclude`: a value is accepted exactly when it joins member paths, which parsing returns. */
  lemma IncludesArePrinted(value: string, paths: seq<string>)
    ensures ReadList(value, ValidMemberPath) == Some(paths) <==>
      (forall i :: 0 <= i < |paths| ==> ValidMemberPath(paths[i])) && Join(paths, ',') == value
  {
    hide ReadList, ValidMemberPath;
    forall item | ValidMemberPath(item) ensures item != "" && ',' !in item {
      ItemsHaveNoComma(item);
    }
    ListsArePrinted(value, ValidMemberPath, paths);
  }

  /** `parseFields`: the same for field names. */
  lemma FieldsetsArePrinted(value: string, names: seq<string>)
    ensures ReadList(value, ValidImplementationMemberName) == Some(names) <==>
      (forall i :: 0 <= i < |names| ==> ValidImplementationMemberName(names[i])) && Join(names, ',') == value
  {
    hide ReadList, ValidImplementationMemberName;
    forall item | ValidImplementationMemberName(item) ensures item != "" && ',' !in item {
      ItemsHaveNoComma(item);
    }
    ListsArePrinted(value, ValidImplementationMemberName, names);
  }
}
