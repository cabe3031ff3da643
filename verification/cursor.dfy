/**
  Cursor pagination: admission by remaining budgets, and the page family.
 */
module CursorPagination {
  import opened Documents
  import opened Text
  import opened MemberNames
  import opened QueryLimits
  import opened QueryGrammar
  import QueryParsing

  // Admission.

  /** The limits on a page family together with the sort expression it comes with, stated on sums. */
  ghost predicate Admissible(family: Family, fields: seq<SortField>) {
    && |fields| <= DEFAULT_LIMITS.maxListItems
    && WithinLimits(family, DEFAULT_LIMITS)
    && (fields != [] ==>
          && |family| + 1 <= DEFAULT_LIMITS.maxParameters
          && TotalValues(family) + 1 <= DEFAULT_LIMITS.maxValues
          && |PrintSort(fields)| <= DEFAULT_LIMITS.maxValueBytes
          && TotalBytes(family) + |"sort"| + |PrintSort(fields)| <= DEFAULT_LIMITS.maxTotalBytes)
  }

  /** `admit`: budgets are only ever reduced by what they can cover, so none becomes negative. */
  method Admit(family: Family, fields: seq<SortField>) returns (admitted: bool)
    ensures admitted <==> Admissible(family, fields)
  {
    hide ShortValues;
    var limits := DEFAULT_LIMITS;
    if |family| > limits.maxParameters || |fields| > limits.maxListItems {
      return false;
    }
    var covered, bytesRemaining, valuesRemaining := ChargeFamily(family);
    if !covered {
      return false;
    }
    if |fields| == 0 {
      return true;
    }
    if |family| == limits.maxParameters || valuesRemaining == 0 || bytesRemaining < |"sort"| {
      return false;
    }
    admitted := ChargeSort(fields, bytesRemaining - |"sort"|);
  }

  /** The loop over the family. */
  method ChargeFamily(family: Family) returns (covered: bool, bytesRemaining: nat, valuesRemaining: nat)
    ensures covered <==>
      && ShortParts(family, DEFAULT_LIMITS)
      && TotalBytes(family) <= DEFAULT_LIMITS.maxTotalBytes && TotalValues(family) <= DEFAULT_LIMITS.maxValues
    ensures covered ==>
      && bytesRemaining == DEFAULT_LIMITS.maxTotalBytes - TotalBytes(family)
      && valuesRemaining == DEFAULT_LIMITS.maxValues - TotalValues(family)
  {
    hide ShortValues, Sum, Bytes;
    SumOfNothing(ByteWeight(family));
    SumOfNothing(ValueWeight(family));
    bytesRemaining, valuesRemaining := DEFAULT_LIMITS.maxTotalBytes, DEFAULT_LIMITS.maxValues;
    var pending := family.Keys;
    while pending != {}
      invariant pending <= family.Keys
      invariant DEFAULT_LIMITS.maxTotalBytes - bytesRemaining + Sum(ByteWeight(family), pending) == TotalBytes(family)
      invariant DEFAULT_LIMITS.maxValues - valuesRemaining + Sum(ValueWeight(family), pending) == TotalValues(family)
      invariant forall name :: name in family && name !in pending ==>
        |name| <= DEFAULT_LIMITS.maxNameBytes && ShortValues(family[name], DEFAULT_LIMITS)
      decreases pending
    {
      var name :| name in pending;
      var values := family[name];
      SumWithout(ByteWeight(family), pending, name);
      SumWithout(ValueWeight(family), pending, name);
      if |name| > DEFAULT_LIMITS.maxNameBytes || |name| > bytesRemaining || |values| > valuesRemaining {
        return false, bytesRemaining, valuesRemaining;
      }
      bytesRemaining := bytesRemaining - |name|;
      valuesRemaining := valuesRemaining - |values|;
      var charged;
      charged, bytesRemaining := ChargeValues(values, bytesRemaining);
      if !charged {
        return false, bytesRemaining, valuesRemaining;
      }
      pending := pending - {name};
    }
    covered := true;
  }

  method ChargeValues(values: seq<string>, budget: nat) returns (charged: bool, remaining: nat)
    ensures charged <==> ShortValues(values, DEFAULT_LIMITS) && Bytes(values) <= budget
    ensures charged ==> remaining == budget - Bytes(values)
  {
    remaining := budget;
    for i := 0 to |values|
      invariant ShortValues(values[..i], DEFAULT_LIMITS)
      invariant remaining == budget - Bytes(values[..i])
    {
      assert values[..i + 1][..i] == values[..i];
      BytesOfPrefix(values, i + 1);
      if |values[i]| > DEFAULT_LIMITS.maxValueBytes || |values[i]| > remaining {
        return false, remaining;
      }
      remaining := remaining - |values[i]|;
    }
    assert values[..|values|] == values;
    charged := true;
  }

  function FieldLength(field: SortField): nat {
    (if field.descending then 1 else 0) + |field.name|
  }

  /** What each field costs in the encoded form: a comma before all but the first, a minus sign, the name. */
  function SortLength(fields: seq<SortField>): nat {
    if fields == [] then 0
    else
      SortLength(fields[..|fields| - 1]) + (if |fields| > 1 then 1 else 0) + FieldLength(fields[|fields| - 1])
  }

  lemma {:induction false} JoinAppends(parts: seq<string>, part: string, separator: char)
    ensures Join(parts + [part], separator) == if parts == [] then part else Join(parts, separator) + [separator] + part
  {
    if |parts| == 1 {
      assert (parts + [part])[1..] == [part];
      assert Join(parts + [part], separator) == parts[0] + [separator] + Join([part], separator);
    } else if |parts| > 1 {
      assert (parts + [part])[1..] == parts[1..] + [part];
      JoinAppends(parts[1..], part, separator);
      assert Join(parts + [part], separator) == parts[0] + [separator] + Join(parts[1..] + [part], separator);
      assert parts[0] + [separator] + (Join(parts[1..], separator) + [separator] + part)
        == parts[0] + [separator] + Join(parts[1..], separator) + [separator] + part;
    }
  }

  /** The charge is the length of the sort value that is never built. */
  lemma {:induction false} SortLengthIsPrintedLength(fields: seq<SortField>)
    ensures SortLength(fields) == |PrintSort(fields)|
  {
    if fields != [] {
      var front, last := fields[..|fields| - 1], fields[|fields| - 1];
      SortLengthIsPrintedLength(front);
      assert PrintFields(fields) == PrintFields(front) + [PrintField(last)];
      JoinAppends(PrintFields(front), PrintField(last), ',');
    }
  }

  lemma {:induction false} SortLengthOfPrefix(fields: seq<SortField>, count: nat)
    requires count <= |fields|
    ensures SortLength(fields[..count]) <= SortLength(fields)
  {
    if count < |fields| {
      assert fields[..|fields| - 1][..count] == fields[..count];
      SortLengthOfPrefix(fields[..|fields| - 1], count);
    } else {
      assert fields[..count] == fields;
    }
  }

  /** The loop over the sort fields. */
  method ChargeSort(fields: seq<SortField>, budget: nat) returns (covered: bool)
    ensures covered <==> |PrintSort(fields)| <= DEFAULT_LIMITS.maxValueBytes && |PrintSort(fields)| <= budget
  {
    SortLengthIsPrintedLength(fields);
    var sortRemaining, bytesRemaining := DEFAULT_LIMITS.maxValueBytes, budget;
    for index := 0 to |fields|
      invariant 0 <= sortRemaining == DEFAULT_LIMITS.maxValueBytes - SortLength(fields[..index])
      invariant 0 <= bytesRemaining == budget - SortLength(fields[..index])
    {
      var field := fields[index];
      assert fields[..index + 1][..index] == fields[..index];
      SortLengthOfPrefix(fields, index + 1);
      var prefix := 0;
      if index > 0 {
        prefix := prefix + 1;
      }
      if field.descending {
        prefix := prefix + 1;
      }
      if prefix > sortRemaining || prefix > bytesRemaining {
        return false;
      }
      sortRemaining := sortRemaining - prefix;
      bytesRemaining := bytesRemaining - prefix;
      if |field.name| > sortRemaining || |field.name| > bytesRemaining {
        return false;
      }
      sortRemaining := sortRemaining - |field.name|;
      bytesRemaining := bytesRemaining - |field.name|;
    }
    assert fields[..|fields|] == fields;
    return true;
  }

  /** The query in which the sort fields appear as an encoded parameter. */
  function Encoded(family: Family, fields: seq<SortField>): Family {
    if fields == [] then family else family["sort" := [PrintSort(fields)]]
  }

  /** Admission is the parser's limit check on the equivalent encoded query. */
  lemma AdmissionIsTheParsersCheck(family: Family, fields: seq<SortField>)
    requires "sort" !in family
    ensures Admissible(family, fields) <==>
      |fields| <= DEFAULT_LIMITS.maxListItems && WithinLimits(Encoded(family, fields), DEFAULT_LIMITS)
  {
    hide ShortParts, TotalBytes, TotalValues, Bytes, PrintSort;
    if fields != [] {
      var encoded := Encoded(family, fields);
      TotalsOfExtension(encoded, family, "sort");
      OneValue(PrintSort(fields));
      ShortExtension(encoded, family, PrintSort(fields));
    }
  }

  lemma OneValue(value: string)
    ensures Bytes([value]) == |value|
  {
    assert Bytes([value][..0]) == 0;
  }

  lemma ShortExtension(encoded: Family, family: Family, value: string)
    requires Extends(encoded, family, "sort") && encoded["sort"] == [value]
    ensures ShortParts(encoded, DEFAULT_LIMITS) <==>
      ShortParts(family, DEFAULT_LIMITS) && |value| <= DEFAULT_LIMITS.maxValueBytes
  {
    if ShortParts(encoded, DEFAULT_LIMITS) {
      assert ShortValues(encoded["sort"], DEFAULT_LIMITS);
      assert [value][0] == value;
      forall name | name in family
        ensures |name| <= DEFAULT_LIMITS.maxNameBytes && ShortValues(family[name], DEFAULT_LIMITS)
      {
        assert name in encoded;
      }
    }
  }

  /** The sort fields of a query; an absent sort is a nil slice. */
  function SortOf(query: QueryParsing.Query): seq<SortField> {
    if query.sort.Some? then query.sort.value else []
  }

  /** What the parser accepts under default limits, pagination never refuses for its size. */
  lemma ParsedQueriesAreAdmitted(parser: QueryParsing.Parser, values: Family, query: QueryParsing.Query)
    requires parser.limits == DEFAULT_LIMITS
    requires QueryParsing.Answers(QueryParsing.Parsed(query), parser, values)
    ensures Admissible(query.page, SortOf(query))
  {
    hide WithinLimits, Admissible, PrintSort, WellFormedSort, QueryParsing.ReadParameter, QueryParsing.Collects;
    QueryParsing.ParsedSortAndPage(parser, values, query);
    AdmissionIsTheParsersCheck(query.page, SortOf(query));
    LimitsOfSubmap(Encoded(query.page, SortOf(query)), values, DEFAULT_LIMITS);
  }

  // The page family.

  /** The endpoint policy; an absent validator accepts everything. */
  datatype Pagination = Pagination(
    defaultSize: int,
    maxSize: int,
    allowRange: bool,
    pageMember: string,
    validateCursor: Option<string -> bool>,
    validateSort: Option<seq<SortField> -> bool>)
  {
    /** What `NewCursorPagination` enforces. */
    predicate Valid() {
      1 <= defaultSize <= maxSize
    }

    predicate AcceptsCursor(cursor: string) {
      validateCursor.Some? ==> validateCursor.value(cursor)
    }

    predicate AcceptsSort(fields: seq<SortField>) {
      validateSort.Some? ==> validateSort.value(fields)
    }
  }

  datatype PageRequest = PageRequest(size: int, sizePresent: bool, after: Field, before: Field, pageMember: string) {
    predicate IsRange() {
      after.present && before.present
    }
  }

  datatype Code =
    | LimitExceeded
    | UnknownParameter
    | MultipleValues
    | InvalidParameter
    | MaxSizeExceeded
    | RangeNotSupported
    | UnsupportedSort

  datatype PageResult = Request(request: PageRequest) | Failure(parameter: string, code: Code, maxSize: int)

  const SIZE := "page[size]"
  const AFTER := "page[after]"
  const BEFORE := "page[before]"

  predicate Known(name: string) {
    name == SIZE || name == AFTER || name == BEFORE
  }

  /** `strconv.Atoi` on a 64-bit platform. */
  const MAX_INT: nat := 0x7fff_ffff_ffff_ffff

  function DecimalValue(digits: string): nat {
    if digits == "" then 0 else DecimalValue(digits[..|digits| - 1]) * 10 + DigitValue(digits[|digits| - 1])
  }

  function DigitValue(c: char): nat {
    if Digit(c) then c as int - '0' as int else 0
  }

  /** `positiveDecimal`. */
  function PositiveDecimal(value: string): Option<nat> {
    if value == "" || exists i | 0 <= i < |value| :: !Digit(value[i]) then None
    else if DecimalValue(value) > MAX_INT || DecimalValue(value) < 1 then None
    else Some(DecimalValue(value))
  }

  /** The page size a family asks for, or why it is refused. */
  function ReadSize(pagination: Pagination, family: Family): (result: Option<Code>) {
    if SIZE !in family then None
    else if |family[SIZE]| != 1 then Some(MultipleValues)
    else if PositiveDecimal(family[SIZE][0]).None? then Some(InvalidParameter)
    else if PositiveDecimal(family[SIZE][0]).value > pagination.maxSize then Some(MaxSizeExceeded)
    else None
  }

  function ReadCursor(pagination: Pagination, family: Family, name: string): (result: Option<Code>) {
    if name !in family then None
    else if |family[name]| != 1 then Some(MultipleValues)
    else if !pagination.AcceptsCursor(family[name][0]) then Some(InvalidParameter)
    else None
  }

  predicate HasRange(family: Family) {
    AFTER in family && BEFORE in family
  }

  /** A family that is neither too large, nor has unknown names, nor has a refused value. */
  ghost predicate Acceptable(pagination: Pagination, family: Family) {
    && Admissible(family, [])
    && (forall name :: name in family ==> Known(name))
    && ReadSize(pagination, family).None?
    && ReadCursor(pagination, family, AFTER).None?
    && ReadCursor(pagination, family, BEFORE).None?
    && (HasRange(family) ==> pagination.allowRange)
  }

  /** The cursor under a name, present exactly when the name is. */
  ghost predicate IsCursor(cursor: Field, family: Family, name: string) {
    if name in family then family[name] == [cursor.value] && cursor.present else cursor == ABSENT_FIELD
  }

  /** The request that an acceptable family stands for. */
  ghost predicate Describes(request: PageRequest, pagination: Pagination, family: Family) {
    && request.sizePresent == (SIZE in family)
    && (SIZE in family ==> |family[SIZE]| == 1 && PositiveDecimal(family[SIZE][0]) == Some(request.size))
    && (SIZE !in family ==> request.size == if HasRange(family) then pagination.maxSize else pagination.defaultSize)
    && IsCursor(request.after, family, AFTER)
    && IsCursor(request.before, family, BEFORE)
    && request.pageMember == pagination.pageMember
  }

  /** Why a family is refused: the first of the checks that fails, and the parameter it is about. */
  ghost predicate Explains(failure: PageResult, pagination: Pagination, family: Family)
    requires failure.Failure?
  {
    var parameter, code := failure.parameter, failure.code;
    && (failure.maxSize == if code == MaxSizeExceeded then pagination.maxSize else 0)
    && (code == LimitExceeded <==> !Admissible(family, []))
    && (code == LimitExceeded ==> parameter == "")
    && (code != LimitExceeded ==>
          (code == UnknownParameter <==> exists name :: name in family && !Known(name)))
    && (code == UnknownParameter ==>
          && parameter in family && !Known(parameter)
          && forall name :: name in family && !Known(name) ==> name == parameter || Before(parameter, name))
    && (code != LimitExceeded && code != UnknownParameter ==>
          if ReadSize(pagination, family).Some? then parameter == SIZE && ReadSize(pagination, family) == Some(code)
          else if ReadCursor(pagination, family, AFTER).Some? then
            parameter == AFTER && ReadCursor(pagination, family, AFTER) == Some(code)
          else if ReadCursor(pagination, family, BEFORE).Some? then
            parameter == BEFORE && ReadCursor(pagination, family, BEFORE) == Some(code)
          else parameter == BEFORE && code == RangeNotSupported && HasRange(family) && !pagination.allowRange)
  }

  ghost predicate Answers(result: PageResult, pagination: Pagination, family: Family) {
    match result
    case Request(request) => Acceptable(pagination, family) && Describes(request, pagination, family)
    case Failure(_, _, _) => !Acceptable(pagination, family) && Explains(result, pagination, family)
  }

  /** `CursorPagination.Parse`. */
  method Parse(pagination: Pagination, family: Family) returns (result: PageResult)
    ensures Answers(result, pagination, family)
  {
    hide Admissible, PositiveDecimal;
    var admitted := Admit(family, []);
    if !admitted {
      return Failure("", LimitExceeded, 0);
    }
    var unknown := FirstUnknown(family);
    if unknown.Some? {
      return Failure(unknown.value, UnknownParameter, 0);
    }
    var request := PageRequest(pagination.defaultSize, false, ABSENT_FIELD, ABSENT_FIELD, pagination.pageMember);
    if SIZE in family {
      var values := family[SIZE];
      if |values| != 1 {
        return Failure(SIZE, MultipleValues, 0);
      }
      var size := PositiveDecimal(values[0]);
      if size.None? {
        return Failure(SIZE, InvalidParameter, 0);
      }
      if size.value > pagination.maxSize {
        return Failure(SIZE, MaxSizeExceeded, pagination.maxSize);
      }
      request := request.(size := size.value, sizePresent := true);
    }
    var after, afterCode := ParseCursor(pagination, family, AFTER);
    if afterCode.Some? {
      return Failure(AFTER, afterCode.value, 0);
    }
    var before, beforeCode := ParseCursor(pagination, family, BEFORE);
    if beforeCode.Some? {
      return Failure(BEFORE, beforeCode.value, 0);
    }
    request := request.(after := after, before := before);
    if request.IsRange() && !pagination.allowRange {
      return Failure(BEFORE, RangeNotSupported, 0);
    }
    if request.IsRange() && !request.sizePresent {
      request := request.(size := pagination.maxSize);
    }
    return Request(request);
  }

  /** The first name, in byte order, that the profile does not define. */
  method FirstUnknown(family: Family) returns (unknown: Option<string>)
    ensures unknown.None? ==> forall name :: name in family ==> Known(name)
    ensures unknown.Some? ==>
      && unknown.value in family && !Known(unknown.value)
      && forall name :: name in family && !Known(name) ==> name == unknown.value || Before(unknown.value, name)
  {
    var names := SortNames(family.Keys);
    for i := 0 to |names|
      invariant forall j :: 0 <= j < i ==> Known(names[j])
    {
      assert names[i] in Elements(names);
      if !Known(names[i]) {
        forall name | name in family && !Known(name) ensures name == names[i] || Before(names[i], name) {
          assert name in Elements(names);
        }
        return Some(names[i]);
      }
    }
    forall name | name in family ensures Known(name) {
      assert name in Elements(names);
    }
    return None;
  }

  /** One round of the loop over the two cursor parameters. */
  method ParseCursor(pagination: Pagination, family: Family, name: string)
    returns (cursor: Field, code: Option<Code>)
    ensures code == ReadCursor(pagination, family, name)
    ensures code.None? ==> IsCursor(cursor, family, name)
  {
    if name !in family {
      return ABSENT_FIELD, None;
    }
    var values := family[name];
    if |values| != 1 {
      return ABSENT_FIELD, Some(MultipleValues);
    }
    if !pagination.AcceptsCursor(values[0]) {
      return ABSENT_FIELD, Some(InvalidParameter);
    }
    return Field(values[0], true), None;
  }

  /** `CursorPagination.ParseQuery`: admission of page and sort together, the page family, then the sort policy. */
  method ParseQuery(pagination: Pagination, query: QueryParsing.Query) returns (result: PageResult)
    ensures !Admissible(query.page, SortOf(query)) ==> result == Failure("", LimitExceeded, 0)
    ensures Admissible(query.page, SortOf(query)) ==>
      if Acceptable(pagination, query.page) && !pagination.AcceptsSort(SortOf(query))
      then result == Failure("sort", UnsupportedSort, 0)
      else Answers(result, pagination, query.page)
  {
    hide Admissible, Explains, Describes, Acceptable;
    var admitted := Admit(query.page, SortOf(query));
    if !admitted {
      return Failure("", LimitExceeded, 0);
    }
    result := Parse(pagination, query.page);
    if result.Request? && !pagination.AcceptsSort(SortOf(query)) {
      result := Failure("sort", UnsupportedSort, 0);
    }
  }

  /** A configured endpoint never admits a page size outside its bounds, nor a range it does not support. */
  lemma RequestsRespectPolicy(pagination: Pagination, family: Family, request: PageRequest)
    requires pagination.Valid() && Answers(Request(request), pagination, family)
    ensures 1 <= request.size <= pagination.maxSize
    ensures request.IsRange() <==> HasRange(family)
    ensures request.IsRange() ==> pagination.allowRange
  {
    hide Admissible, DecimalValue;
  }

  /**
    What the query parser accepts under default limits is never refused here for its size, neither
    for the page family alone nor together with the sort expression.
   */
  method ParseThenPaginate(parser: QueryParsing.Parser, pagination: Pagination, values: Family)
    returns (parsed: QueryParsing.Result, result: Option<PageResult>)
    requires parser.limits == DEFAULT_LIMITS
    ensures QueryParsing.Answers(parsed, parser, values)
    ensures parsed.Parsed? <==> result.Some?
    ensures result.Some? ==> !(result.value.Failure? && result.value.code == LimitExceeded)
  {
    hide QueryParsing.Answers, Describes, Acceptable;
    parsed := QueryParsing.Parse(parser, values);
    if !parsed.Parsed? {
      return parsed, None;
    }
    ParsedQueriesAreAdmitted(parser, values, parsed.query);
    assert Admissible(parsed.query.page, []);
    var page := ParseQuery(pagination, parsed.query);
    result := Some(page);
  }

  // Page sizes as they are written.

  /** Decimal digits for the number, after any number of zeros. */
  ghost predicate Writes(text: string, number: nat) {
    exists zeros :: text == Repeated('0', zeros) + Decimal(number)
  }

  predicate AreDigits(text: string) {
    forall i | 0 <= i < |text| :: text[i] in "0123456789"
  }

  lemma DigitsOnText(text: string)
    ensures AreDigits(text) <==> forall i :: 0 <= i < |text| ==> Digit(text[i])
  {
    assert forall c :: c in "0123456789" <==> Digit(c);
  }

  lemma {:induction false} DecimalHasItsValue(number: nat)
    ensures DecimalValue(Decimal(number)) == number && AreDigits(Decimal(number)) && Decimal(number) != ""
  {
    var digit := ['0' + (number % 10) as char];
    assert DecimalValue(digit) == number % 10 by {
      assert digit[..0] == "" && DecimalValue("") == 0;
    }
    assert AreDigits(digit);
    if number >= 10 {
      DecimalHasItsValue(number / 10);
      var front := Decimal(number / 10);
      assert (front + digit)[..|front|] == front;
    }
  }

  lemma {:induction false} LeadingZeros(zeros: nat, text: string)
    ensures DecimalValue(Repeated('0', zeros) + text) == DecimalValue(text)
    ensures AreDigits(Repeated('0', zeros) + text) <==> AreDigits(text)
    decreases |text|, zeros
  {
    var padded := Repeated('0', zeros) + text;
    assert AreDigits(padded) <==> AreDigits(text) by {
      assert forall i :: 0 <= i < |text| ==> padded[zeros + i] == text[i];
      assert forall i :: 0 <= i < zeros ==> padded[i] == '0';
    }
    if text != "" {
      var front := text[..|text| - 1];
      LeadingZeros(zeros, front);
      assert padded[..|padded| - 1] == Repeated('0', zeros) + front;
    } else if zeros > 0 {
      LeadingZeros(zeros - 1, "");
      assert padded[..|padded| - 1] == Repeated('0', zeros - 1) + "";
    }
  }

  lemma LastDigit(text: string)
    requires AreDigits(text) && text != ""
    ensures var front, last := text[..|text| - 1], text[|text| - 1];
      && text == front + [last] && AreDigits(front) && 48 <= last as int <= 57
      && DecimalValue(text) == DecimalValue(front) * 10 + (last as int - 48)
  {
    assert text[|text| - 1] in "0123456789";
  }

  lemma DecimalEnds(number: nat, last: char)
    requires 48 <= last as int <= 57 && number % 10 == last as int - 48
    ensures Decimal(number) == if number < 10 then [last] else Decimal(number / 10) + [last]
  {
    assert '0' + (number % 10) as char == last;
  }

  lemma {:induction false} ValueIsWritten(text: string)
    requires AreDigits(text) && DecimalValue(text) > 0
    ensures Writes(text, DecimalValue(text))
  {
    hide DecimalValue, Decimal, AreDigits, Repeated;
    NothingIsZero();
    var front, last := text[..|text| - 1], text[|text| - 1];
    var number := DecimalValue(text);
    LastDigit(text);
    DecimalEnds(number, last);
    if DecimalValue(front) == 0 {
      ZeroIsZeros(front);
      assert text == Repeated('0', |front|) + Decimal(number);
    } else {
      ValueIsWritten(front);
      var zeros :| front == Repeated('0', zeros) + Decimal(number / 10);
      assert text == Repeated('0', zeros) + (Decimal(number / 10) + [last]);
    }
  }

  lemma NothingIsZero()
    ensures DecimalValue("") == 0
  {
  }

  lemma {:induction false} ZeroIsZeros(text: string)
    requires AreDigits(text) && DecimalValue(text) == 0
    ensures text == Repeated('0', |text|)
  {
    if text != "" {
      var last := text[|text| - 1];
      ZeroIsZeros(text[..|text| - 1]);
      assert last in "0123456789" && DigitValue(last) == 0;
      assert text == text[..|text| - 1] + [last];
    }
  }

  /** A page size is read exactly from the texts that write it, leading zeros included. */
  lemma DecimalsAreWritten(text: string, number: nat)
    ensures PositiveDecimal(text) == Some(number) <==>
      1 <= number <= 0x7fff_ffff_ffff_ffff && Writes(text, number)
  {
    hide DecimalValue, Decimal, Repeated;
    DigitsOnText(text);
    if PositiveDecimal(text) == Some(number) {
      ValueIsWritten(text);
    }
    if Writes(text, number) {
      var zeros :| text == Repeated('0', zeros) + Decimal(number);
      DecimalHasItsValue(number);
      LeadingZeros(zeros, Decimal(number));
      assert text != "" by {
        assert |text| >= |Decimal(number)|;
      }
    }
  }

  // The page family by its parameter names.

  /** One value that writes a size from one to the maximum, or none. */
  ghost predicate SizeIsFine(pagination: Pagination, family: Family) {
    "page[size]" in family ==>
      && |family["page[size]"]| == 1
      && exists size: nat ::
           1 <= size <= 0x7fff_ffff_ffff_ffff && size <= pagination.maxSize && Writes(family["page[size]"][0], size)
  }

  /** One value that the validator of the endpoint accepts, or none. */
  ghost predicate CursorIsFine(pagination: Pagination, family: Family, name: string) {
    name in family ==>
      |family[name]| == 1 && (pagination.validateCursor.Some? ==> pagination.validateCursor.value(family[name][0]))
  }

  lemma SizeOnNames(pagination: Pagination, family: Family)
    ensures ReadSize(pagination, family).None? <==> SizeIsFine(pagination, family)
  {
    hide PositiveDecimal, Writes;
    if SIZE in family && |family[SIZE]| == 1 {
      var text := family[SIZE][0];
      forall number: nat ensures PositiveDecimal(text) == Some(number) <==>
          1 <= number <= 0x7fff_ffff_ffff_ffff && Writes(text, number)
      {
        DecimalsAreWritten(text, number);
      }
    }
  }

  /** The request that an accepted page family makes, parameter by parameter. */
  lemma RequestsOnNames(pagination: Pagination, family: Family, request: PageRequest)
    requires Answers(Request(request), pagination, family)
    ensures forall name :: name in family ==> name in {"page[size]", "page[after]", "page[before]"}
    ensures SizeIsFine(pagination, family)
    ensures CursorIsFine(pagination, family, "page[after]") && CursorIsFine(pagination, family, "page[before]")
    ensures "page[after]" in family && "page[before]" in family ==> pagination.allowRange
    ensures request.sizePresent <==> "page[size]" in family
    ensures "page[size]" in family ==> request.size >= 0 && Writes(family["page[size]"][0], request.size)
    ensures "page[size]" !in family ==>
      request.size == if "page[after]" in family && "page[before]" in family then pagination.maxSize
                      else pagination.defaultSize
    ensures request.after == if "page[after]" in family then Field(family["page[after]"][0], true) else Field("", false)
    ensures request.before == if "page[before]" in family then Field(family["page[before]"][0], true) else Field("", false)
    ensures request.pageMember == pagination.pageMember
  {
    hide Admissible, PositiveDecimal, Writes, SizeIsFine;
    SizeOnNames(pagination, family);
    if "page[size]" in family {
      DecimalsAreWritten(family["page[size]"][0], request.size);
    }
  }

  /** Why a page family is refused, by parameter and in the order of the checks. */
  lemma FailuresOnNames(pagination: Pagination, family: Family, parameter: string, code: Code, maxSize: int)
    requires Answers(Failure(parameter, code, maxSize), pagination, family)
    ensures maxSize == if code == MaxSizeExceeded then pagination.maxSize else 0
    ensures code == LimitExceeded ==> parameter == ""
    ensures code == UnknownParameter ==>
      && parameter in family && parameter !in {"page[size]", "page[after]", "page[before]"}
      && forall name :: name in family && Before(name, parameter) ==>
           name in {"page[size]", "page[after]", "page[before]"}
    ensures code != LimitExceeded && code != UnknownParameter ==>
      && (forall name :: name in family ==> name in {"page[size]", "page[after]", "page[before]"})
      && match parameter
         case "page[size]" => !SizeIsFine(pagination, family)
         case "page[after]" =>
           SizeIsFine(pagination, family) && !CursorIsFine(pagination, family, "page[after]")
         case "page[before]" =>
           && SizeIsFine(pagination, family) && CursorIsFine(pagination, family, "page[after]")
           && (if code == RangeNotSupported
               then CursorIsFine(pagination, family, "page[before]")
                    && "page[after]" in family && "page[before]" in family && !pagination.allowRange
               else !CursorIsFine(pagination, family, "page[before]"))
         case _ => false
    ensures code == MultipleValues ==> parameter in family && |family[parameter]| != 1
    ensures code == MaxSizeExceeded ==>
      && parameter == "page[size]" && "page[size]" in family && |family["page[size]"]| == 1
      && exists size: nat :: size > pagination.maxSize && Writes(family["page[size]"][0], size)
    ensures code == InvalidParameter ==>
      && parameter in family && |family[parameter]| == 1
      && (parameter == "page[size]" ==>
            forall size: nat :: 1 <= size <= 0x7fff_ffff_ffff_ffff ==> !Writes(family[parameter][0], size))
  {
    hide Admissible, PositiveDecimal, Writes, SizeIsFine, Before;
    SizeOnNames(pagination, family);
    forall name | Before(name, parameter) ensures name != parameter && !Before(parameter, name) {
      BeforeIsTotal(name, parameter);
    }
    if SIZE in family && |family[SIZE]| == 1 {
      forall number: nat ensures PositiveDecimal(family[SIZE][0]) == Some(number) <==>
          1 <= number <= 0x7fff_ffff_ffff_ffff && Writes(family[SIZE][0], number)
      {
        DecimalsAreWritten(family[SIZE][0], number);
      }
    }
    assert SIZE != AFTER && SIZE != BEFORE && AFTER != BEFORE by {
      assert SIZE[5] == 's' && AFTER[5] == 'a' && BEFORE[5] == 'b';
    }
  }
}
