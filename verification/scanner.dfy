/**
  The structural scan of a JSON text, token by token: four budgets and the refusal of duplicate
  member names, applied before anything is decoded. The byte budget comes before there are tokens.

  Tokenization itself is not part of the model: `Decoder` stands for `json.Decoder` over a text
  already split into tokens. JSON values keep their members in order here, so that duplicates exist.
 */
module Scanner {
  import opened Documents

  /** The values that are one token and not a string. */
  type Literal = value: Tree | value.Null? || value.Bool? || value.Number? witness Null

  datatype Token =
    | Scalar(value: Literal)
    | Text(s: string)
    | ObjectOpen
    | ObjectClose
    | ArrayOpen
    | ArrayClose
  {
    predicate IsClose() {
      ObjectClose? || ArrayClose?
    }
  }

  datatype Node =
    | Leaf(value: Literal)
    | Str(s: string)
    | List(items: seq<Node>)
    | Record(members: seq<Member>)

  datatype Member = Member(name: string, value: Node)

  datatype Limits = Limits(
    maxNestingDepth: nat,
    maxObjectMembers: nat,
    maxArrayItems: nat,
    maxTotalValues: nat)

  /** `DefaultMaxNestingDepth` and the limits beside it. */
  const DEFAULT_LIMITS := Limits(64, 10000, 100000, 1000000)

  datatype Code = Syntax | Limit | DuplicateMember

  datatype Outcome = Accepted(rest: seq<Token>, values: nat) | Refused(code: Code)

  // The tokens of a JSON value (RFC 8259, section 4).

  function Tokens(node: Node): seq<Token> {
    match node
    case Leaf(value) => [Scalar(value)]
    case Str(s) => [Text(s)]
    case List(items) => [ArrayOpen] + ItemTokens(items) + [ArrayClose]
    case Record(members) => [ObjectOpen] + MemberTokens(members) + [ObjectClose]
  }

  function ItemTokens(items: seq<Node>): seq<Token> {
    if items == [] then [] else Tokens(items[0]) + ItemTokens(items[1..])
  }

  function MemberTokens(members: seq<Member>): seq<Token> {
    if members == [] then []
    else [Text(members[0].name)] + Tokens(members[0].value) + MemberTokens(members[1..])
  }

  // What the budgets measure.

  function Count(node: Node): nat {
    match node
    case Leaf(_) => 1
    case Str(_) => 1
    case List(items) => 1 + CountItems(items)
    case Record(members) => 1 + CountMembers(members)
  }

  function CountItems(items: seq<Node>): nat {
    if items == [] then 0 else Count(items[0]) + CountItems(items[1..])
  }

  function CountMembers(members: seq<Member>): nat {
    if members == [] then 0 else Count(members[0].value) + CountMembers(members[1..])
  }

  /** No array or object is nested more than `depth` levels deep. */
  predicate Shallow(node: Node, depth: int) {
    match node
    case Leaf(_) => true
    case Str(_) => true
    case List(items) => depth >= 1 && forall i | 0 <= i < |items| :: Shallow(items[i], depth - 1)
    case Record(members) => depth >= 1 && forall i | 0 <= i < |members| :: Shallow(members[i].value, depth - 1)
  }

  predicate Narrow(node: Node, limits: Limits) {
    match node
    case Leaf(_) => true
    case Str(_) => true
    case List(items) =>
      |items| <= limits.maxArrayItems && forall i | 0 <= i < |items| :: Narrow(items[i], limits)
    case Record(members) =>
      |members| <= limits.maxObjectMembers && forall i | 0 <= i < |members| :: Narrow(members[i].value, limits)
  }

  predicate DistinctNames(members: seq<Member>) {
    forall i, j | 0 <= i < j < |members| :: members[i].name != members[j].name
  }

  /** Every object at every depth has distinct member names. */
  predicate NoDuplicates(node: Node) {
    match node
    case Leaf(_) => true
    case Str(_) => true
    case List(items) => forall i | 0 <= i < |items| :: NoDuplicates(items[i])
    case Record(members) =>
      DistinctNames(members) && forall i | 0 <= i < |members| :: NoDuplicates(members[i].value)
  }

  /** The whole admission rule, on the tree, for a value read at `depth` after `values` others. */
  predicate Admissible(node: Node, depth: nat, values: nat, limits: Limits) {
    && values + Count(node) <= limits.maxTotalValues
    && Shallow(node, limits.maxNestingDepth - depth)
    && Narrow(node, limits)
    && NoDuplicates(node)
  }

  // The scan as a function of the remaining tokens.

  function ScanValue(tokens: seq<Token>, depth: nat, values: nat, limits: Limits): (outcome: Outcome)
    ensures outcome.Accepted? ==> |outcome.rest| < |tokens|
    decreases |tokens|, 0
  {
    if tokens == [] || tokens[0].IsClose() then Refused(Syntax)
    else if values + 1 > limits.maxTotalValues then Refused(Limit)
    else if tokens[0].Scalar? || tokens[0].Text? then Accepted(tokens[1..], values + 1)
    else if depth + 1 > limits.maxNestingDepth then Refused(Limit)
    else if tokens[0].ObjectOpen? then ScanMembers(tokens[1..], depth + 1, values + 1, limits, {}, 0)
    else ScanItems(tokens[1..], depth + 1, values + 1, limits, 0)
  }

  function ScanClose(tokens: seq<Token>, close: Token, values: nat): (outcome: Outcome)
    ensures outcome.Accepted? ==> |outcome.rest| < |tokens|
  {
    if tokens != [] && tokens[0] == close then Accepted(tokens[1..], values) else Refused(Syntax)
  }

  function ScanMembers(
    tokens: seq<Token>, depth: nat, values: nat, limits: Limits, seen: set<string>, members: nat): (outcome: Outcome)
    ensures outcome.Accepted? ==> |outcome.rest| < |tokens|
    decreases |tokens|, 1
  {
    if tokens == [] || tokens[0].IsClose() then ScanClose(tokens, ObjectClose, values)
    else if !tokens[0].Text? then Refused(Syntax)
    else if members + 1 > limits.maxObjectMembers then Refused(Limit)
    else if tokens[0].s in seen then Refused(DuplicateMember)
    else
      match ScanValue(tokens[1..], depth, values, limits)
      case Refused(code) => Refused(code)
      case Accepted(rest, values) => ScanMembers(rest, depth, values, limits, seen + {tokens[0].s}, members + 1)
  }

  function ScanItems(tokens: seq<Token>, depth: nat, values: nat, limits: Limits, index: nat): (outcome: Outcome)
    ensures outcome.Accepted? ==> |outcome.rest| < |tokens|
    decreases |tokens|, 1
  {
    if tokens == [] || tokens[0].IsClose() then ScanClose(tokens, ArrayClose, values)
    else if index >= limits.maxArrayItems then Refused(Limit)
    else
      match ScanValue(tokens, depth, values, limits)
      case Refused(code) => Refused(code)
      case Accepted(rest, values) => ScanItems(rest, depth, values, limits, index + 1)
  }

  /** On the tokens of a tree the scan is the admission rule, and syntax is never the complaint. */
  ghost predicate Decides(outcome: Outcome, admissible: bool, rest: seq<Token>, values: nat) {
    if admissible then outcome == Accepted(rest, values)
    else outcome == Refused(Limit) || outcome == Refused(DuplicateMember)
  }

  lemma FirstToken(node: Node)
    ensures |Tokens(node)| > 0 && !Tokens(node)[0].IsClose()
  {
  }

  lemma {:induction false} ScanDecides(node: Node, rest: seq<Token>, depth: nat, values: nat, limits: Limits)
    requires depth <= limits.maxNestingDepth && values <= limits.maxTotalValues
    ensures Decides(ScanValue(Tokens(node) + rest, depth, values, limits),
              Admissible(node, depth, values, limits), rest, values + Count(node))
    decreases node, 0
  {
    match node
    case Leaf(value) =>
      assert (Tokens(node) + rest)[1..] == rest;
    case Str(s) =>
      assert (Tokens(node) + rest)[1..] == rest;
    case List(items) =>
      hide ScanValue, ScanItems, Tokens, Admissible, AdmissibleItems, Count;
      if values + 1 <= limits.maxTotalValues && depth + 1 <= limits.maxNestingDepth {
        ScanItemsDecides(items, rest, depth + 1, values + 1, limits, 0);
      }
      ListDecides(items, rest, depth, values, limits);
    case Record(members) =>
      hide ScanValue, ScanMembers, Tokens, Admissible, AdmissibleMembers, Count;
      if values + 1 <= limits.maxTotalValues && depth + 1 <= limits.maxNestingDepth {
        ScanMembersDecides(members, rest, depth + 1, values + 1, limits, {}, 0);
      }
      RecordDecides(members, rest, depth, values, limits);
  }

  lemma ListDecides(items: seq<Node>, rest: seq<Token>, depth: nat, values: nat, limits: Limits)
    requires values + 1 <= limits.maxTotalValues && depth + 1 <= limits.maxNestingDepth ==>
      Decides(ScanItems(ItemTokens(items) + ([ArrayClose] + rest), depth + 1, values + 1, limits, 0),
        AdmissibleItems(items, depth + 1, values + 1, limits, 0), rest, values + 1 + CountItems(items))
    ensures Decides(ScanValue(Tokens(List(items)) + rest, depth, values, limits),
              Admissible(List(items), depth, values, limits), rest, values + Count(List(items)))
  {
    hide ScanItems, ItemTokens, CountItems;
    var tokens := Tokens(List(items)) + rest;
    assert tokens[0] == ArrayOpen && tokens[1..] == ItemTokens(items) + ([ArrayClose] + rest);
  }

  lemma RecordDecides(members: seq<Member>, rest: seq<Token>, depth: nat, values: nat, limits: Limits)
    requires values + 1 <= limits.maxTotalValues && depth + 1 <= limits.maxNestingDepth ==>
      Decides(ScanMembers(MemberTokens(members) + ([ObjectClose] + rest), depth + 1, values + 1, limits, {}, 0),
        AdmissibleMembers(members, depth + 1, values + 1, limits, {}, 0), rest, values + 1 + CountMembers(members))
    ensures Decides(ScanValue(Tokens(Record(members)) + rest, depth, values, limits),
              Admissible(Record(members), depth, values, limits), rest, values + Count(Record(members)))
  {
    hide ScanMembers, MemberTokens, CountMembers;
    var tokens := Tokens(Record(members)) + rest;
    assert tokens[0] == ObjectOpen && tokens[1..] == MemberTokens(members) + ([ObjectClose] + rest);
  }

  predicate AdmissibleItems(items: seq<Node>, depth: nat, values: nat, limits: Limits, index: nat) {
    && index + |items| <= limits.maxArrayItems
    && values + CountItems(items) <= limits.maxTotalValues
    && forall i | 0 <= i < |items| ::
         && Shallow(items[i], limits.maxNestingDepth - depth) && Narrow(items[i], limits) && NoDuplicates(items[i])
  }

  lemma {:induction false} ScanItemsDecides(
    items: seq<Node>, rest: seq<Token>, depth: nat, values: nat, limits: Limits, index: nat)
    requires depth <= limits.maxNestingDepth && values <= limits.maxTotalValues && index <= limits.maxArrayItems
    ensures Decides(ScanItems(ItemTokens(items) + ([ArrayClose] + rest), depth, values, limits, index),
              AdmissibleItems(items, depth, values, limits, index), rest, values + CountItems(items))
    decreases items, 1
  {
    hide Tokens, ItemTokens, ScanValue, ScanItems, Admissible, AdmissibleItems, Count, CountItems, Decides;
    var tail := [ArrayClose] + rest;
    if items == [] {
      ArrayEnds(rest, depth, values, limits, index);
    } else {
      var after := ItemTokens(items[1..]) + tail;
      var total := values + Count(items[0]);
      ItemTokensSplit(items, tail);
      ScanDecides(items[0], after, depth, values, limits);
      ItemsSplit(items, depth, values, limits, index);
      if index < limits.maxArrayItems && Admissible(items[0], depth, values, limits) {
        AdmissibleFits(items[0], depth, values, limits);
        ScanItemsDecides(items[1..], rest, depth, total, limits, index + 1);
      }
      ItemsStep(ItemTokens(items) + tail, after, rest, depth, values, total, values + CountItems(items), limits, index,
        Admissible(items[0], depth, values, limits), AdmissibleItems(items[1..], depth, total, limits, index + 1));
    }
  }

  /** One round of the scan of an array: the first item, then the others. */
  lemma ItemsStep(
    tokens: seq<Token>, after: seq<Token>, rest: seq<Token>, depth: nat, values: nat, between: nat, total: nat,
    limits: Limits, index: nat, first: bool, others: bool)
    requires tokens != [] && !tokens[0].IsClose()
    requires Decides(ScanValue(tokens, depth, values, limits), first, after, between)
    requires index < limits.maxArrayItems && first ==>
      Decides(ScanItems(after, depth, between, limits, index + 1), others, rest, total)
    ensures Decides(ScanItems(tokens, depth, values, limits, index),
              index < limits.maxArrayItems && first && others, rest, total)
  {
    hide ScanValue;
  }

  lemma ArrayEnds(rest: seq<Token>, depth: nat, values: nat, limits: Limits, index: nat)
    requires values <= limits.maxTotalValues && index <= limits.maxArrayItems
    ensures Decides(ScanItems(ItemTokens([]) + ([ArrayClose] + rest), depth, values, limits, index),
              AdmissibleItems([], depth, values, limits, index), rest, values + CountItems([]))
  {
    assert ItemTokens([]) + ([ArrayClose] + rest) == [ArrayClose] + rest;
    assert ([ArrayClose] + rest)[1..] == rest;
  }

  lemma ObjectEnds(
    rest: seq<Token>, depth: nat, values: nat, limits: Limits, seen: set<string>, count: nat)
    requires values <= limits.maxTotalValues && count <= limits.maxObjectMembers
    ensures Decides(ScanMembers(MemberTokens([]) + ([ObjectClose] + rest), depth, values, limits, seen, count),
              AdmissibleMembers([], depth, values, limits, seen, count), rest, values + CountMembers([]))
  {
    assert MemberTokens([]) + ([ObjectClose] + rest) == [ObjectClose] + rest;
    assert ([ObjectClose] + rest)[1..] == rest;
  }

  lemma ItemTokensSplit(items: seq<Node>, tail: seq<Token>)
    requires items != []
    ensures var tokens := ItemTokens(items) + tail;
      && tokens == Tokens(items[0]) + (ItemTokens(items[1..]) + tail)
      && tokens != [] && !tokens[0].IsClose()
  {
    FirstToken(items[0]);
    Associates(Tokens(items[0]), ItemTokens(items[1..]), tail);
  }

  lemma Associates(a: seq<Token>, b: seq<Token>, c: seq<Token>)
    ensures a + b + c == a + (b + c)
    ensures a != [] ==> a + (b + c) != [] && (a + (b + c))[0] == a[0]
  {
  }

  lemma AssociatesBehind(first: Token, a: seq<Token>, b: seq<Token>, c: seq<Token>)
    ensures var all := [first] + a + b + c; all != [] && all[0] == first && all[1..] == a + (b + c)
  {
  }

  lemma MemberTokensSplit(members: seq<Member>, tail: seq<Token>)
    requires members != []
    ensures var tokens := MemberTokens(members) + tail;
      && tokens != [] && tokens[0] == Text(members[0].name)
      && tokens[1..] == Tokens(members[0].value) + (MemberTokens(members[1..]) + tail)
  {
    hide Tokens;
    AssociatesBehind(Text(members[0].name), Tokens(members[0].value), MemberTokens(members[1..]), tail);
  }

  lemma AdmissibleFits(node: Node, depth: nat, values: nat, limits: Limits)
    requires Admissible(node, depth, values, limits)
    ensures values + Count(node) <= limits.maxTotalValues
  {
  }

  lemma ItemsSplit(items: seq<Node>, depth: nat, values: nat, limits: Limits, index: nat)
    requires items != []
    ensures AdmissibleItems(items, depth, values, limits, index) <==>
      && index < limits.maxArrayItems
      && Admissible(items[0], depth, values, limits)
      && AdmissibleItems(items[1..], depth, values + Count(items[0]), limits, index + 1)
    ensures CountItems(items) == Count(items[0]) + CountItems(items[1..])
  {
    hide Count, Shallow, Narrow, NoDuplicates;
    var tail := items[1..];
    assert forall i | 0 < i < |items| :: items[i] == tail[i - 1];
    assert forall i | 0 <= i < |tail| :: tail[i] == items[i + 1];
  }

  predicate AdmissibleMembers(
    members: seq<Member>, depth: nat, values: nat, limits: Limits, seen: set<string>, count: nat)
  {
    && count + |members| <= limits.maxObjectMembers
    && values + CountMembers(members) <= limits.maxTotalValues
    && DistinctNames(members)
    && forall i | 0 <= i < |members| ::
         && members[i].name !in seen
         && Shallow(members[i].value, limits.maxNestingDepth - depth)
         && Narrow(members[i].value, limits)
         && NoDuplicates(members[i].value)
  }

  lemma {:induction false} ScanMembersDecides(
    members: seq<Member>, rest: seq<Token>, depth: nat, values: nat, limits: Limits, seen: set<string>, count: nat)
    requires depth <= limits.maxNestingDepth && values <= limits.maxTotalValues && count <= limits.maxObjectMembers
    ensures Decides(ScanMembers(MemberTokens(members) + ([ObjectClose] + rest), depth, values, limits, seen, count),
              AdmissibleMembers(members, depth, values, limits, seen, count), rest, values + CountMembers(members))
    decreases members, 1
  {
    hide Tokens, MemberTokens, ScanValue, ScanMembers, Admissible, AdmissibleMembers, Count, CountMembers, Decides;
    var tail := [ObjectClose] + rest;
    if members == [] {
      ObjectEnds(rest, depth, values, limits, seen, count);
    } else {
      var first := members[0];
      var after := MemberTokens(members[1..]) + tail;
      var total := values + Count(first.value);
      MemberTokensSplit(members, tail);
      ScanDecides(first.value, after, depth, values, limits);
      MembersSplit(members, depth, values, limits, seen, count);
      if count < limits.maxObjectMembers && first.name !in seen && Admissible(first.value, depth, values, limits) {
        AdmissibleFits(first.value, depth, values, limits);
        ScanMembersDecides(members[1..], rest, depth, total, limits, seen + {first.name}, count + 1);
      }
      MembersStep(MemberTokens(members) + tail, first.name, after, rest, depth, values, total,
        values + CountMembers(members), limits, seen, count, Admissible(first.value, depth, values, limits),
        AdmissibleMembers(members[1..], depth, total, limits, seen + {first.name}, count + 1));
    }
  }

  /** One round of the scan of an object: a name, its value, then the other members. */
  lemma MembersStep(
    tokens: seq<Token>, name: string, after: seq<Token>, rest: seq<Token>, depth: nat, values: nat, between: nat,
    total: nat, limits: Limits, seen: set<string>, count: nat, first: bool, others: bool)
    requires tokens != [] && tokens[0] == Text(name)
    requires Decides(ScanValue(tokens[1..], depth, values, limits), first, after, between)
    requires count < limits.maxObjectMembers && name !in seen && first ==>
      Decides(ScanMembers(after, depth, between, limits, seen + {name}, count + 1), others, rest, total)
    ensures Decides(ScanMembers(tokens, depth, values, limits, seen, count),
              count < limits.maxObjectMembers && name !in seen && first && others, rest, total)
  {
    hide ScanValue;
  }

  lemma MembersSplit(
    members: seq<Member>, depth: nat, values: nat, limits: Limits, seen: set<string>, count: nat)
    requires members != []
    ensures AdmissibleMembers(members, depth, values, limits, seen, count) <==>
      && count < limits.maxObjectMembers
      && members[0].name !in seen
      && Admissible(members[0].value, depth, values, limits)
      && AdmissibleMembers(members[1..], depth, values + Count(members[0].value), limits,
           seen + {members[0].name}, count + 1)
    ensures CountMembers(members) == Count(members[0].value) + CountMembers(members[1..])
  {
    hide Count, Shallow, Narrow, NoDuplicates;
    var tail := members[1..];
    assert forall i | 0 < i < |members| :: members[i] == tail[i - 1];
    assert forall i | 0 <= i < |tail| :: tail[i] == members[i + 1];
  }

  /**
    The scan of a complete text accepts exactly the admissible trees, consuming exactly their
    tokens and counting exactly their values.
   */
  lemma ScanAcceptsExactlyAdmissible(node: Node, rest: seq<Token>, limits: Limits)
    ensures ScanValue(Tokens(node) + rest, 0, 0, limits) == Accepted(rest, Count(node))
      <==> Admissible(node, 0, 0, limits)
    ensures ScanValue(Tokens(node) + rest, 0, 0, limits).Accepted? <==> Admissible(node, 0, 0, limits)
  {
    ScanDecides(node, rest, 0, 0, limits);
  }

  // The scan as it runs.

  /** The token stream of a `json.Decoder`. */
  class Decoder {
    const tokens: seq<Token>
    var position: nat

    constructor (tokens: seq<Token>)
      ensures this.tokens == tokens && position == 0
      ensures Valid() && Remaining() == tokens
    {
      this.tokens := tokens;
      position := 0;
    }

    ghost predicate Valid()
      reads this
    {
      position <= |tokens|
    }

    ghost function Remaining(): seq<Token>
      reads this
      requires Valid()
    {
      tokens[position..]
    }

    /** Whether another element follows in the current array or object. */
    method More() returns (more: bool)
      requires Valid()
      ensures more <==> Remaining() != [] && !Remaining()[0].IsClose()
    {
      more := position < |tokens| && !tokens[position].IsClose();
    }

    /** The next token, or None at the end of the stream. */
    method Next() returns (token: Option<Token>)
      requires Valid()
      modifies this
      ensures Valid()
      ensures old(Remaining()) == [] ==> token == None && Remaining() == []
      ensures old(Remaining()) != [] ==>
        token == Some(old(Remaining())[0]) && Remaining() == old(Remaining())[1..]
    {
      if position == |tokens| {
        return None;
      }
      token := Some(tokens[position]);
      position := position + 1;
    }
  }

  /** The value budget shared by the whole scan. */
  class Budget {
    const limits: Limits
    var values: nat

    constructor (limits: Limits)
      ensures this.limits == limits && values == 0
    {
      this.limits := limits;
      values := 0;
    }
  }

  /**
    `scanJSONValueWithLimits`. `None` is success. The measure is the nesting budget left, so on
    every token stream the recursion is at most `maxNestingDepth` calls deep below this one.
   */
  method Scan(decoder: Decoder, depth: nat, budget: Budget) returns (refusal: Option<Code>)
    requires decoder.Valid() && depth <= budget.limits.maxNestingDepth
    modifies decoder, budget
    ensures decoder.Valid()
    ensures match ScanValue(old(decoder.Remaining()), depth, old(budget.values), budget.limits)
      case Accepted(rest, values) => refusal == None && decoder.Remaining() == rest && budget.values == values
      case Refused(code) => refusal == Some(code)
    decreases budget.limits.maxNestingDepth - depth, 0
  {
    hide ScanItems, ScanMembers;
    var limits := budget.limits;
    var token := decoder.Next();
    if token.None? || token.value.IsClose() {
      return Some(Syntax);
    }
    budget.values := budget.values + 1;
    if budget.values > limits.maxTotalValues {
      return Some(Limit);
    }
    if token.value.Scalar? || token.value.Text? {
      return None;
    }
    var inner := depth + 1;
    if inner > limits.maxNestingDepth {
      return Some(Limit);
    }
    if token.value.ObjectOpen? {
      refusal := ScanObject(decoder, inner, budget);
    } else {
      refusal := ScanArray(decoder, inner, budget);
    }
  }

  /** The members of an object and its closing brace. */
  method ScanObject(decoder: Decoder, inner: nat, budget: Budget) returns (refusal: Option<Code>)
    requires decoder.Valid() && inner <= budget.limits.maxNestingDepth
    modifies decoder, budget
    ensures decoder.Valid()
    ensures match ScanMembers(old(decoder.Remaining()), inner, old(budget.values), budget.limits, {}, 0)
      case Accepted(rest, values) => refusal == None && decoder.Remaining() == rest && budget.values == values
      case Refused(code) => refusal == Some(code)
    decreases budget.limits.maxNestingDepth - inner, 1
  {
    hide ScanValue, ScanItems;
    var limits := budget.limits;
    ghost var whole := ScanMembers(decoder.Remaining(), inner, budget.values, limits, {}, 0);
    var seen: set<string> := {};
    var members := 0;
    var more := decoder.More();
    while more
      invariant decoder.Valid()
      invariant more <==> decoder.Remaining() != [] && !decoder.Remaining()[0].IsClose()
      invariant whole == ScanMembers(decoder.Remaining(), inner, budget.values, limits, seen, members)
      decreases |decoder.Remaining()|
    {
      var name := decoder.Next();
      if !name.value.Text? {
        return Some(Syntax);
      }
      members := members + 1;
      if members > limits.maxObjectMembers {
        return Some(Limit);
      }
      if name.value.s in seen {
        return Some(DuplicateMember);
      }
      seen := seen + {name.value.s};
      refusal := Scan(decoder, inner, budget);
      if refusal.Some? {
        return;
      }
      more := decoder.More();
    }
    var closing := decoder.Next();
    if closing != Some(ObjectClose) {
      return Some(Syntax);
    }
    return None;
  }

  /** The items of an array and its closing bracket. */
  method ScanArray(decoder: Decoder, inner: nat, budget: Budget) returns (refusal: Option<Code>)
    requires decoder.Valid() && inner <= budget.limits.maxNestingDepth
    modifies decoder, budget
    ensures decoder.Valid()
    ensures match ScanItems(old(decoder.Remaining()), inner, old(budget.values), budget.limits, 0)
      case Accepted(rest, values) => refusal == None && decoder.Remaining() == rest && budget.values == values
      case Refused(code) => refusal == Some(code)
    decreases budget.limits.maxNestingDepth - inner, 1
  {
    hide ScanValue, ScanMembers;
    var limits := budget.limits;
    ghost var whole := ScanItems(decoder.Remaining(), inner, budget.values, limits, 0);
    var index := 0;
    var more := decoder.More();
    while more
      invariant decoder.Valid()
      invariant more <==> decoder.Remaining() != [] && !decoder.Remaining()[0].IsClose()
      invariant whole == ScanItems(decoder.Remaining(), inner, budget.values, limits, index)
      decreases |decoder.Remaining()|
    {
      if index >= limits.maxArrayItems {
        return Some(Limit);
      }
      refusal := Scan(decoder, inner, budget);
      if refusal.Some? {
        return;
      }
      index := index + 1;
      more := decoder.More();
    }
    var closing := decoder.Next();
    if closing != Some(ArrayClose) {
      return Some(Syntax);
    }
    return None;
  }
}
