/**
  The `describedby` walk. A Go `Link` refers to its descriptor by pointer, so links form chains in
  the heap that can be long, shared or cyclic. Two validators walk them with a depth limit and a set
  of ancestors, and the encoder then follows the same pointers without any guard.
 */
module LinkWalk {
  import opened Documents
  import opened Registries
  import opened MemberNames
  import opened JSONPointers
  import Encoder

  /** `DefaultMaxNestingDepth`. */
  const MAX_NESTING_DEPTH: nat := 64

  /** A `Link` value: its own fields, and the pointer. The walk is what gives `own.describedBy` a meaning. */
  datatype LinkState = LinkState(own: Link, describedBy: LinkCell?)

  class LinkCell {
    var link: LinkState

    constructor (link: LinkState)
      ensures this.link == link
    {
      this.link := link;
    }
  }

  datatype Code =
    | Required
    | URIReference
    | LinkRelation
    | LimitExceeded
    | CycleFound
    | MediaType
    | LanguageTag
    | InvalidMemberName
    | UnregisteredMember
    | MemberValue

  datatype Violation = Violation(path: string, code: Code)

  class Validator {
    var violations: seq<Violation>

    constructor ()
      ensures violations == []
    {
      violations := [];
    }

    method Add(path: string, code: Code)
      modifies this
      ensures violations == old(violations) + [Violation(path, code)]
    {
      violations := violations + [Violation(path, code)];
    }
  }

  /** The mutable set both walks add to on the way down and remove from on the way up. */
  class Ancestors {
    var cells: set<LinkCell>

    constructor ()
      ensures cells == {}
    {
      cells := {};
    }
  }

  /** The recognisers of single field values. */
  datatype Checks = Checks(
    uriReference: string -> bool,
    relation: string -> bool,
    mediaType: string -> bool,
    languageTag: string -> bool)

  // Chains of descriptors in a region of the heap that is closed under `describedBy`.

  ghost predicate Within(link: LinkState, cells: set<LinkCell>) {
    link.describedBy == null || link.describedBy in cells
  }

  ghost predicate Closed(cells: set<LinkCell>)
    reads cells
  {
    forall cell :: cell in cells ==> Within(cell.link, cells)
  }

  /** The first `hops` descriptors reached from a link, fewer when the chain ends before that. */
  ghost function Trail(link: LinkState, hops: nat, cells: set<LinkCell>): (trail: seq<LinkCell>)
    requires Within(link, cells) && Closed(cells)
    reads cells
    ensures |trail| <= hops
    ensures forall i :: 0 <= i < |trail| ==> trail[i] in cells
    decreases hops
  {
    if hops == 0 || link.describedBy == null then []
    else [link.describedBy] + Trail(link.describedBy.link, hops - 1, cells)
  }

  ghost predicate EndsWithin(link: LinkState, hops: nat, cells: set<LinkCell>)
    requires Within(link, cells) && Closed(cells)
    reads cells
  {
    |Trail(link, hops + 1, cells)| <= hops
  }

  ghost predicate Distinct(trail: seq<LinkCell>) {
    forall i, j :: 0 <= i < j < |trail| ==> trail[i] != trail[j]
  }

  /** Neither repeats a cell nor runs into an ancestor. */
  ghost predicate Fresh(trail: seq<LinkCell>, ancestors: set<LinkCell>) {
    Distinct(trail) && forall i :: 0 <= i < |trail| ==> trail[i] !in ancestors
  }

  /** The constructors give a null or extension link no descriptor, and `With*` adds none. */
  ghost predicate Ordinary(link: LinkState) {
    link.own.extension.Some? || link.own.isNull ==> link.describedBy == null
  }

  ghost predicate AllOrdinary(link: LinkState, cells: set<LinkCell>)
    reads cells
  {
    Ordinary(link) && forall cell :: cell in cells ==> Ordinary(cell.link)
  }

  /** What a guarded walk finds out about the chain: nothing wrong, or one of two codes. */
  ghost function Verdict(link: LinkState, hops: nat, ancestors: set<LinkCell>, cells: set<LinkCell>): seq<Code>
    requires Within(link, cells) && Closed(cells)
    reads cells
    decreases hops
  {
    if link.describedBy == null then []
    else if hops == 0 then [LimitExceeded]
    else if link.describedBy in ancestors then [CycleFound]
    else Verdict(link.describedBy.link, hops - 1, ancestors + {link.describedBy}, cells)
  }

  lemma {:induction false} VerdictReadsTheTrail(
    link: LinkState, hops: nat, ancestors: set<LinkCell>, cells: set<LinkCell>)
    requires Within(link, cells) && Closed(cells)
    ensures Verdict(link, hops, ancestors, cells) ==
      if !Fresh(Trail(link, hops, cells), ancestors) then [CycleFound]
      else if EndsWithin(link, hops, cells) then []
      else [LimitExceeded]
    decreases hops
  {
    if link.describedBy != null && hops > 0 {
      var next := link.describedBy;
      var trail, rest := Trail(link, hops, cells), Trail(next.link, hops - 1, cells);
      VerdictReadsTheTrail(next.link, hops - 1, ancestors + {next}, cells);
      assert trail == [next] + rest;
      assert Trail(link, hops + 1, cells) == [next] + Trail(next.link, hops, cells);
      FreshPrepends(next, rest, ancestors);
      if next in ancestors {
        assert trail[0] in ancestors;
      }
    }
  }

  lemma FreshPrepends(next: LinkCell, rest: seq<LinkCell>, ancestors: set<LinkCell>)
    ensures Fresh([next] + rest, ancestors) <==> next !in ancestors && Fresh(rest, ancestors + {next})
  {
    var trail := [next] + rest;
    assert trail[0] == next;
    assert forall i :: 0 <= i < |rest| ==> trail[i + 1] == rest[i];
    if next !in ancestors && Fresh(rest, ancestors + {next}) {
      forall i, j | 0 <= i < j < |trail| ensures trail[i] != trail[j] {
        assert trail[j] == rest[j - 1];
      }
      forall i | 0 <= i < |trail| ensures trail[i] !in ancestors {
        assert i > 0 ==> trail[i] == rest[i - 1];
      }
    }
  }

  /** What remains of a chain after some hops is the chain of the cell reached. */
  lemma {:induction false} TrailSuffix(link: LinkState, hops: nat, at: nat, cells: set<LinkCell>)
    requires Within(link, cells) && Closed(cells) && at < |Trail(link, hops, cells)|
    ensures Trail(Trail(link, hops, cells)[at].link, hops - at - 1, cells) == Trail(link, hops, cells)[at + 1..]
    decreases hops
  {
    var next := link.describedBy;
    if at > 0 {
      TrailSuffix(next.link, hops - 1, at - 1, cells);
      assert Trail(link, hops, cells) == [next] + Trail(next.link, hops - 1, cells);
    }
  }

  /** A chain that has ended does not grow with the number of hops allowed. */
  lemma {:induction false} EndedStays(link: LinkState, hops: nat, more: nat, cells: set<LinkCell>)
    requires Within(link, cells) && Closed(cells)
    requires |Trail(link, hops, cells)| < hops <= more
    ensures Trail(link, more, cells) == Trail(link, hops, cells)
    decreases hops
  {
    if link.describedBy != null {
      EndedStays(link.describedBy.link, hops - 1, more - 1, cells);
    }
  }

  /** A chain that ends visits no cell twice. */
  lemma EndingIsDistinct(link: LinkState, hops: nat, cells: set<LinkCell>)
    requires Within(link, cells) && Closed(cells) && EndsWithin(link, hops, cells)
    ensures Distinct(Trail(link, hops, cells)) && Trail(link, hops + 1, cells) == Trail(link, hops, cells)
  {
    var trail := Trail(link, hops + 1, cells);
    forall i, j | 0 <= i < j < |trail| ensures trail[i] != trail[j] {
      TrailSuffix(link, hops + 1, i, cells);
      TrailSuffix(link, hops + 1, j, cells);
      if trail[i] == trail[j] {
        EndedStays(trail[j].link, hops - j, hops - i, cells);
      }
    }
    TruncatedTrail(link, hops, cells);
  }

  lemma {:induction false} TruncatedTrail(link: LinkState, hops: nat, cells: set<LinkCell>)
    requires Within(link, cells) && Closed(cells) && EndsWithin(link, hops, cells)
    ensures Trail(link, hops + 1, cells) == Trail(link, hops, cells)
    decreases hops
  {
    if link.describedBy != null {
      assert Trail(link, hops + 1, cells) == [link.describedBy] + Trail(link.describedBy.link, hops, cells);
      TruncatedTrail(link.describedBy.link, hops - 1, cells);
    }
  }

  /**
    Started at any link of any heap, the guarded walk finds nothing exactly when the chain ends
    within the limit. Otherwise it finds one thing: a cycle when a cell comes up twice within the
    limit, and an exceeded limit when not.
   */
  lemma VerdictIsExact(link: LinkState, hops: nat, cells: set<LinkCell>)
    requires Within(link, cells) && Closed(cells)
    ensures Verdict(link, hops, {}, cells) == [] <==> EndsWithin(link, hops, cells)
    ensures Verdict(link, hops, {}, cells) == [CycleFound] <==> !Distinct(Trail(link, hops, cells))
    ensures Verdict(link, hops, {}, cells) == [LimitExceeded] <==>
      !EndsWithin(link, hops, cells) && Distinct(Trail(link, hops, cells))
  {
    VerdictReadsTheTrail(link, hops, {}, cells);
    if EndsWithin(link, hops, cells) {
      EndingIsDistinct(link, hops, cells);
    }
    assert Fresh(Trail(link, hops, cells), {}) <==> Distinct(Trail(link, hops, cells));
  }

  // The validator of links.

  function Flag(faulty: bool, path: string, code: Code): seq<Violation> {
    if faulty then [Violation(path, code)] else []
  }

  /** What is reported about the fields checked before the descriptor. */
  function HrefReports(link: Link, path: string, checks: Checks): seq<Violation> {
    (if link.isObject && !link.href.present then [Violation(path + "/href", Required)]
     else Flag(!checks.uriReference(link.href.value), path, URIReference))
    + Flag(link.rel.Has() && !checks.relation(link.rel.value), path + "/rel", LinkRelation)
  }

  /** What is reported about the fields checked after the descriptor. */
  function HintReports(link: Link, path: string, checks: Checks): seq<Violation> {
    Flag(link.targetType.Has() && !checks.mediaType(link.targetType.value), path + "/type", MediaType)
    + Flag(BadTags(link, checks), path + "/hreflang", LanguageTag)
  }

  predicate BadTags(link: Link, checks: Checks) {
    link.hreflang.Some?
    && exists i | 0 <= i < |link.hreflang.value.values| :: !checks.languageTag(link.hreflang.value.values[i])
  }

  /** The fields of one link are valid. */
  predicate SoundFields(link: Link, checks: Checks) {
    link.extension.Some? || link.isNull || (SoundHref(link, checks) && SoundHints(link, checks))
  }

  predicate IsStructural(code: Code) {
    code == LimitExceeded || code == CycleFound
  }

  /** The structural codes among violations, in order. */
  ghost function Structural(violations: seq<Violation>): seq<Code> {
    if violations == [] then []
    else
      var last := violations[|violations| - 1];
      Structural(violations[..|violations| - 1]) + (if IsStructural(last.code) then [last.code] else [])
  }

  lemma {:induction false} StructuralAppends(violations: seq<Violation>, more: seq<Violation>)
    ensures Structural(violations + more) == Structural(violations) + Structural(more)
  {
    if more == [] {
      assert violations + more == violations;
    } else {
      var front := more[..|more| - 1];
      assert (violations + more)[..|violations| + |front|] == violations + front;
      StructuralAppends(violations, front);
    }
  }

  /** `after` extends `before` by violations with these structural codes, and by none at all when `clean`. */
  ghost predicate Adds(before: seq<Violation>, after: seq<Violation>, codes: seq<Code>, clean: bool) {
    before <= after && Structural(after) == Structural(before) + codes && (after == before <==> clean)
  }

  lemma AddsReports(before: seq<Violation>, reports: seq<Violation>)
    ensures Adds(before, before + reports, Structural(reports), reports == [])
  {
    StructuralAppends(before, reports);
  }

  lemma AddsOne(before: seq<Violation>, violation: Violation)
    requires IsStructural(violation.code)
    ensures Adds(before, before + [violation], [violation.code], false)
  {
    AddsReports(before, [violation]);
  }

  lemma AddsCompose(
    a: seq<Violation>, b: seq<Violation>, c: seq<Violation>,
    first: seq<Code>, second: seq<Code>, firstClean: bool, secondClean: bool)
    requires Adds(a, b, first, firstClean) && Adds(b, c, second, secondClean)
    ensures Adds(a, c, first + second, firstClean && secondClean)
  {
    assert Structural(a) + first + second == Structural(a) + (first + second);
  }

  lemma FlagIsNotStructural(faulty: bool, path: string, code: Code)
    requires !IsStructural(code)
    ensures Structural(Flag(faulty, path, code)) == []
    ensures Flag(faulty, path, code) == [] <==> !faulty
  {
    if faulty {
      assert [Violation(path, code)][..0] == [];
    }
  }

  lemma NeitherIsStructural(first: seq<Violation>, second: seq<Violation>)
    requires Structural(first) == [] && Structural(second) == []
    ensures Structural(first + second) == []
    ensures first + second == [] <==> first == [] && second == []
  {
    StructuralAppends(first, second);
    assert |first + second| == |first| + |second|;
  }

  lemma FieldsAreNotStructural(link: Link, path: string, checks: Checks)
    ensures Structural(HrefReports(link, path, checks)) == []
    ensures Structural(HintReports(link, path, checks)) == []
    ensures HrefReports(link, path, checks) == [] <==> SoundHref(link, checks)
    ensures HintReports(link, path, checks) == [] <==> SoundHints(link, checks)
  {
    hide Structural, Flag, BadTags;
    FlagIsNotStructural(!checks.uriReference(link.href.value), path, URIReference);
    FlagIsNotStructural(link.rel.Has() && !checks.relation(link.rel.value), path + "/rel", LinkRelation);
    FlagIsNotStructural(link.targetType.Has() && !checks.mediaType(link.targetType.value), path + "/type", MediaType);
    FlagIsNotStructural(BadTags(link, checks), path + "/hreflang", LanguageTag);
    OneIsNotStructural(path + "/href");
    NeitherIsStructural(
      if link.isObject && !link.href.present then [Violation(path + "/href", Required)]
      else Flag(!checks.uriReference(link.href.value), path, URIReference),
      Flag(link.rel.Has() && !checks.relation(link.rel.value), path + "/rel", LinkRelation));
    NeitherIsStructural(
      Flag(link.targetType.Has() && !checks.mediaType(link.targetType.value), path + "/type", MediaType),
      Flag(BadTags(link, checks), path + "/hreflang", LanguageTag));
  }

  lemma OneIsNotStructural(path: string)
    ensures Structural([Violation(path, Required)]) == []
  {
    assert [Violation(path, Required)][..0] == [];
  }

  predicate SoundHref(link: Link, checks: Checks) {
    && (link.isObject ==> link.href.present) && checks.uriReference(link.href.value)
    && (link.rel.Has() ==> checks.relation(link.rel.value))
  }

  predicate SoundHints(link: Link, checks: Checks) {
    (link.targetType.Has() ==> checks.mediaType(link.targetType.value)) && !BadTags(link, checks)
  }

  lemma {:induction false} NoStructural(reports: seq<Violation>)
    requires forall report :: report in reports ==> !IsStructural(report.code)
    ensures Structural(reports) == []
  {
    if reports != [] {
      NoStructural(reports[..|reports| - 1]);
    }
  }

  /** Every link that a walk of so many hops visits has valid fields. */
  ghost predicate SoundChain(link: LinkState, hops: nat, cells: set<LinkCell>, checks: Checks)
    requires Within(link, cells) && Closed(cells)
    reads cells
    decreases hops
  {
    && SoundFields(link.own, checks)
    && SoundBelow(link, hops, cells, checks)
  }

  ghost predicate SoundBelow(link: LinkState, hops: nat, cells: set<LinkCell>, checks: Checks)
    requires Within(link, cells) && Closed(cells)
    reads cells
    decreases hops, 0
  {
    link.describedBy != null && hops > 0 ==> SoundChain(link.describedBy.link, hops - 1, cells, checks)
  }

  /**
    `validateLinkAt`: the depth argument bounds the recursion on every heap, cyclic or not, and the
    set of ancestors is the same afterwards.
   */
  method ValidateLinkAt(
    validator: Validator, link: LinkState, path: string, depth: nat, ancestors: Ancestors, checks: Checks,
    ghost cells: set<LinkCell>)
    requires depth <= MAX_NESTING_DEPTH && Within(link, cells) && Closed(cells) && AllOrdinary(link, cells)
    modifies validator, ancestors
    ensures ancestors.cells == old(ancestors.cells)
    ensures var verdict := Verdict(link, MAX_NESTING_DEPTH - depth, old(ancestors.cells), cells);
      Adds(old(validator.violations), validator.violations, verdict,
        verdict == [] && SoundChain(link, MAX_NESTING_DEPTH - depth, cells, checks))
    decreases MAX_NESTING_DEPTH - depth, 1
  {
    hide Adds, Structural, Verdict, SoundBelow, SoundChain, SoundFields, HrefReports, HintReports, SoundHref, SoundHints;
    hide Closed, AllOrdinary, Within;
    ghost var start := validator.violations;
    ChainIsFieldsAndBelow(link, MAX_NESTING_DEPTH - depth, ancestors.cells, cells, checks);
    NothingAdded(start);
    if link.own.extension.Some? {
      return;
    }
    if link.own.isNull {
      return;
    }
    FieldsAreNotStructural(link.own, path, checks);
    AddsReports(start, HrefReports(link.own, path, checks));
    ValidateHref(validator, link.own, path, checks);
    ghost var afterHref := validator.violations;
    ValidateDescriptor(validator, link, path, depth, ancestors, checks, cells);
    ghost var afterDescriptor := validator.violations;
    AddsReports(afterDescriptor, HintReports(link.own, path, checks));
    ValidateHints(validator, link.own, path, checks);
    ghost var verdict := Verdict(link, MAX_NESTING_DEPTH - depth, ancestors.cells, cells);
    AddsAround(start, afterHref, afterDescriptor, validator.violations, verdict,
      HrefReports(link.own, path, checks) == [],
      verdict == [] && SoundBelow(link, MAX_NESTING_DEPTH - depth, cells, checks),
      HintReports(link.own, path, checks) == []);
  }

  lemma NothingAdded(violations: seq<Violation>)
    ensures Adds(violations, violations, [], true)
  {
  }

  lemma ChainIsFieldsAndBelow(
    link: LinkState, hops: nat, ancestors: set<LinkCell>, cells: set<LinkCell>, checks: Checks)
    requires Within(link, cells) && Closed(cells) && AllOrdinary(link, cells)
    ensures link.own.extension.Some? || link.own.isNull ==>
      Verdict(link, hops, ancestors, cells) == [] && SoundChain(link, hops, cells, checks)
    ensures link.own.extension.None? && !link.own.isNull ==>
      (SoundChain(link, hops, cells, checks) <==>
        SoundHref(link.own, checks) && SoundHints(link.own, checks) && SoundBelow(link, hops, cells, checks))
  {
  }

  /** The part of `validateLinkAt` that follows the pointer. */
  method ValidateDescriptor(
    validator: Validator, link: LinkState, path: string, depth: nat, ancestors: Ancestors, checks: Checks,
    ghost cells: set<LinkCell>)
    requires depth <= MAX_NESTING_DEPTH && Within(link, cells) && Closed(cells) && AllOrdinary(link, cells)
    modifies validator, ancestors
    ensures ancestors.cells == old(ancestors.cells)
    ensures var verdict := Verdict(link, MAX_NESTING_DEPTH - depth, old(ancestors.cells), cells);
      Adds(old(validator.violations), validator.violations, verdict,
        verdict == [] && SoundBelow(link, MAX_NESTING_DEPTH - depth, cells, checks))
    decreases MAX_NESTING_DEPTH - depth, 0
  {
    if link.describedBy != null {
      var describedByPath := path + "/describedby";
      if depth >= MAX_NESTING_DEPTH {
        AddsOne(validator.violations, Violation(describedByPath, LimitExceeded));
        validator.Add(describedByPath, LimitExceeded);
      } else if link.describedBy in ancestors.cells {
        AddsOne(validator.violations, Violation(describedByPath, CycleFound));
        validator.Add(describedByPath, CycleFound);
      } else {
        ancestors.cells := ancestors.cells + {link.describedBy};
        ValidateLinkAt(validator, link.describedBy.link, describedByPath, depth + 1, ancestors, checks, cells);
        ancestors.cells := ancestors.cells - {link.describedBy};
      }
    }
  }

  lemma AddsAround(
    a: seq<Violation>, b: seq<Violation>, c: seq<Violation>, d: seq<Violation>,
    codes: seq<Code>, first: bool, second: bool, third: bool)
    requires Adds(a, b, [], first) && Adds(b, c, codes, second) && Adds(c, d, [], third)
    ensures Adds(a, d, codes, first && second && third)
  {
    AddsCompose(a, b, c, [], codes, first, second);
    AddsCompose(a, c, d, [] + codes, [], first && second, third);
    assert [] + codes + [] == codes;
  }

  method ValidateHref(validator: Validator, link: Link, path: string, checks: Checks)
    modifies validator
    ensures validator.violations == old(validator.violations) + HrefReports(link, path, checks)
  {
    if link.isObject && !link.href.present {
      validator.Add(path + "/href", Required);
    } else if !checks.uriReference(link.href.value) {
      validator.Add(path, URIReference);
    }
    if link.rel.Has() && !checks.relation(link.rel.value) {
      validator.Add(path + "/rel", LinkRelation);
    }
  }

  method ValidateHints(validator: Validator, link: Link, path: string, checks: Checks)
    modifies validator
    ensures validator.violations == old(validator.violations) + HintReports(link, path, checks)
  {
    if link.targetType.Has() && !checks.mediaType(link.targetType.value) {
      validator.Add(path + "/type", MediaType);
    }
    if link.hreflang.Some? {
      var tags := link.hreflang.value.values;
      for i := 0 to |tags|
        invariant forall j :: 0 <= j < i ==> checks.languageTag(tags[j])
        invariant validator.violations == old(validator.violations)
          + Flag(link.targetType.Has() && !checks.mediaType(link.targetType.value), path + "/type", MediaType)
      {
        if !checks.languageTag(tags[i]) {
          validator.Add(path + "/hreflang", LanguageTag);
          return;
        }
      }
    }
  }

  /**
    `validateLink`. A link is accepted exactly when its chain ends within 64 hops and every link on
    it has valid fields; the chain itself is reported as a cycle or as too long, never as both.
   */
  method ValidateLink(validator: Validator, link: LinkState, path: string, checks: Checks, ghost cells: set<LinkCell>)
    requires Within(link, cells) && Closed(cells) && AllOrdinary(link, cells)
    modifies validator
    ensures old(validator.violations) <= validator.violations
    ensures validator.violations == old(validator.violations) <==>
      EndsWithin(link, MAX_NESTING_DEPTH, cells) && SoundChain(link, MAX_NESTING_DEPTH, cells, checks)
    ensures Structural(validator.violations) == old(Structural(validator.violations)) +
      if EndsWithin(link, MAX_NESTING_DEPTH, cells) then []
      else if Distinct(Trail(link, MAX_NESTING_DEPTH, cells)) then [LimitExceeded]
      else [CycleFound]
  {
    VerdictIsExact(link, MAX_NESTING_DEPTH, cells);
    var ancestors := new Ancestors();
    ValidateLinkAt(validator, link, path, 0, ancestors, checks, cells);
  }

  // The validator of additional members.

  /** What is reported about one additional member. */
  function MemberReports(registry: Registry, scope: Scope, name: string, value: Tree, path: string): seq<Violation> {
    var memberPath := path + "/" + EscapeToken(name);
    if IsAtName(name) then Flag(!ValidMemberName(name), memberPath, InvalidMemberName)
    else if !registry.Registered(scope, name) then [Violation(memberPath, UnregisteredMember)]
    else Flag(!registry.Accepts(scope, name, value), memberPath, MemberValue)
  }

  ghost predicate Reports(
    registry: Registry, scope: Scope, members: Members, names: set<string>, path: string, violation: Violation)
  {
    exists name ::
      name in names && name in members && violation in MemberReports(registry, scope, name, members[name], path)
  }

  /** `validateScopedMembers`: which violations are added does not depend on the order of iteration. */
  method ValidateScopedMembers(validator: Validator, members: Members, scope: Scope, registry: Registry, path: string)
    modifies validator
    ensures old(validator.violations) <= validator.violations
    ensures forall violation :: violation in validator.violations[|old(validator.violations)|..] <==>
      Reports(registry, scope, members, members.Keys, path, violation)
  {
    var pending := members.Keys;
    while pending != {}
      invariant pending <= members.Keys
      invariant old(validator.violations) <= validator.violations
      invariant forall violation :: violation in validator.violations[|old(validator.violations)|..] <==>
        Reports(registry, scope, members, members.Keys - pending, path, violation)
      decreases pending
    {
      var name :| name in pending;
      var reports := MemberReports(registry, scope, name, members[name], path);
      ghost var known := validator.violations[|old(validator.violations)|..];
      validator.violations := validator.violations + reports;
      assert validator.violations[|old(validator.violations)|..] == known + reports;
      assert members.Keys - (pending - {name}) == members.Keys - pending + {name};
      pending := pending - {name};
    }
    assert members.Keys - {} == members.Keys;
  }

  ghost predicate SoundMembers(registry: Registry, members: Members) {
    forall name :: name in members ==> MemberReports(registry, LinkObjectScope, name, members[name], "") == []
  }

  lemma NoReportIsStructural(registry: Registry, members: Members, path: string, reports: seq<Violation>)
    requires forall violation :: violation in reports ==>
      Reports(registry, LinkObjectScope, members, members.Keys, path, violation)
    ensures forall violation :: violation in reports ==> !IsStructural(violation.code)
  {
    hide EscapeToken, ValidMemberName;
  }

  lemma ReportsAtAnyPath(registry: Registry, name: string, value: Tree, path: string)
    ensures MemberReports(registry, LinkObjectScope, name, value, path) == [] <==>
      MemberReports(registry, LinkObjectScope, name, value, "") == []
  {
    hide EscapeToken, ValidMemberName;
  }

  lemma MembersAreNotStructural(
    registry: Registry, members: Members, path: string, before: seq<Violation>, reports: seq<Violation>)
    requires forall violation :: violation in reports <==>
      Reports(registry, LinkObjectScope, members, members.Keys, path, violation)
    ensures Adds(before, before + reports, [], SoundMembers(registry, members))
  {
    hide Adds, Structural, MemberReports;
    AddsReports(before, reports);
    NoReportIsStructural(registry, members, path, reports);
    NoStructural(reports);
    forall name | name in members
      ensures MemberReports(registry, LinkObjectScope, name, members[name], "") != [] ==> reports != []
    {
      var faults := MemberReports(registry, LinkObjectScope, name, members[name], path);
      ReportsAtAnyPath(registry, name, members[name], path);
      if faults != [] {
        assert Reports(registry, LinkObjectScope, members, members.Keys, path, faults[0]);
      }
    }
    if reports != [] {
      assert Reports(registry, LinkObjectScope, members, members.Keys, path, reports[0]);
      var name :| name in members && reports[0] in MemberReports(registry, LinkObjectScope, name, members[name], path);
      ReportsAtAnyPath(registry, name, members[name], path);
    }
  }

  method ValidateLinkMembers(validator: Validator, link: Link, registry: Registry, path: string)
    modifies validator
    ensures Adds(old(validator.violations), validator.violations, [], SoundMembers(registry, link.additional))
  {
    ghost var start := validator.violations;
    ValidateScopedMembers(validator, link.additional, LinkObjectScope, registry, path);
    ghost var reports := validator.violations[|start|..];
    assert validator.violations == start + reports;
    MembersAreNotStructural(registry, link.additional, path, start, reports);
  }

  /** Every link that a walk of so many hops visits has valid additional members. */
  ghost predicate SoundMembersChain(link: LinkState, hops: nat, cells: set<LinkCell>, registry: Registry)
    requires Within(link, cells) && Closed(cells)
    reads cells
    decreases hops
  {
    SoundMembers(registry, link.own.additional) && SoundMembersBelow(link, hops, cells, registry)
  }

  ghost predicate SoundMembersBelow(link: LinkState, hops: nat, cells: set<LinkCell>, registry: Registry)
    requires Within(link, cells) && Closed(cells)
    reads cells
    decreases hops, 0
  {
    link.describedBy != null && hops > 0 ==> SoundMembersChain(link.describedBy.link, hops - 1, cells, registry)
  }

  /** `validateLinkStateMembersAt`: a second walk over the same chain, with the same verdict. */
  method ValidateLinkStateMembersAt(
    validator: Validator, link: LinkState, path: string, registry: Registry, depth: nat, ancestors: Ancestors,
    ghost cells: set<LinkCell>)
    requires depth <= MAX_NESTING_DEPTH && Within(link, cells) && Closed(cells)
    modifies validator, ancestors
    ensures ancestors.cells == old(ancestors.cells)
    ensures var verdict := Verdict(link, MAX_NESTING_DEPTH - depth, old(ancestors.cells), cells);
      Adds(old(validator.violations), validator.violations, verdict,
        verdict == [] && SoundMembersChain(link, MAX_NESTING_DEPTH - depth, cells, registry))
    decreases MAX_NESTING_DEPTH - depth, 1
  {
    ghost var start := validator.violations;
    ValidateLinkMembers(validator, link.own, registry, path);
    ghost var afterMembers := validator.violations;
    ValidateDescriptorMembers(validator, link, path, registry, depth, ancestors, cells);
    ghost var verdict := Verdict(link, MAX_NESTING_DEPTH - depth, ancestors.cells, cells);
    AddsCompose(start, afterMembers, validator.violations, [], verdict,
      SoundMembers(registry, link.own.additional),
      verdict == [] && SoundMembersBelow(link, MAX_NESTING_DEPTH - depth, cells, registry));
    assert [] + verdict == verdict;
  }

  /** The part of `validateLinkStateMembersAt` that follows the pointer. */
  method ValidateDescriptorMembers(
    validator: Validator, link: LinkState, path: string, registry: Registry, depth: nat, ancestors: Ancestors,
    ghost cells: set<LinkCell>)
    requires depth <= MAX_NESTING_DEPTH && Within(link, cells) && Closed(cells)
    modifies validator, ancestors
    ensures ancestors.cells == old(ancestors.cells)
    ensures var verdict := Verdict(link, MAX_NESTING_DEPTH - depth, old(ancestors.cells), cells);
      Adds(old(validator.violations), validator.violations, verdict,
        verdict == [] && SoundMembersBelow(link, MAX_NESTING_DEPTH - depth, cells, registry))
    decreases MAX_NESTING_DEPTH - depth, 0
  {
    if link.describedBy == null {
      return;
    }
    var describedByPath := path + "/describedby";
    if depth >= MAX_NESTING_DEPTH {
      AddsOne(validator.violations, Violation(describedByPath, LimitExceeded));
      validator.Add(describedByPath, LimitExceeded);
      return;
    }
    if link.describedBy in ancestors.cells {
      AddsOne(validator.violations, Violation(describedByPath, CycleFound));
      validator.Add(describedByPath, CycleFound);
      return;
    }
    ancestors.cells := ancestors.cells + {link.describedBy};
    ValidateLinkStateMembersAt(validator, link.describedBy.link, describedByPath, registry, depth + 1, ancestors, cells);
    ancestors.cells := ancestors.cells - {link.describedBy};
  }

  /** `validateLinkStateMembers`: accepted exactly when the chain ends within 64 hops with valid members all along. */
  method ValidateLinkStateMembers(
    validator: Validator, link: LinkState, path: string, registry: Registry, ghost cells: set<LinkCell>)
    requires Within(link, cells) && Closed(cells)
    modifies validator
    ensures old(validator.violations) <= validator.violations
    ensures validator.violations == old(validator.violations) <==>
      EndsWithin(link, MAX_NESTING_DEPTH, cells) && SoundMembersChain(link, MAX_NESTING_DEPTH, cells, registry)
    ensures Structural(validator.violations) == old(Structural(validator.violations)) +
      if EndsWithin(link, MAX_NESTING_DEPTH, cells) then []
      else if Distinct(Trail(link, MAX_NESTING_DEPTH, cells)) then [LimitExceeded]
      else [CycleFound]
  {
    VerdictIsExact(link, MAX_NESTING_DEPTH, cells);
    var ancestors := new Ancestors();
    ValidateLinkStateMembersAt(validator, link, path, registry, 0, ancestors, cells);
  }

  // Encoding.

  /** A chain that ends is a finite value. */
  ghost function Unfold(link: LinkState, hops: nat, cells: set<LinkCell>): Link
    requires Within(link, cells) && Closed(cells) && EndsWithin(link, hops, cells)
    reads cells
    decreases hops
  {
    if link.describedBy == null then link.own.(describedBy := None)
    else link.own.(describedBy := Some(Unfold(link.describedBy.link, hops - 1, cells)))
  }

  /**
    `Link.MarshalJSON` on the heap. It has no guard of its own: it needs the bound that validation
    has established, and then it encodes the unfolded chain.
   */
  method MarshalLink(link: LinkState, ghost hops: nat, ghost cells: set<LinkCell>) returns (encoded: Option<Tree>)
    requires Within(link, cells) && Closed(cells) && EndsWithin(link, hops, cells)
    ensures encoded == Encoder.EncodeLink(Unfold(link, hops, cells))
    decreases hops
  {
    var own := link.own;
    if own.extension.Some? {
      return Some(own.extension.value);
    }
    if own.isNull {
      return Some(Null);
    }
    if !own.isObject {
      return Some(String(own.href.value));
    }
    var describedBy := None;
    if link.describedBy != null {
      var target := MarshalLink(link.describedBy.link, hops - 1, cells);
      if target.None? {
        return None;
      }
      describedBy := Some(target.value);
    }
    return Encoder.ObjectWithMembers(Encoder.LinkCore(own, describedBy), own.additional);
  }

  /** Every link that validation accepts can be encoded: the encoder's recursion ends. */
  method ValidateThenMarshal(link: LinkState, checks: Checks, ghost cells: set<LinkCell>)
    returns (accepted: bool, encoded: Option<Tree>)
    requires Within(link, cells) && Closed(cells) && AllOrdinary(link, cells)
    ensures accepted <==>
      EndsWithin(link, MAX_NESTING_DEPTH, cells) && SoundChain(link, MAX_NESTING_DEPTH, cells, checks)
    ensures accepted ==> encoded == Encoder.EncodeLink(Unfold(link, MAX_NESTING_DEPTH, cells))
  {
    var validator := new Validator();
    ValidateLink(validator, link, "", checks, cells);
    accepted, encoded := validator.violations == [], None;
    if accepted {
      encoded := MarshalLink(link, MAX_NESTING_DEPTH, cells);
    }
  }

  // What is checked of one link, on its fields.

  /** A link that is written as a string or an object has a URI reference, and hints that are valid where given. */
  ghost predicate FieldsAreSound(link: Link, checks: Checks) {
    link.extension.None? && !link.isNull ==>
      && (link.isObject ==> link.href.present) && checks.uriReference(link.href.value)
      && (link.rel != Field("", false) ==> checks.relation(link.rel.value))
      && (link.targetType != Field("", false) ==> checks.mediaType(link.targetType.value))
      && (link.hreflang.Some? ==> forall tag :: tag in link.hreflang.value.values ==> checks.languageTag(tag))
  }

  lemma SoundnessOnFields(link: Link, checks: Checks)
    ensures SoundFields(link, checks) <==> FieldsAreSound(link, checks)
  {
    if link.hreflang.Some? {
      var tags := link.hreflang.value.values;
      assert (forall tag :: tag in tags ==> checks.languageTag(tag)) <==>
        forall i :: 0 <= i < |tags| ==> checks.languageTag(tags[i]) by {
        assert forall tag :: tag in tags ==> exists i :: 0 <= i < |tags| && tags[i] == tag;
      }
    }
  }

  /** Which violation each fault is. */
  lemma ReportsOnFields(link: Link, path: string, checks: Checks, violation: Violation)
    ensures violation in HrefReports(link, path, checks) + HintReports(link, path, checks) <==>
      match violation.code
      case Required => violation.path == path + "/href" && link.isObject && !link.href.present
      case URIReference =>
        && violation.path == path && (link.isObject ==> link.href.present)
        && !checks.uriReference(link.href.value)
      case LinkRelation =>
        violation.path == path + "/rel" && link.rel != Field("", false) && !checks.relation(link.rel.value)
      case MediaType =>
        && violation.path == path + "/type"
        && link.targetType != Field("", false) && !checks.mediaType(link.targetType.value)
      case LanguageTag =>
        && violation.path == path + "/hreflang"
        && link.hreflang.Some? && exists tag :: tag in link.hreflang.value.values && !checks.languageTag(tag)
      case _ => false
  {
    if link.hreflang.Some? {
      var tags := link.hreflang.value.values;
      assert forall tag :: tag in tags ==> exists i :: 0 <= i < |tags| && tags[i] == tag;
    }
  }

  /** The link that is reached after so many hops. */
  ghost function LinkAt(link: LinkState, k: nat, cells: set<LinkCell>): LinkState
    requires Within(link, cells) && Closed(cells) && k <= |Trail(link, k, cells)|
    reads cells
  {
    if k == 0 then link else Trail(link, k, cells)[k - 1].link
  }

  lemma LinkAfter(link: LinkState, k: nat, cells: set<LinkCell>)
    requires Within(link, cells) && Closed(cells) && link.describedBy != null
    requires k <= |Trail(link.describedBy.link, k, cells)|
    ensures k + 1 <= |Trail(link, k + 1, cells)| && LinkAt(link, k + 1, cells) == LinkAt(link.describedBy.link, k, cells)
  {
  }

  lemma LinkBefore(link: LinkState, k: nat, cells: set<LinkCell>)
    requires Within(link, cells) && Closed(cells) && k + 1 <= |Trail(link, k + 1, cells)|
    ensures link.describedBy != null && k <= |Trail(link.describedBy.link, k, cells)|
    ensures LinkAt(link, k + 1, cells) == LinkAt(link.describedBy.link, k, cells)
  {
  }

  /** A chain is sound when every link that is reached within the hops allowed is. */
  lemma {:induction false} SoundChainOnFields(link: LinkState, hops: nat, cells: set<LinkCell>, checks: Checks)
    requires Within(link, cells) && Closed(cells)
    ensures SoundChain(link, hops, cells, checks) <==>
      forall k: nat :: k <= hops && k <= |Trail(link, k, cells)| ==> FieldsAreSound(LinkAt(link, k, cells).own, checks)
    decreases hops
  {
    hide SoundFields, FieldsAreSound, Trail;
    SoundnessOnFields(link.own, checks);
    NoHops(link, cells);
    if link.describedBy != null && hops > 0 {
      SoundChainOnFields(link.describedBy.link, hops - 1, cells, checks);
      forall k: nat | k <= |Trail(link.describedBy.link, k, cells)|
        ensures k + 1 <= |Trail(link, k + 1, cells)|
        ensures LinkAt(link, k + 1, cells) == LinkAt(link.describedBy.link, k, cells)
      {
        LinkAfter(link, k, cells);
      }
    }
    forall k: nat | 0 < k && k <= |Trail(link, k, cells)|
      ensures link.describedBy != null && k - 1 <= |Trail(link.describedBy.link, k - 1, cells)|
      ensures LinkAt(link, k, cells) == LinkAt(link.describedBy.link, k - 1, cells)
    {
      LinkBefore(link, k - 1, cells);
    }
  }

  lemma NoHops(link: LinkState, cells: set<LinkCell>)
    requires Within(link, cells) && Closed(cells)
    ensures Trail(link, 0, cells) == [] && LinkAt(link, 0, cells) == link
  {
  }

  /** Which violation an additional member is: a bad `@` name, a name nobody registered, or a refused value. */
  lemma MemberReportsOnNames(
    registry: Registry, scope: Scope, name: string, value: Tree, path: string, violation: Violation)
    ensures violation in MemberReports(registry, scope, name, value, path) <==>
      && violation.path == path + "/" + EscapeToken(name)
      && var annotation := name != "" && name[0] == '@';
         var registered := scope in registry.rules && name in registry.rules[scope];
         match violation.code
         case InvalidMemberName => annotation && !ValidMemberName(name)
         case UnregisteredMember => !annotation && !registered
         case MemberValue => !annotation && registered && !registry.rules[scope][name](value)
         case _ => false
  {
    hide ValidMemberName, EscapeToken;
  }
}
