/**
  Selection of a response representation from an Accept header.
 */
module Negotiation {
  import opened Documents
  import opened Text
  import opened HeaderValues

  const JSONAPI_MEDIA_TYPE := "application/vnd.api+json"

  datatype MediaType = MediaType(extensions: seq<string>, profiles: seq<string>)

  const PLAIN_MEDIA_TYPE := MediaType([], [])

  datatype Limits = Limits(maxHeaderBytes: nat, maxAcceptCandidates: nat, maxParameterURIs: nat, maxURIBytes: nat)

  datatype Negotiator = Negotiator(extensions: set<string>, profiles: set<string>, limits: Limits)

  /** A media range as `mime.ParseMediaType` returns it, with the name in lower case. */
  datatype MediaRange = MediaRange(name: string, parameters: map<string, string>)

  /** Functions of other libraries: parsing and formatting media types, white space, absolute URIs. */
  datatype Library = Library(
    parse: string -> Option<MediaRange>,
    format: MediaType -> string,
    blank: string -> bool,
    absoluteURI: string -> bool)

  // Lists of URIs.

  ghost predicate IsUniqueSorted(sorted: seq<string>, names: set<string>) {
    StrictlySorted(sorted) && Elements(sorted) == names
  }

  /** `uniqueSorted`: each value once, in byte order. */
  method UniqueSorted(values: seq<string>) returns (result: seq<string>)
    ensures IsUniqueSorted(result, Elements(values))
  {
    if |values| == 0 {
      return [];
    }
    var seen: set<string> := {};
    for i := 0 to |values|
      invariant seen == Elements(values[..i])
    {
      assert values[..i + 1] == values[..i] + [values[i]];
      if values[i] !in seen {
        seen := seen + {values[i]};
      }
    }
    assert values[..|values|] == values;
    result := SortNames(seen);
  }

  predicate IsURIList(value: string, limits: Limits, library: Library) {
    && value != "" && |Split(value, ' ')| <= limits.maxParameterURIs
    && forall i | 0 <= i < |Split(value, ' ')| ::
         var uri := Split(value, ' ')[i];
         uri != "" && |uri| <= limits.maxURIBytes && library.absoluteURI(uri)
  }

  ghost function ListedURIs(value: string): set<string> {
    Elements(Split(value, ' '))
  }

  /** `parseURIList`. */
  method ParseURIList(value: string, limits: Limits, library: Library) returns (uris: Option<seq<string>>)
    ensures uris.Some? <==> IsURIList(value, limits, library)
    ensures uris.Some? ==> IsUniqueSorted(uris.value, ListedURIs(value))
  {
    hide StrictlySorted, Split, Elements;
    if value == "" {
      return None;
    }
    var items := Split(value, ' ');
    if |items| > limits.maxParameterURIs {
      return None;
    }
    for i := 0 to |items|
      invariant forall j :: 0 <= j < i ==>
        items[j] != "" && |items[j]| <= limits.maxURIBytes && library.absoluteURI(items[j])
    {
      if items[i] == "" || |items[i]| > limits.maxURIBytes || !library.absoluteURI(items[i]) {
        return None;
      }
    }
    var sorted := UniqueSorted(items);
    return Some(sorted);
  }

  // Candidates.

  datatype Candidate = Candidate(
    mediaType: MediaType, contentType: string, quality: nat, specificity: nat, matchesAll: bool)

  predicate QualityIsSound(parameters: map<string, string>) {
    "q" in parameters ==> IsQuality(parameters["q"])
  }

  function QualityOf(parameters: map<string, string>): nat
    requires QualityIsSound(parameters)
  {
    if "q" in parameters then Thousandths(parameters["q"]) else 1000
  }

  predicate IsWildcard(name: string) {
    name == "*/*" || name == "application/*"
  }

  ghost function ParameterURIs(parameters: map<string, string>, name: string): set<string> {
    if name in parameters then ListedURIs(parameters[name]) else {}
  }

  predicate ParameterIsSound(parameters: map<string, string>, name: string, limits: Limits, library: Library) {
    name in parameters ==> IsURIList(parameters[name], limits, library)
  }

  /** The ranges that take part in negotiation: wildcards, and JSON:API with supported extensions. */
  ghost predicate Acceptable(negotiator: Negotiator, library: Library, range: MediaRange) {
    && QualityIsSound(range.parameters)
    && if IsWildcard(range.name) then range.parameters.Keys <= {"q"}
       else
         && range.name == JSONAPI_MEDIA_TYPE
         && range.parameters.Keys <= {"q", "ext", "profile"}
         && ParameterIsSound(range.parameters, "ext", negotiator.limits, library)
         && ParameterIsSound(range.parameters, "profile", negotiator.limits, library)
         && ParameterURIs(range.parameters, "ext") <= negotiator.extensions
  }

  function Presence(uris: seq<string>): nat {
    if uris == [] then 0 else 1
  }

  function ParameterCount(mediaType: MediaType): nat {
    Presence(mediaType.extensions) + Presence(mediaType.profiles)
  }

  /** How a range is classified; unsupported profiles are dropped. */
  ghost predicate Classifies(candidate: Candidate, negotiator: Negotiator, library: Library, range: MediaRange) {
    && QualityIsSound(range.parameters) && candidate.quality == QualityOf(range.parameters)
    && candidate.contentType == library.format(candidate.mediaType)
    && (candidate.matchesAll <==> candidate.mediaType == PLAIN_MEDIA_TYPE)
    && if IsWildcard(range.name) then
         candidate.mediaType == PLAIN_MEDIA_TYPE && candidate.specificity == (if range.name == "*/*" then 0 else 1)
       else
         && IsUniqueSorted(candidate.mediaType.extensions, ParameterURIs(range.parameters, "ext"))
         && IsUniqueSorted(
              candidate.mediaType.profiles, ParameterURIs(range.parameters, "profile") * negotiator.profiles)
         && candidate.specificity == 2 + ParameterCount(candidate.mediaType)
  }

  method ParseParameter(parameters: map<string, string>, name: string, limits: Limits, library: Library)
    returns (uris: Option<seq<string>>)
    ensures uris.Some? <==> ParameterIsSound(parameters, name, limits, library)
    ensures uris.Some? ==> IsUniqueSorted(uris.value, ParameterURIs(parameters, name))
  {
    hide IsURIList, ListedURIs;
    if name !in parameters {
      return Some([]);
    }
    uris := ParseURIList(parameters[name], limits, library);
  }

  lemma ElementsAppend(uris: seq<string>, uri: string)
    ensures Elements(uris + [uri]) == Elements(uris) + {uri}
  {
    assert uri in uris + [uri];
  }

  method KeepSupported(uris: seq<string>, supported: set<string>) returns (kept: seq<string>)
    ensures IsUniqueSorted(kept, Elements(uris) * supported)
  {
    hide StrictlySorted;
    kept := [];
    for i := 0 to |uris|
      invariant Elements(kept) == Elements(uris[..i]) * supported
    {
      assert uris[..i + 1] == uris[..i] + [uris[i]];
      if uris[i] in supported {
        ElementsAppend(kept, uris[i]);
        kept := kept + [uris[i]];
      }
    }
    assert uris[..|uris|] == uris;
    kept := UniqueSorted(kept);
  }

  method AllSupported(uris: seq<string>, supported: set<string>) returns (all: bool)
    ensures all <==> Elements(uris) <= supported
  {
    for i := 0 to |uris|
      invariant forall j :: 0 <= j < i ==> uris[j] in supported
    {
      if uris[i] !in supported {
        assert uris[i] in Elements(uris);
        return false;
      }
    }
    return true;
  }

  /** `acceptCandidate`, on a range that has been parsed. */
  method AcceptCandidate(negotiator: Negotiator, library: Library, range: MediaRange)
    returns (candidate: Option<Candidate>)
    ensures candidate.Some? <==> Acceptable(negotiator, library, range)
    ensures candidate.Some? ==> Classifies(candidate.value, negotiator, library, range)
  {
    hide IsQuality, Thousandths, Acceptable, Classifies, IsWildcard;
    var quality, parameters := 1000, range.parameters;
    if "q" in parameters {
      var parsed := ParseQuality(parameters["q"]);
      if parsed.None? {
        UnsoundQuality(negotiator, library, range);
        return None;
      }
      quality := parsed.value;
      parameters := parameters - {"q"};
    }
    assert parameters.Keys == range.parameters.Keys - {"q"};
    if IsWildcard(range.name) {
      candidate := WildcardCandidate(negotiator, library, range, parameters, quality);
    } else {
      var unknown := HasUnknownParameter(parameters);
      if range.name != JSONAPI_MEDIA_TYPE || unknown {
        OtherRange(negotiator, library, range, parameters);
        return None;
      }
      candidate := RequestedCandidate(negotiator, library, range, quality);
    }
  }

  lemma UnsoundQuality(negotiator: Negotiator, library: Library, range: MediaRange)
    requires !QualityIsSound(range.parameters)
    ensures !Acceptable(negotiator, library, range)
  {
  }

  lemma OtherRange(negotiator: Negotiator, library: Library, range: MediaRange, parameters: map<string, string>)
    requires parameters.Keys == range.parameters.Keys - {"q"} && !IsWildcard(range.name)
    requires range.name != JSONAPI_MEDIA_TYPE || !(parameters.Keys <= {"ext", "profile"})
    ensures !Acceptable(negotiator, library, range)
  {
    hide ParameterIsSound, ParameterURIs;
  }

  /** `unknownParameter`, which names one only for the message. */
  method HasUnknownParameter(parameters: map<string, string>) returns (unknown: bool)
    ensures unknown <==> !(parameters.Keys <= {"ext", "profile"})
  {
    unknown := exists name :: name in parameters && name != "ext" && name != "profile";
  }

  method WildcardCandidate(
    negotiator: Negotiator, library: Library, range: MediaRange, parameters: map<string, string>, quality: nat)
    returns (candidate: Option<Candidate>)
    requires QualityIsSound(range.parameters) && quality == QualityOf(range.parameters)
    requires parameters.Keys == range.parameters.Keys - {"q"} && IsWildcard(range.name)
    ensures candidate.Some? <==> Acceptable(negotiator, library, range)
    ensures candidate.Some? ==> Classifies(candidate.value, negotiator, library, range)
  {
    hide IsQuality, Thousandths, ParameterIsSound, ParameterURIs;
    if |parameters| != 0 {
      assert parameters.Keys != {};
      return None;
    }
    assert parameters.Keys == {};
    var specificity := if range.name == "*/*" then 0 else 1;
    return Some(Candidate(PLAIN_MEDIA_TYPE, library.format(PLAIN_MEDIA_TYPE), quality, specificity, true));
  }

  /** The part of `acceptCandidate` that looks at the JSON:API parameters. */
  method RequestedCandidate(negotiator: Negotiator, library: Library, range: MediaRange, quality: nat)
    returns (candidate: Option<Candidate>)
    requires QualityIsSound(range.parameters) && quality == QualityOf(range.parameters)
    requires range.name == JSONAPI_MEDIA_TYPE && range.parameters.Keys - {"q"} <= {"ext", "profile"}
    ensures candidate.Some? <==> Acceptable(negotiator, library, range)
    ensures candidate.Some? ==> Classifies(candidate.value, negotiator, library, range)
  {
    hide IsQuality, Thousandths, StrictlySorted, ParameterIsSound, ParameterURIs;
    forall name | name in range.parameters.Keys ensures name in {"q", "ext", "profile"} {
      assert name != "q" ==> name in range.parameters.Keys - {"q"};
    }
    assert !IsWildcard(range.name);
    var extensions := ParseParameter(range.parameters, "ext", negotiator.limits, library);
    if extensions.None? {
      return None;
    }
    var profiles := ParseParameter(range.parameters, "profile", negotiator.limits, library);
    if profiles.None? {
      return None;
    }
    var supported := AllSupported(extensions.value, negotiator.extensions);
    if !supported {
      return None;
    }
    var kept := KeepSupported(profiles.value, negotiator.profiles);
    var sorted := UniqueSorted(extensions.value);
    var mediaType := MediaType(sorted, kept);
    var parameterCount := ParameterCount(mediaType);
    return Some(
        Candidate(mediaType, library.format(mediaType), quality, 2 + parameterCount, parameterCount == 0));
  }

  // Selection.

  predicate Matches(range: Candidate, contentType: string) {
    range.matchesAll || range.contentType == contentType
  }

  /** No matching range is more specific, or equally specific with a higher quality. */
  ghost predicate Governs(range: Candidate, ranges: set<Candidate>, contentType: string) {
    && range in ranges && Matches(range, contentType)
    && forall other :: other in ranges && Matches(other, contentType) ==>
         other.specificity < range.specificity
         || (other.specificity == range.specificity && other.quality <= range.quality)
  }

  ghost function SetOf(ranges: seq<Candidate>): set<Candidate> {
    set range | range in ranges
  }

  /** The quality of a representation: that of its most specific matching ranges, at their highest. */
  ghost predicate HasQuality(contentType: string, quality: nat, ranges: set<Candidate>) {
    exists range :: Governs(range, ranges, contentType) && range.quality == quality
  }

  lemma QualityIsUnique(contentType: string, first: nat, second: nat, ranges: set<Candidate>)
    requires HasQuality(contentType, first, ranges) && HasQuality(contentType, second, ranges)
    ensures first == second
  {
  }

  /** `qualityForRepresentation`. */
  method QualityForRepresentation(contentType: string, ranges: seq<Candidate>) returns (quality: nat, matched: bool)
    ensures matched <==> exists range :: range in ranges && Matches(range, contentType)
    ensures matched ==> HasQuality(contentType, quality, SetOf(ranges))
  {
    var bestSpecificity: int := -1;
    quality, matched := 0, false;
    ghost var best: Option<Candidate> := None;
    for i := 0 to |ranges|
      invariant matched <==> best.Some?
      invariant !matched ==> bestSpecificity == -1
      invariant !matched ==> forall j :: 0 <= j < i ==> !Matches(ranges[j], contentType)
      invariant matched ==>
        && best.value.specificity == bestSpecificity && best.value.quality == quality
        && best.value in ranges && Matches(best.value, contentType)
        && forall j :: 0 <= j < i && Matches(ranges[j], contentType) ==>
             ranges[j].specificity < bestSpecificity
             || (ranges[j].specificity == bestSpecificity && ranges[j].quality <= quality)
    {
      var candidate := ranges[i];
      if !candidate.matchesAll && candidate.contentType != contentType {
        continue;
      }
      if candidate.specificity > bestSpecificity {
        bestSpecificity := candidate.specificity;
        quality := candidate.quality;
        matched := true;
        best := Some(candidate);
        continue;
      }
      if candidate.specificity == bestSpecificity && candidate.quality > quality {
        quality := candidate.quality;
        best := Some(candidate);
      }
    }
    if matched {
      assert Governs(best.value, SetOf(ranges), contentType);
    }
  }

  /** `contentType` is offered, and nothing offered has a higher quality or the same one and an earlier name. */
  ghost predicate IsSelected(contentType: string, quality: nat, ranges: set<Candidate>) {
    && Offered(contentType, ranges) && quality != 0 && HasQuality(contentType, quality, ranges)
    && forall other, otherQuality: nat :: Offered(other, ranges) && HasQuality(other, otherQuality, ranges) ==>
         otherQuality < quality || (otherQuality == quality && (other == contentType || Before(contentType, other)))
  }

  ghost predicate Offered(contentType: string, ranges: set<Candidate>) {
    exists range :: range in ranges && range.contentType == contentType
  }

  ghost predicate NothingAcceptable(ranges: set<Candidate>) {
    forall contentType, quality: nat :: Offered(contentType, ranges) && HasQuality(contentType, quality, ranges) ==>
      quality == 0
  }

  /**
    What is selected depends on the set of candidates only, hence neither on their order nor on how
    often each of them is repeated.
   */
  lemma SelectionIsUnique(first: string, firstQuality: nat, second: string, secondQuality: nat, ranges: set<Candidate>)
    requires IsSelected(first, firstQuality, ranges) && IsSelected(second, secondQuality, ranges)
    ensures first == second && firstQuality == secondQuality
    ensures !NothingAcceptable(ranges)
  {
    BeforeIsTotal(first, second);
  }

  /** The selection loop over the distinct representations. */
  ghost predicate BestSoFar(selected: Option<Candidate>, quality: nat, seen: set<string>, ranges: set<Candidate>) {
    match selected
    case None => forall contentType, q: nat :: contentType in seen && HasQuality(contentType, q, ranges) ==> q == 0
    case Some(best) =>
      && best in ranges && best.contentType in seen && quality != 0 && HasQuality(best.contentType, quality, ranges)
      && forall other, q: nat :: other in seen && HasQuality(other, q, ranges) ==>
           q < quality || (q == quality && (other == best.contentType || Before(best.contentType, other)))
  }

  lemma BestExtends(
    selected: Option<Candidate>, quality: nat, seen: set<string>, ranges: set<Candidate>,
    representation: Candidate, itsQuality: nat)
    requires BestSoFar(selected, quality, seen, ranges)
    requires representation in ranges && representation.contentType !in seen
    requires HasQuality(representation.contentType, itsQuality, ranges)
    ensures var better := itsQuality != 0 && (selected.None? || itsQuality > quality
        || (itsQuality == quality && Before(representation.contentType, selected.value.contentType)));
      BestSoFar(
        if better then Some(representation) else selected, if better then itsQuality else quality,
        seen + {representation.contentType}, ranges)
  {
    hide HasQuality, Before;
    var added := representation.contentType;
    forall q: nat | HasQuality(added, q, ranges) ensures q == itsQuality {
      QualityIsUnique(added, q, itsQuality, ranges);
    }
    if selected.Some? {
      var best := selected.value.contentType;
      BeforeIsTotal(best, added);
      forall other | Before(best, other) && Before(added, best) ensures Before(added, other) {
        BeforeIsTransitive(added, best, other);
      }
    }
  }

  method Select(representations: seq<Candidate>, ranges: seq<Candidate>) returns (selected: Option<Candidate>)
    requires forall r :: r in representations ==> r in ranges
    requires forall r :: r in ranges ==> exists other :: other in representations && other.contentType == r.contentType
    requires forall i, j :: 0 <= i < j < |representations| ==>
      representations[i].contentType != representations[j].contentType
    ensures selected.Some? ==>
      && selected.value in ranges
      && exists quality :: IsSelected(selected.value.contentType, quality, SetOf(ranges))
    ensures selected.None? ==> NothingAcceptable(SetOf(ranges))
  {
    hide Before, HasQuality;
    ghost var all := SetOf(ranges);
    ghost var seen: set<string> := {};
    selected := None;
    var selectedQuality := 0;
    for i := 0 to |representations|
      invariant BestSoFar(selected, selectedQuality, seen, all)
      invariant forall contentType :: contentType in seen <==>
        exists j :: 0 <= j < i && representations[j].contentType == contentType
    {
      var representation := representations[i];
      var quality, matched := QualityForRepresentation(representation.contentType, ranges);
      assert representation in representations;
      MatchesItself(representation, ranges);
      BestExtends(selected, selectedQuality, seen, all, representation, quality);
      if matched && quality != 0 {
        if selected.None? {
          selected, selectedQuality := Some(representation), quality;
        } else {
          var replace := quality > selectedQuality;
          if quality == selectedQuality {
            replace := Before(representation.contentType, selected.value.contentType);
          }
          if replace {
            selected, selectedQuality := Some(representation), quality;
          }
        }
      }
      seen := seen + {representation.contentType};
    }
    forall contentType | Offered(contentType, all) ensures contentType in seen {
      var range :| range in all && range.contentType == contentType;
      var other :| other in representations && other.contentType == contentType;
      var j :| 0 <= j < |representations| && representations[j] == other;
    }
    if selected.Some? {
      assert IsSelected(selected.value.contentType, selectedQuality, all);
    }
  }

  lemma MatchesItself(representation: Candidate, ranges: seq<Candidate>)
    requires representation in ranges
    ensures exists range :: range in ranges && Matches(range, representation.contentType)
  {
    assert Matches(representation, representation.contentType);
  }

  // The header.

  datatype Negotiated = Negotiated(mediaType: MediaType, contentType: string, varyAccept: bool)

  datatype Result = Chosen(media: Negotiated) | LimitExceeded | NotAcceptable

  /** The candidates among the parts of a header. */
  ghost predicate IsCandidate(candidate: Candidate, parts: seq<string>, negotiator: Negotiator, library: Library) {
    exists part :: part in parts && ClassifiesPart(candidate, part, negotiator, library)
  }

  ghost predicate ClassifiesPart(candidate: Candidate, part: string, negotiator: Negotiator, library: Library) {
    && library.parse(part).Some?
    && Acceptable(negotiator, library, library.parse(part).value)
    && Classifies(candidate, negotiator, library, library.parse(part).value)
  }

  lemma ClassificationIsUnique(
    first: Candidate, second: Candidate, part: string, negotiator: Negotiator, library: Library)
    requires ClassifiesPart(first, part, negotiator, library) && ClassifiesPart(second, part, negotiator, library)
    ensures first == second
  {
    hide StrictlySorted, Elements, Acceptable, QualityOf, ParameterURIs;
    var range := library.parse(part).value;
    if !IsWildcard(range.name) {
      SortedIsUnique(first.mediaType.extensions, second.mediaType.extensions);
      SortedIsUnique(first.mediaType.profiles, second.mediaType.profiles);
    }
  }

  /** The loop of `NegotiateAccept` that collects ranges and distinct representations. */
  method CollectCandidates(parts: seq<string>, negotiator: Negotiator, library: Library)
    returns (ranges: seq<Candidate>, representations: seq<Candidate>)
    ensures forall c :: c in ranges <==> IsCandidate(c, parts, negotiator, library)
    ensures forall r :: r in representations ==> r in ranges
    ensures forall r :: r in ranges ==> exists other :: other in representations && other.contentType == r.contentType
    ensures forall i, j :: 0 <= i < j < |representations| ==>
      representations[i].contentType != representations[j].contentType
  {
    hide Acceptable, Classifies;
    ranges, representations := [], [];
    var seen: set<string> := {};
    for i := 0 to |parts|
      invariant forall c :: c in ranges <==> exists j :: 0 <= j < i && ClassifiesPart(c, parts[j], negotiator, library)
      invariant forall r :: r in representations ==> r in ranges
      invariant forall r :: r in ranges ==> r.contentType in seen
      invariant forall t :: t in seen <==> exists j :: 0 <= j < |representations| && representations[j].contentType == t
      invariant forall j, k :: 0 <= j < k < |representations| ==>
        representations[j].contentType != representations[k].contentType
    {
      var candidate := ParseCandidate(negotiator, library, parts[i]);
      if candidate.None? {
        continue;
      }
      ghost var before := ranges;
      ranges := ranges + [candidate.value];
      forall c ensures c in ranges <==> exists j :: 0 <= j < i + 1 && ClassifiesPart(c, parts[j], negotiator, library) {
        if ClassifiesPart(c, parts[i], negotiator, library) {
          ClassificationIsUnique(c, candidate.value, parts[i], negotiator, library);
        }
        assert c in ranges <==> c in before || c == candidate.value;
      }
      if candidate.value.contentType !in seen {
        ghost var earlier := representations;
        seen := seen + {candidate.value.contentType};
        representations := representations + [candidate.value];
        assert representations[|earlier|] == candidate.value;
        assert forall j :: 0 <= j < |earlier| ==> representations[j] == earlier[j];
      }
    }
    forall r | r in ranges ensures exists other :: other in representations && other.contentType == r.contentType {
      var j :| 0 <= j < |representations| && representations[j].contentType == r.contentType;
      assert representations[j] in representations;
    }
    forall c ensures c in ranges <==> IsCandidate(c, parts, negotiator, library) {
    }
  }

  method ParseCandidate(negotiator: Negotiator, library: Library, part: string) returns (candidate: Option<Candidate>)
    ensures candidate.Some? ==> ClassifiesPart(candidate.value, part, negotiator, library)
    ensures candidate.None? ==> forall c :: !ClassifiesPart(c, part, negotiator, library)
  {
    hide Acceptable, Classifies;
    var range := library.parse(part);
    if range.None? {
      return None;
    }
    candidate := AcceptCandidate(negotiator, library, range.value);
  }

  /** The candidates of a header, whatever the order in which it lists them. */
  ghost predicate AreCandidates(ranges: set<Candidate>, header: string, negotiator: Negotiator, library: Library) {
    forall c :: c in ranges <==> IsCandidate(c, Segments(Plain, header), negotiator, library)
  }

  /** Headers that are refused for their size. */
  predicate OverLimit(header: string, negotiator: Negotiator, library: Library) {
    || |header| > negotiator.limits.maxHeaderBytes
    || (!library.blank(header) && |Segments(Plain, header)| > negotiator.limits.maxAcceptCandidates)
  }

  ghost predicate IsOffer(media: Negotiated, negotiator: Negotiator, library: Library) {
    && media.contentType == library.format(media.mediaType)
    && media.varyAccept == (negotiator.extensions != {} || negotiator.profiles != {})
    && (forall uri :: uri in media.mediaType.extensions ==> uri in negotiator.extensions)
    && forall uri :: uri in media.mediaType.profiles ==> uri in negotiator.profiles
  }

  /** What `NegotiateAccept` has to answer; `ranges` are the candidates of a header that is looked into. */
  ghost predicate Answers(
    result: Result, header: string, negotiator: Negotiator, library: Library, ranges: set<Candidate>)
  {
    && (result.LimitExceeded? <==> OverLimit(header, negotiator, library))
    && (result.Chosen? ==> IsOffer(result.media, negotiator, library))
    && (!result.LimitExceeded? && library.blank(header) ==>
          result.Chosen? && result.media.mediaType == PLAIN_MEDIA_TYPE)
    && (!result.LimitExceeded? && !library.blank(header) ==> AreCandidates(ranges, header, negotiator, library))
    && (!library.blank(header) && result.NotAcceptable? ==> NothingAcceptable(ranges))
    && (!library.blank(header) && result.Chosen? ==>
          exists quality :: IsSelected(result.media.contentType, quality, ranges))
  }

  /** `NegotiateAccept`. */
  method NegotiateAccept(header: string, negotiator: Negotiator, library: Library)
    returns (result: Result, ghost ranges: set<Candidate>)
    ensures Answers(result, header, negotiator, library, ranges)
  {
    hide IsCandidate, NothingAcceptable, IsSelected;
    var vary := negotiator.extensions != {} || negotiator.profiles != {};
    ranges := {};
    if |header| > negotiator.limits.maxHeaderBytes {
      return LimitExceeded, ranges;
    }
    if library.blank(header) {
      return Chosen(Negotiated(PLAIN_MEDIA_TYPE, library.format(PLAIN_MEDIA_TYPE), vary)), ranges;
    }
    var candidates := SplitHeaderValues(header);
    if |candidates| > negotiator.limits.maxAcceptCandidates {
      return LimitExceeded, ranges;
    }
    var collected, representations := CollectCandidates(candidates, negotiator, library);
    ranges := SetOf(collected);
    var selected := Select(representations, collected);
    if selected.None? {
      return NotAcceptable, ranges;
    }
    OnlySupported(selected.value, candidates, negotiator, library);
    return Chosen(Negotiated(selected.value.mediaType, selected.value.contentType, vary)), ranges;
  }

  lemma OnlySupported(candidate: Candidate, parts: seq<string>, negotiator: Negotiator, library: Library)
    requires IsCandidate(candidate, parts, negotiator, library)
    ensures candidate.contentType == library.format(candidate.mediaType)
    ensures forall uri :: uri in candidate.mediaType.extensions ==> uri in negotiator.extensions
    ensures forall uri :: uri in candidate.mediaType.profiles ==> uri in negotiator.profiles
  {
    hide StrictlySorted, ParameterURIs, QualityOf, QualityIsSound;
    var part :| part in parts && ClassifiesPart(candidate, part, negotiator, library);
    if !IsWildcard(library.parse(part).value.name) {
      forall uri | uri in candidate.mediaType.extensions ensures uri in negotiator.extensions {
        assert uri in Elements(candidate.mediaType.extensions);
      }
      forall uri | uri in candidate.mediaType.profiles ensures uri in negotiator.profiles {
        assert uri in Elements(candidate.mediaType.profiles);
      }
    }
  }

  lemma SamePartsSameCandidates(
    first: string, second: string, negotiator: Negotiator, library: Library,
    firstRanges: set<Candidate>, secondRanges: set<Candidate>)
    requires forall part :: part in Segments(Plain, first) <==> part in Segments(Plain, second)
    requires AreCandidates(firstRanges, first, negotiator, library)
    requires AreCandidates(secondRanges, second, negotiator, library)
    ensures firstRanges == secondRanges
  {
    hide ClassifiesPart, Segments;
    forall c ensures c in firstRanges <==> c in secondRanges {
    }
  }

  /** The same content type is chosen, or none. */
  predicate SameChoice(first: Result, second: Result) {
    if first.Chosen? && second.Chosen?
    then first.media.contentType == second.media.contentType && first.media.varyAccept == second.media.varyAccept
    else first.NotAcceptable? && second.NotAcceptable?
  }

  lemma SameCandidatesSameChoice(first: Result, second: Result, ranges: set<Candidate>)
    requires !first.LimitExceeded? && !second.LimitExceeded?
    requires first.NotAcceptable? ==> NothingAcceptable(ranges)
    requires second.NotAcceptable? ==> NothingAcceptable(ranges)
    requires first.Chosen? ==> exists quality :: IsSelected(first.media.contentType, quality, ranges)
    requires second.Chosen? ==> exists quality :: IsSelected(second.media.contentType, quality, ranges)
    ensures first.Chosen? <==> second.Chosen?
    ensures first.Chosen? && second.Chosen? ==> first.media.contentType == second.media.contentType
  {
    hide IsSelected, NothingAcceptable;
    if first.Chosen? {
      var quality :| IsSelected(first.media.contentType, quality, ranges);
      SelectionIsUnique(first.media.contentType, quality, first.media.contentType, quality, ranges);
      if second.Chosen? {
        var other :| IsSelected(second.media.contentType, other, ranges);
        SelectionIsUnique(first.media.contentType, quality, second.media.contentType, other, ranges);
      }
    } else if second.Chosen? {
      var quality :| IsSelected(second.media.contentType, quality, ranges);
      SelectionIsUnique(second.media.contentType, quality, second.media.contentType, quality, ranges);
    }
  }

  /**
    Two headers that list the same parts, in any order and any number of times, get the same answer,
    unless the repetitions make one of them too long. A header of white space alone is a case of its
    own: it asks for nothing, while two of its parts ask for something unknown.
   */
  lemma OrderAndRepetitionDoNotMatter(
    first: string, second: string, negotiator: Negotiator, library: Library,
    firstResult: Result, firstRanges: set<Candidate>, secondResult: Result, secondRanges: set<Candidate>)
    requires forall part :: part in Segments(Plain, first) <==> part in Segments(Plain, second)
    requires Answers(firstResult, first, negotiator, library, firstRanges)
    requires Answers(secondResult, second, negotiator, library, secondRanges)
    ensures (library.blank(first) <==> library.blank(second)) ==>
      (SameChoice(firstResult, secondResult) <==>
        !OverLimit(first, negotiator, library) && !OverLimit(second, negotiator, library))
  {
    hide IsSelected, NothingAcceptable, AreCandidates, OverLimit, Segments;
    if !firstResult.LimitExceeded? && !secondResult.LimitExceeded? && !library.blank(first) && !library.blank(second) {
      SamePartsSameCandidates(first, second, negotiator, library, firstRanges, secondRanges);
      SameCandidatesSameChoice(firstResult, secondResult, firstRanges);
    }
  }

  /** A blank header accepts the plain media type; a comma between blanks makes it accept nothing. */
  lemma BlankHeadersDiffer(
    first: string, second: string, negotiator: Negotiator, library: Library,
    firstResult: Result, firstRanges: set<Candidate>, secondResult: Result, secondRanges: set<Candidate>)
    requires library.blank(first) && !library.blank(second)
    requires forall part :: part in Segments(Plain, second) ==> library.parse(part).None?
    requires !OverLimit(first, negotiator, library) && !OverLimit(second, negotiator, library)
    requires Answers(firstResult, first, negotiator, library, firstRanges)
    requires Answers(secondResult, second, negotiator, library, secondRanges)
    ensures firstResult.Chosen? && secondResult.NotAcceptable?
  {
    hide OverLimit, Segments, IsOffer;
    assert forall c :: !IsCandidate(c, Segments(Plain, second), negotiator, library);
    assert forall contentType, quality: nat :: !IsSelected(contentType, quality, secondRanges);
  }

  // Candidates by the names of their ranges.

  /** How specific the name of a range is: anything, any application type, or JSON:API itself. */
  function Kind(name: string): nat {
    match name
    case "*/*" => 0
    case "application/*" => 1
    case _ => 2
  }

  ghost function SupportedParameters(candidate: Candidate): set<string> {
    (if candidate.mediaType.extensions != [] then {"ext"} else {})
    + (if candidate.mediaType.profiles != [] then {"profile"} else {})
  }

  /** A range with a narrower name is more specific; among JSON:API ranges, one with more parameters is. */
  lemma SpecificityOnNames(
    first: Candidate, firstRange: MediaRange, second: Candidate, secondRange: MediaRange,
    negotiator: Negotiator, library: Library)
    requires Classifies(first, negotiator, library, firstRange) && Classifies(second, negotiator, library, secondRange)
    ensures first.specificity < second.specificity <==>
      || Kind(firstRange.name) < Kind(secondRange.name)
      || (Kind(firstRange.name) == Kind(secondRange.name) == 2
          && |SupportedParameters(first)| < |SupportedParameters(second)|)
  {
    hide QualityOf, QualityIsSound, IsUniqueSorted, ParameterURIs;
    CountedParameters(first);
    CountedParameters(second);
  }

  lemma CountedParameters(candidate: Candidate)
    ensures |SupportedParameters(candidate)| == ParameterCount(candidate.mediaType)
  {
    assert "ext" != "profile";
    assert |{"ext", "profile"}| == 2;
    assert {"ext"} + {"profile"} == {"ext", "profile"};
    assert {"ext"} + {} == {"ext"} && {} + {"profile"} == {"profile"};
  }

  /** Which ranges take part, by their names and parameters. */
  lemma RangesOnNames(negotiator: Negotiator, library: Library, range: MediaRange)
    ensures Acceptable(negotiator, library, range) <==>
      && ("q" in range.parameters ==> IsQuality(range.parameters["q"]))
      && if range.name == "*/*" || range.name == "application/*" then
           forall parameter :: parameter in range.parameters ==> parameter == "q"
         else
           && range.name == "application/vnd.api+json"
           && (forall parameter :: parameter in range.parameters ==>
                 parameter == "q" || parameter == "ext" || parameter == "profile")
           && ("ext" in range.parameters ==>
                 && ListsURIs(range.parameters["ext"], negotiator.limits, library)
                 && forall uri :: uri in Split(range.parameters["ext"], ' ') ==> uri in negotiator.extensions)
           && ("profile" in range.parameters ==> ListsURIs(range.parameters["profile"], negotiator.limits, library))
  {
    hide IsQuality, IsURIList, ListsURIs, ListedURIs, Split;
    KeysOnNames(range.parameters);
    if "ext" in range.parameters {
      ListedOnText(range.parameters["ext"], negotiator.limits, library);
      ListedElements(range.parameters["ext"], negotiator.extensions);
    }
    if "profile" in range.parameters {
      ListedOnText(range.parameters["profile"], negotiator.limits, library);
    }
  }

  lemma KeysOnNames(parameters: map<string, string>)
    ensures parameters.Keys <= {"q"} <==> forall parameter :: parameter in parameters ==> parameter == "q"
    ensures parameters.Keys <= {"q", "ext", "profile"} <==> forall parameter :: parameter in parameters ==>
      parameter == "q" || parameter == "ext" || parameter == "profile"
  {
  }

  lemma ListedElements(text: string, supported: set<string>)
    ensures ListedURIs(text) <= supported <==> forall uri :: uri in Split(text, ' ') ==> uri in supported
  {
    hide Split;
    assert forall uri :: uri in ListedURIs(text) <==> uri in Split(text, ' ');
  }

  /** Absolute URIs with one space between any two of them. */
  ghost predicate ListsURIs(text: string, limits: Limits, library: Library) {
    exists uris :: text == Join(uris, ' ') && AreListed(uris, limits, library)
  }

  ghost predicate AreListed(uris: seq<string>, limits: Limits, library: Library) {
    && 1 <= |uris| <= limits.maxParameterURIs
    && forall uri :: uri in uris ==>
         ' ' !in uri && 1 <= |uri| <= limits.maxURIBytes && library.absoluteURI(uri)
  }

  lemma ListedOnText(text: string, limits: Limits, library: Library)
    ensures IsURIList(text, limits, library) <==> ListsURIs(text, limits, library)
  {
    hide Split, Join;
    var items := Split(text, ' ');
    assert text == Join(items, ' ');
    if IsURIList(text, limits, library) {
      assert AreListed(items, limits, library);
    }
    if ListsURIs(text, limits, library) {
      var uris :| text == Join(uris, ' ') && AreListed(uris, limits, library);
      SplitOfJoin(uris, ' ');
      NotBlank(uris, ' ');
    }
  }

  lemma NotBlank(uris: seq<string>, separator: char)
    requires uris != [] && uris[0] != ""
    ensures Join(uris, separator) != ""
  {
  }

  // With all three kinds of range in one header, the JSON:API range governs its own type, then the application range.
  lemma MostSpecificGoverns(
    any: Candidate, application: Candidate, own: Candidate, negotiator: Negotiator, library: Library,
    anyRange: MediaRange, applicationRange: MediaRange, ownRange: MediaRange, quality: nat)
    requires anyRange.name == "*/*" && applicationRange.name == "application/*"
    requires ownRange.name == "application/vnd.api+json"
    requires Classifies(any, negotiator, library, anyRange)
    requires Classifies(application, negotiator, library, applicationRange)
    requires Classifies(own, negotiator, library, ownRange)
    ensures HasQuality(own.contentType, quality, {any, application, own}) <==> quality == own.quality
    ensures HasQuality(any.contentType, quality, {any, application}) <==> quality == application.quality
    ensures HasQuality(any.contentType, quality, {any}) <==> quality == any.quality
  {
    SpecificityOnNames(any, anyRange, application, applicationRange, negotiator, library);
    SpecificityOnNames(application, applicationRange, own, ownRange, negotiator, library);
    hide Classifies;
    assert "*/*" != "application/*" && "application/vnd.api+json" != "application/*";
    assert Matches(own, own.contentType);
    OnlyGovernor(own, {any, application, own}, own.contentType);
    OnlyGovernor(application, {any, application}, any.contentType);
    OnlyGovernor(any, {any}, any.contentType);
  }

  lemma OnlyGovernor(governor: Candidate, ranges: set<Candidate>, contentType: string)
    requires governor in ranges && Matches(governor, contentType)
    requires forall other :: other in ranges && other != governor ==> other.specificity < governor.specificity
    ensures forall quality :: HasQuality(contentType, quality, ranges) <==> quality == governor.quality
  {
    assert Governs(governor, ranges, contentType);
  }
}
