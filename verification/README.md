# JSON:API 1.1 library: verified model

This project models the algorithms of a Go library for JSON:API 1.1 documents and proves what they
promise. The library reads and writes documents, validates their identity graph, runs the Atomic
Operations extension inside an application's transaction, parses query parameters, paginates with
cursors and negotiates media types. Everything here is about those algorithms; nothing depends on
I/O. `dafny verify dfyconfig.toml` checks the whole project.

## How the model is built

Loops, map and slice updates, and objects with mutable state are methods and classes; the functions
they are proved against carry the theorems. Go's arbitrary map order is a nondeterministic choice
(`:|`) in every loop over a map. Strings are sequences of bytes, one per character, so lengths are
byte lengths. A JSON text is a tree with ordered member lists (`Scanner.Node`), so duplicates can be
expressed; after the duplicate check an object is a map (`Documents.Tree`).

Where a function follows the code branch by branch, a lemma says what it computes in other terms: on
the fields of the document (`…OnFields`), on printed names (`…OnNames`) or on the text (`…OnText`).

- *Codec* (`scanner`, `registry`, `decoder`, `encoder`, `codec_steps`, `member_codec`,
  `member_codec_steps`, `unmarshal`): the token scanner with its four budgets, the core decoders, the
  `MarshalJSON` methods read as encoders, and the configured codec that takes registered members out,
  decodes the rest and puts them back. What a tree says and how a document is written is stated
  independently in `json_paths`, `reading` and `wire_form`. The theorems are in `roundtrip` (encode then
  decode gives what the wire form carries), `normalised` (when that is the document itself), `retraction`
  (decode, encode, decode), `presence` (what each decoded member says about the object it was read from),
  `two_pass` (extract and reattach equals a decoder that keeps the members in place), `containers` and
  `at_containers` (what the sanitizers demand of containers that decoding ignores, of a tree and of a
  document), `acceptance` (what the member checks of `Marshal` guarantee), `configured_codec` (write, then
  read, with one codec, from document to text and back), `link_depth` (what is written and too deep to be
  read) and `codec_limits` (inputs that need the conditions).
- *Identity graph* (`identity_fields`, `identity`, `linkage`, `local_identity`, `link_walk`,
  `document_walk`): alias keys, duplicate resources, reachability from primary data, consistency of local
  ids, and the `describedby` walks over a heap that may be cyclic, for one link and for all links of a
  document.
- *Atomic Operations* (`atomic`, `atomic_execute`): resolution of local identifiers in document order,
  correspondence of results, and the transaction driver under failing and panicking callbacks and
  cancellation, over a store that stages, publishes and discards.
- *Queries* (`query_limits`, `query_grammar`, `query`, `query_places`, `cursor`): limit sums, exact
  parsers and printers, whole-query parsing, and admission by remaining budgets.
- *Recognisers* (`header_values`, `quoting`, `negotiation`, `uri`, `json_pointer`, `member_names`,
  `text`).

## Where the code is not what one would expect

Each of these is kept as the code has it and shown by a lemma with an input; the theorem it touches
states the exact condition under which the code does what one would expect.

- A link written as a bare string loses its relation (`RelationOfStringLinkIsLost`), as every link that
  is not an object loses title, type and the other fields, and a hreflang without a tag gains one
  (`ZeroHreflangGainsATag`). The canonical form of `DocumentReadsBack` has these losses in it;
  `DocumentReturns` compares with the document itself and holds iff it conforms and every link
  `KeepsFields`.
- An extension value behind `describedby` comes back as a link (`ExtensionBehindDescribedByIsReread`); it
  does not conform.
- A link object read without `href` is written with an empty one (`MissingHrefIsInvented`);
  `DecodingIsARetraction` holds iff every link object has an `href`, which validation demands.
- A null in a string array is read as the empty string although the documentation of decoding speaks of
  refusing null for string members; an array is written as it was read iff it holds no null
  (`NullElementsReadAsEmpty`).
- Containers with an `@` name are skipped by decoding but entered by the configured codec
  (`AtRelationshipIsRefused`, `CodecRefusesItsOwnNote`); `TwoPassesAreOnePass` and `ConfiguredRoundTrip`
  hold iff these containers pass, which is said of the tree and of the document.
- `Marshal` shows validators a value with its `@` members and `Unmarshal` without
  (`ValidatorsSeeLessOnReading`); `ConformsDocument` asks for acceptance of the stripped value.
- A chain of 62 to 64 descriptors can be written and not read under the default limits
  (`AcceptedChainsAreTooDeepToRead`).
- A link that describes itself passes document validation under an `@` name (`CyclicNote`); only the
  member checks keep it from the encoder (`CheckThenMarshal`).
- Which parameter a limit refusal of a query names depends on map order (`TwoNamesTwoReports`);
  `ReportsAreExact` says which names are possible and `AnswersAreUnique` that nothing else depends on it.
- The same header parts can be refused when they are repeated beyond a limit
  (`OrderAndRepetitionDoNotMatter` holds iff neither header exceeds one).
- A type with a NUL byte could collide with another resource (`NulTypesCollide`); valid types have none.
- A bracketed host may contain percent signs, as an encoded octet of an address of a future version
  (`EncodedFutureLiteralIsAccepted`) or where the library's address parser admits an IPv6 zone; apart
  from that the recogniser is that of RFC 3986 (`StrictReferences`).

## Model

| member | source | states |
|---|---|---|
| Scanner.ScanAcceptsExactlyAdmissible | codec.go:191-270 | on the tokens of any JSON tree the scan succeeds iff value count, nesting, member and item counts are within limits and every object at every depth has distinct names; then it consumes exactly that tree's tokens and counts exactly its values |
| Scanner.ScanDecides | codec.go:196-270 | the same for a value read at any depth after any number of other values, with any tokens behind it |
| Scanner.Scan | codec.go:196-270 | the recursive scan computes the scan function on every token stream, well formed or not, updating decoder position and value budget; its measure is the nesting budget left, which bounds the recursion |
| Scanner.ScanObject | codec.go:221-246 | the object branch: member budget, duplicate refusal through the growing set of names, closing brace |
| Scanner.ScanArray | codec.go:247-265 | the array branch: item budget before each item, closing bracket |
| Unmarshalling.Unmarshal | member_codec.go:210-308 | computes `Read`: it succeeds iff the scan admits the text, its ignored containers are well formed, the one-pass decoder accepts it and validation does; the result is the one-pass decoding, which `ReadingIsMeaning` describes member by member |
| Unmarshalling.EmittedReadsBack | document.go:64-99 | every tree is the meaning of a duplicate-free text, with its members in an order of the writer's choice |
| Unmarshalling.EveryEncodingHasAText | member_codec.go:1068-1107 | what is encoded can be written as a text that the duplicate check lets through |
| Unmarshalling.MeaningOfTexts | codec.go:122-174 | the tree of a text has its items in order and, under each name, the value of the member of that name |
| Unmarshalling.ReadingIsMeaning | member_codec.go:210-308 | for every text, `Unmarshal` gives a document iff the scan admits the text, ignored containers are well formed, the document is valid and the tree says that document: known members under their names, other values found along every path without an `@` name, registered members in their scopes, unknown members without influence |
| Registries.StripRemovesEveryAtMember | codec.go:855-872 | stripping leaves no `@` member at any depth, and changes a value iff it had one; what it keeps is told by `JSONPaths` |
| Registries.StripMembersRemovesEveryAtMember | codec.go:409-423 | the same for the member maps of attributes and meta |
| JSONPaths.StripKeepsTheRest | codec.go:855-872 | along every path of names and indices, the stripped value is found iff the path has no `@` name and the value is found there, with the same scalar, or an array of the same length, or an object |
| JSONPaths.PrunedIsStripped | codec.go:855-872 | the stripped value is the only one with that property |
| JSONPaths.PrunedMembersAreStripped | codec.go:409-423 | the same for the members of attributes and meta |
| JSONPaths.AnnotatedAddress | codec.go:409-423 | of an address with an `@type`, the city remains |
| CodecSteps.Strip | codec.go:855-872 | the recursive in-place removal computes the stripped value, the one `JSONPaths.PrunedIsStripped` describes |
| CodecSteps.DiscardUnknown | codec.go:821-832 | the map keeps exactly the allowed members |
| CodecSteps.DecodeOneIdentifier | codec.go:513-547 | decodes exactly as the identifier specification, missing and null members included |
| CodecSteps.DecodeLinkage | codec.go:478-511 | null, one and many linkage decode to three different values; the first refused item refuses the whole |
| CodecSteps.DecodeOneLink | codec.go:570-653 | strings, null and objects, with the recursive `describedby` level, decode as specified |
| CodecSteps.DecodeLinkMap | codec.go:549-568 | every non-`@` entry is decoded, in whatever order, and one refusal refuses the map |
| CodecSteps.DecodeOneRelationship | codec.go:445-476 | links, data and meta are filled in one after the other as specified |
| CodecSteps.DecodeRelationshipMap | codec.go:425-443 | `@` names are skipped, all others decoded |
| CodecSteps.DecodeOneResource | codec.go:352-407 | type, identity, attributes, relationships, links and meta decode as specified |
| CodecSteps.DecodeResourceArray | codec.go:334-350 | resource i is decoded from item i |
| CodecSteps.DecodePrimary | codec.go:307-332 | null, one resource and a collection stay apart |
| CodecSteps.DecodeOneError | codec.go:696-747 | all error members and the error source decode as specified |
| CodecSteps.DecodeErrorArray | codec.go:678-694 | error i is decoded from item i |
| CodecSteps.DecodeImplementation | codec.go:272-305 | version, ext, profile and meta decode as specified |
| CodecSteps.DecodeTopLevel | codec.go:122-174 | the core decoder equals the one-pass decoder with an empty registry |
| Reading.DocumentIsRead | codec.go:122-174 | every tree decodes as a document iff it says that document, member by member under literal names; otherwise it is refused |
| Reading.ResourceIsRead | codec.go:352-407 | the same for a resource |
| Reading.RelationshipIsRead | codec.go:445-476 | the same for a relationship |
| Reading.RelationshipsAreRead | codec.go:425-443 | the same for a relationships object: the relationships are those under names without `@` |
| Reading.LinkIsRead | codec.go:570-653 | the same for a link: null, a string, or an object whose descriptor is a link in turn; anything else is refused |
| Reading.LinksAreRead | codec.go:549-568 | the same for a links object: an extension value under a registered name, a link under every other name without `@` |
| Reading.IdentifierIsRead | codec.go:513-547 | the same for an identifier |
| Reading.LinkageIsRead | codec.go:478-511 | the same for linkage: null, an identifier, or an array of identifiers in order |
| Reading.PrimaryDataIsRead | codec.go:307-332 | the same for primary data: null, a resource, or an array of resources in order |
| Reading.JSONAPIIsRead | codec.go:272-305 | the same for the implementation object |
| Reading.ErrorIsRead | codec.go:696-747 | the same for an error |
| Reading.ErrorSourceIsRead | codec.go:749-777 | the same for an error source |
| Reading.ObjectIsRead | codec.go:409-423 | attributes and meta are objects, kept along every path without an `@` name |
| Reading.RegisteredAreRead | member_codec.go:705-736 | the additional members of an object are exactly its members registered for the scope, pruned and all acceptable |
| Reading.UnknownMemberIsIgnored | codec.go:821-832 | a top-level member that is neither defined nor registered changes nothing |
| Reading.OtherLinksAreRefused | codec.go:570-580 | a number, a boolean or an array as a link makes its links object unreadable |
| RoundTrip.DocumentReadsBack | document.go:64-99 | encode then decode gives the canonical document iff the document conforms to the registry; canonical means what the wire form carries: presence bits normalised, `@` members gone, and of a link that is not an object only what it is written from |
| RoundTrip.ResourceReadsBack | document.go:212-249 | the same equivalence for a resource, up to the canonical form of its links |
| RoundTrip.RelationshipReadsBack | document.go:388-409 | the same equivalence for a relationship, up to the canonical form of its links |
| RoundTrip.RelationshipsReadBack | codec.go:425-443 | the same for relationship maps, where `@` names are written but not read; up to the canonical form of links |
| RoundTrip.LinkReadsBack | document.go:604-653 | a link comes back as its canonical form iff it conforms, by recursion through `describedby`; the canonical form of a string or null link has no other field |
| RoundTrip.LinksReadBack | codec.go:549-568 | the same for links objects with extension values, again up to the canonical form |
| RoundTrip.IdentifierReadsBack | document.go:296-315 | the same equivalence for an identifier |
| RoundTrip.RelationshipDataReadsBack | document.go:449-458 | null, one and many linkage come back as such |
| RoundTrip.JSONAPIReadsBack | document.go:132-159 | the same equivalence for the implementation object |
| RoundTrip.ErrorReadsBack | document.go:729-760 | the same equivalence for an error, up to the canonical form of its links |
| RoundTrip.ErrorSourceReadsBack | document.go:807-819 | the same equivalence for an error source |
| RoundTrip.FieldReadsBack | document.go:823-828 | an explicit empty string survives, an absent one stays absent |
| RoundTrip.HreflangReadsBack | document.go:641-653 | scalar and array forms stay apart; the zero form comes back as the empty scalar |
| RoundTrip.AdditionalReadBack | member_codec.go:1068-1107 | what was merged beside the core members is extracted again iff all of it is registered and acceptable |
| WireForm.DocumentIsWritten | document.go:64-99 | a document is written as a tree iff the tree has, for every name, the member the fields demand, and no other; an additional member with the name of a written core member prevents it |
| WireForm.ResourceIsWritten | document.go:212-249 | the same for a resource |
| WireForm.RelationshipIsWritten | document.go:388-409 | the same for a relationship |
| WireForm.LinkIsWritten | document.go:604-653 | the same for a link: extension value, null, string or object, with its descriptor |
| WireForm.LinksAreWritten | document.go:604-639 | the same for a links object, name by name |
| WireForm.IdentifierIsWritten | document.go:296-315 | the same for an identifier |
| WireForm.LinkageIsWritten | document.go:449-458 | the same for linkage |
| WireForm.JSONAPIIsWritten | document.go:132-159 | the same for the implementation object |
| WireForm.ErrorIsWritten | document.go:729-760 | the same for an error |
| WireForm.ErrorSourceIsWritten | document.go:807-819 | the same for an error source |
| Normalisation.DocumentReturns | document.go:64-99 | encode then decode returns the document itself, up to `@` members and presence bits and with every other field, iff it conforms and every link is written with all its fields |
| Normalisation.ResourceReturns | document.go:212-249 | the same equivalence for a resource |
| Normalisation.RelationshipReturns | document.go:388-409 | the same equivalence for a relationship |
| Normalisation.ErrorReturns | document.go:729-760 | the same equivalence for an error |
| Normalisation.LinkReturns | document.go:604-653 | a link returns with every field iff it conforms, no link that is not an object carries a field beside the one it is written from, and every scalar hreflang along `describedby` has exactly one tag |
| Normalisation.LinksReturn | codec.go:549-568 | the same for links objects |
| Normalisation.ConstructedLinksKeepFields | document.go:519-597 | string, null and extension links keep their fields as their constructors build them |
| Normalisation.ZeroHreflangGainsATag | document.go:641-653 | a hreflang without a tag comes back with the empty tag |
| Retraction.DecodingIsARetraction | codec.go:122-174 | for every accepted tree, re-encoding never fails and decode-encode-decode equals decode iff every decoded link object has an `href` |
| Retraction.EncodingIsInjective | document.go:64-99 | conforming documents with equal encodings have equal canonical forms |
| Retraction.DecodedDocumentsStayApart | codec.go:122-174 | two accepted trees are encoded alike after decoding iff they decode alike |
| Retraction.LinkSettled | document.go:604-639 | a decoded link is its own canonical form iff `href` is present at every level |
| Presence.DocumentPresence | codec.go:122-174 | each top-level member is found under its own name, and absent, null and empty are told apart |
| Presence.JSONAPIPresence | codec.go:272-305 | the same for version, ext, profile and meta; arrays element by element, where an empty string may have been a null |
| Presence.ResourcePresence | codec.go:352-407 | the same for a resource: absent and empty strings, and links and relationships that are absent, empty or hold nothing but `@` names |
| Presence.RelationshipPresence | codec.go:445-511 | absent, null and empty linkage are told apart |
| Presence.IdentifierPresence | codec.go:513-547 | type, id, lid and meta of an identifier, each under its own name |
| Presence.LinkPresence | codec.go:570-676 | every member of a link object, at each `describedby` level; scalar and array hreflang differ and hold the values of the source |
| Presence.ErrorPresence | codec.go:696-747 | every member of an error, each under its own name |
| Presence.ErrorSourcePresence | codec.go:749-777 | pointer, parameter and header of an error source |
| Presence.NamedPresence | codec.go:425-443 | each decoded relationship or link is the one under its own name, and `@` names decode to nothing |
| Presence.LinksPresence | codec.go:549-568 | decoded links are an empty map iff the object has no member without a leading `@`, and absent iff the member is |
| Presence.RelationshipsPresence | codec.go:425-443 | the same for relationships |
| MemberCodecSteps.ExtractByRules | member_codec.go:705-736 | the loop over the registered names, in any order, moves exactly the registered members out of the object and refuses iff a validator refuses one |
| MemberCodecSteps.Extract | member_codec.go:493-508 | the stripped object and the extracted members of one scope |
| MemberCodecSteps.SanitizeOneLinkObject | member_codec.go:464-491 | extraction at every `describedby` level |
| MemberCodecSteps.SanitizeLinkMap | member_codec.go:435-462 | links-object members and the link members of each entry, by name |
| MemberCodecSteps.SanitizeLinkage | member_codec.go:654-701 | identifier members by position |
| MemberCodecSteps.SanitizeOneRelationship | member_codec.go:600-652 | members, links and linkage of one relationship |
| MemberCodecSteps.SanitizeRelationshipMap | member_codec.go:600-652 | every relationship by name, `@` names included |
| MemberCodecSteps.SanitizeOneResource | member_codec.go:552-586 | members, relationships and links of one resource |
| MemberCodecSteps.SanitizeResourceArray | member_codec.go:525-550 | resource members by position |
| MemberCodecSteps.SanitizePrimary | member_codec.go:510-523 | single and collection data |
| MemberCodecSteps.SanitizeOneError | member_codec.go:365-417 | error, error links and error source |
| MemberCodecSteps.SanitizeTopLevel | member_codec.go:210-308 | all nine scopes of a document at once |
| MemberCodecSteps.AttachToLinks | member_codec.go:771-796 | extension values and link members land on the links they came from, recursively |
| MemberCodecSteps.AttachToLinkage | member_codec.go:798-815 | identifier j receives members j |
| MemberCodecSteps.AttachToResource | member_codec.go:757-769 | members, relationships and links of one resource receive their own state |
| MemberCodecSteps.AttachToPrimaryData | member_codec.go:738-755 | resource i receives state i |
| MemberCodecSteps.DecodeConfigured | member_codec.go:210-308 | extract, decode the stripped tree, reattach: equals the one-pass decoder that keeps registered members, or a refusal when an ignored container is malformed |
| TwoPass.TwoPassesAreOnePass | member_codec.go:210-308 | the same on the specification level, for every tree and every well-formed registry |
| TwoPass.ResourceInTwoPasses | member_codec.go:552-586 | no registered value of a resource is lost, copied or moved |
| TwoPass.RelationshipsInTwoPasses | member_codec.go:600-652 | the same for relationship maps, with the exact effect of `@` names |
| TwoPass.LinkInTwoPasses | member_codec.go:464-491 | the same for a link at every nesting level |
| TwoPass.LinksInTwoPasses | member_codec.go:435-462 | the same for links objects, whose extension values are taken out and put back by name |
| TwoPass.IdentifiersInTwoPasses | member_codec.go:654-685 | identifier j gets exactly the members of item j |
| TwoPass.ErrorInTwoPasses | member_codec.go:365-417 | the same for errors and error sources |
| Containers.LinkIsSanitized | member_codec.go:464-491 | a link passes the sanitizer iff every registered member of every object along its `describedby` chain is acceptable |
| Containers.LinksAreSanitized | member_codec.go:435-462 | a links object passes iff it is an object, its registered members are acceptable and every other entry passes |
| Containers.LinkageIsSanitized | member_codec.go:654-701 | linkage passes iff each identifier is an object with acceptable members; other shapes pass untouched |
| Containers.RelationshipIsSanitized | member_codec.go:609-652 | a relationship passes iff it is an object, its members are acceptable and its links and linkage pass |
| AtContainers.SaneDocumentIsPassing | member_codec.go:210-308 | of a conforming document, whether its encoding gets through the sanitizers is read off its `@` links and `@` relationships before it is written |
| AtContainers.CleanLinkIsPassing | member_codec.go:464-491 | the same for one link: an extension value by its own members, a link object by its additional members and its descriptor, an additional `describedby` included |
| AtContainers.CleanLinksArePassing | member_codec.go:435-462 | the same for a links object, where a link under a registered name is judged as the value it is written as |
| AtContainers.CleanRelationshipIsPassing | member_codec.go:609-652 | the same for a relationship, additional members named `links` and `data` included |
| Acceptance.AcceptedDocumentIsWritten | member_codec.go:1068-1107 | a document that passes the member checks is written at every depth: accepted names never collide with core members |
| Acceptance.AcceptedDocumentConforms | member_codec.go:817-908 | when validators do not look at `@` members and extension values stand in their places, what the member checks accept conforms and its `@` containers pass |
| ConfiguredCodec.ConfiguredRoundTrip | member_codec.go:186-308 | between text and text: writing and reading in two passes gives the canonical document iff it conforms and its `@` containers pass, and the document itself iff moreover its links keep their fields |
| ConfiguredCodec.UnmarshalReturns | member_codec.go:210-308 | for every text of the encoding, `Unmarshal` returns that document iff, besides, the scan admits the text and validation accepts the result |
| ConfiguredCodec.MarshalThenUnmarshal | member_codec.go:186-308 | every document the member checks accept can be written; an ordinary one is read from any text of it iff the scan admits the text and what decoding keeps is valid, and comes back itself iff its links keep their fields |
| ConfiguredCodec.AtExtensionIsRefused | member_codec.go:910-935 | an extension value under an `@` name can pass the member checks and be refused by the sanitizer |
| ConfiguredCodec.CodecRefusesItsOwnNote | member_codec.go:186-308 | the same at one registry and one document, which is accepted, conforms, is written and is refused by the codec that wrote it |
| ConfiguredCodec.ValidatorsSeeLessOnReading | member_codec.go:705-736 | a validator that asks for an `@` member accepts a value on writing and refuses it on reading |
| LinkDepth.AcceptedChainsAreTooDeepToRead | limits.go:8-16 | a document whose link has n descriptors is accepted iff n is at most 64; under the default limits each duplicate-free text of it is admitted iff n is at most 61, so 62 to 64 can be written and never read |
| LinkDepth.ChainText | codec.go:191-270 | whatever the order of members, each link of the chain takes one level and two values |
| LinkDepth.WriteChain | validation.go:610-664 | built with pointers on the heap, such a document passes both walks iff n is at most 64 and is then encoded |
| CodecLimits.RelationOfStringLinkIsLost | document.go:548-554 | `URI(href).WithRel(rel)` conforms, is written as a bare string and loses the relation; `KeepsFields` excludes it |
| CodecLimits.ExtensionBehindDescribedByIsReread | document.go:593-621 | an extension value behind `describedby` comes back as an ordinary link |
| CodecLimits.NullElementsReadAsEmpty | codec.go:847-853 | a string array is written as it was read iff it holds no null; a null is read as the empty string and every other element as itself |
| CodecLimits.NullsInAppliedURIs | codec.go:272-305 | the same for `ext` and `profile` of the implementation object |
| CodecLimits.NullsInHreflang | codec.go:655-676 | the same for the array form of hreflang |
| CodecLimits.MissingHrefIsInvented | document.go:615-627 | a link object without `href` gains an empty one when written and read again |
| CodecLimits.AtRelationshipIsRefused | member_codec.go:609-614 | an `@` relationship of the wrong shape is skipped by the core decoder and refused by a codec |
| CodecLimits.PlainResourceIsSane | codec.go:432-433 | without `@` names on links and relationships the two-pass condition always holds |
| Identity.FindDuplicates | validation.go:936-962 | a duplicate is reported for resource k iff an earlier resource shares an id or lid key, in document order, and the report names the canonical owner of the first known key |
| Identity.RecordKeys | validation.go:958-962 | each key maps to the first resource that has it |
| Identity.NoDuplicatesMeansDisjointAliases | validation.go:936-1005 | over NUL-free types, nothing is reported iff the alias sets of primary and included resources are pairwise disjoint |
| Identity.KeysAreInjective | validation.go:1126-1132 | for NUL-free types equal keys mean equal type, identity domain and text |
| Identity.NulTypesCollide | validation.go:1126-1132 | a type containing the separator collides with another resource |
| Identity.ValidTypesAreNulFree | validation.go:1152-1177 | a valid resource type contains no NUL |
| Identity.SharedKeysAreSharedAliases | validation.go:1134-1146 | sharing a key is sharing an alias |
| Identity.CheckDuplicates | validation.go:936-962 | on a document with plain types, a position is reported iff an earlier one has a resource with the same type and id, or the same type and lid; nothing is reported iff no position repeats one; the resource named is the first with the id, or with the lid when no id is repeated |
| Identity.PositionsAreIndices | validation.go:979-1005 | the list of all resources has primary data and then included resources, each position in its place |
| Identity.AliasesOnFields | validation.go:1134-1146 | the identities of a resource are its type with its id and with its lid, where given |
| Identity.NamedOnFields | validation.go:942-957 | which resource a report names, without keys |
| Linkage.CheckFullLinkage | validation.go:877-920 | with the sparse flag off the violations are exactly the included resources unreachable from primary data, in order; with it on, none; over plain types, unreachable means that no chain leads to it in which each resource has an identifier of the next, by id or else by lid, in the data of a relationship without `@` |
| Linkage.Traverse | validation.go:895-910 | the worklist ends on cyclic graphs, computes the reachable set and pops exactly the primary identifiers and the linkage of each reached resource once |
| Linkage.ReachedIsLeastClosed | validation.go:895-910 | chain reachability is the least set closed under linkage |
| Linkage.NamesMeansAlias | validation.go:1124-1150 | for NUL-free types an identifier names a resource iff the types agree and its id, or its lid when it has no id, is the resource's |
| Linkage.LinkageOnFields | validation.go:1101-1122 | an identifier is in the linkage of a resource iff some relationship without `@` has it as its to-one data or among its to-many data |
| Linkage.LinkageTimes | validation.go:1101-1122 | and as often: one relationship more adds one for a to-one identifier and the count of a to-many list |
| Linkage.PrimaryLinkageOnFields | validation.go:1082-1099 | primary linkage holds what some primary resource links |
| Linkage.PrimaryBagOnFields | validation.go:1082-1099 | and as often: that of the one resource, or of all of the collection together |
| Linkage.ReachedOnFields | validation.go:895-910 | over plain types, reached means linked by a chain on the fields |
| Linkage.RelationshipIdentifiers | validation.go:1101-1122 | the linkage collected from a map is the same multiset in every iteration order |
| Linkage.PrimaryLinkage | validation.go:1082-1099 | the linkage of all primary resources |
| Linkage.BuildIndex | validation.go:887-893 | every alias key leads to the included resources that have it |
| LocalIdentity.ValidateLocalIdentities | validation.go:1053-1080 | an observation is reported under its id, or its lid, iff the first observation under the same key has a different partner |
| LocalIdentity.CheckLocalIdentities | validation.go:936-977 | over NUL-free types, nothing is reported iff id and lid are in one-to-one correspondence within each type, over resources and linkage together; stated on the fields of the document as well |
| LocalIdentity.NoConflictIsCompatible | validation.go:1053-1080 | comparing with the first observation under a key finds a conflict iff some two observations disagree |
| LocalIdentity.ConsistentIsOneToOne | validation.go:1053-1080 | for NUL-free types, no conflict means a partial bijection between ids and lids |
| LocalIdentity.CollectLinkage | validation.go:1007-1051 | exactly the non-`@` linkage is observed |
| LocalIdentity.CollectObservations | validation.go:963-976 | every resource and its linkage is observed |
| LocalIdentity.ObservationsOnFields | validation.go:963-1051 | an identity is observed iff some resource of the document or some identifier it links carries it |
| LocalIdentity.LinkageObservationsOnFields | validation.go:1007-1051 | observed linkage is what the fields link |
| LocalIdentity.ViolationsOnFields | validation.go:1053-1080 | which observations are reported, by types, ids and lids instead of keys |
| LinkWalk.ValidateLinkAt | validation.go:614-664 | on every heap the walk ends, restores the ancestor set, reports at most one of limit and cycle, and reports nothing iff the chain ends in time with valid fields |
| LinkWalk.ValidateDescriptor | validation.go:634-650 | the step along the pointer: depth limit, ancestor test, recursion |
| LinkWalk.ValidateLink | validation.go:610-612 | a link is accepted iff its chain ends within 64 hops and every link on it is valid; otherwise the chain is reported once, as a cycle iff a cell repeats among its first 64 |
| LinkWalk.ValidateLinkStateMembersAt | member_codec.go:953-988 | the second walk has the same verdict on the same chain |
| LinkWalk.ValidateLinkStateMembers | member_codec.go:937-951 | accepted iff the chain ends within 64 hops with valid members all along |
| LinkWalk.ValidateScopedMembers | member_codec.go:1016-1052 | the set of violations added for a member map does not depend on iteration order |
| LinkWalk.VerdictIsExact | validation.go:634-650 | no finding iff the chain ends in time, a cycle iff a cell repeats within the limit, the limit otherwise |
| LinkWalk.EndingIsDistinct | validation.go:634-650 | a chain that ends visits no cell twice |
| LinkWalk.SoundChainOnFields | validation.go:614-664 | a chain is sound iff every link reached within the hops allowed has a URI reference and, where given, a valid relation, media type and language tags |
| LinkWalk.ReportsOnFields | validation.go:625-664 | which violation, at which path, each fault of a link is |
| LinkWalk.MemberReportsOnNames | member_codec.go:1016-1052 | which violation an additional member is: a bad `@` name, an unregistered name, a refused value |
| LinkWalk.MarshalLink | document.go:604-639 | encoding a chain that ends terminates and encodes the unfolded link |
| LinkWalk.ValidateThenMarshal | document.go:604-639 | a link is accepted by `validateLink` iff its chain ends in time with valid fields, and then it can be encoded; `DocumentWalk.CheckThenMarshal` has whole documents, where not every link is walked |
| DocumentWalk.ValidateLinkMap | member_codec.go:910-935 | the member walk over a links map ends on every heap and adds nothing iff every chain in it ends, `@` names included, and the unfolded map is accepted |
| DocumentWalk.ValidateRelationship | member_codec.go:881-901 | the same for one relationship, its linkage included |
| DocumentWalk.ValidateRelationshipMap | member_codec.go:881-902 | the same for every relationship of a resource, whatever its name |
| DocumentWalk.ValidateDocumentMembers | member_codec.go:817-908 | the same for a whole document on the heap: it adds nothing iff every chain ends and the unfolded document is accepted |
| DocumentWalk.MarshalDocument | document.go:64-99 | encoding a document whose chains end terminates and equals the encoding of the unfolded document |
| DocumentWalk.MarshalLinkMap | document.go:604-639 | the same for a links map, entry by entry |
| DocumentWalk.CheckThenMarshal | member_codec.go:186-201 | on every heap the member checks end, and every document they accept is written in full |
| DocumentWalk.ValidateLinks | validation.go:554-572 | document validation accepts a links map iff names are valid and every link not under an `@` name ends and is valid |
| DocumentWalk.CyclicNote | validation.go:554-572 | a link that describes itself, under an `@` name, passes document validation and not the member checks; no number of hops ends it |
| DocumentWalk.SoundChainIsAccepted | member_codec.go:953-988 | walking a chain on the heap accepts iff the unfolded value is accepted |
| JSONPointers.ValidJSONPointer | validation.go:1183-1203 | accepts exactly the pointers of RFC 6901 |
| JSONPointers.EscapedTokenReadsBack | validation.go:1205-1209 | an escaped token reads back as the token and contains no slash |
| JSONPointers.EscapeIsInjective | validation.go:1205-1209 | distinct names give distinct violation paths |
| JSONPointers.PointersPrintOnce | validation.go:1183-1203 | the tokens of a pointer are unique |
| JSONPointers.EscapeSteps | validation.go:1205-1209 | escaping goes character by character: `~` becomes `~0`, `/` becomes `~1`, every other character stays |
| URIs.ParseURIReference | validation.go:694-736 | accepted iff the value is the recomposition of RFC 3986, section 5.3, of valid pieces; absolute iff they include a scheme |
| URIs.ReferencesSplitOneWay | validation.go:694-736 | the pieces of a reference are those found by cutting, and no others |
| URIs.AuthoritiesSplitOneWay | validation.go:754-782 | the same for userinfo, host and port |
| URIs.ValidURIComponent | validation.go:815-832 | skipping from percent sign to percent sign decides the component grammar |
| URIs.ValidURIScheme | validation.go:738-752 | decides the scheme grammar |
| URIs.ValidURIAuthority | validation.go:754-782 | decides whether the cut pieces of an authority are valid |
| URIs.ValidIPLiteral | validation.go:784-803 | decides host literals, IPv6 left to the library |
| URIs.EncodedFutureLiteralIsAccepted | validation.go:784-803 | a percent-encoded octet in an address of a future version is accepted although RFC 3986, section 3.2.2, forbids it |
| URIs.StrictReferences | validation.go:784-803 | the recogniser agrees with RFC 3986 iff no `%` stands in a bracketed host |
| URIs.ReferencesOnText | validation.go:694-736 | a reference as text: scheme and colon, two slashes and authority, path, question mark and query, number sign and fragment, of which only the path must be there |
| URIs.AuthoritiesOnText | validation.go:754-782 | an authority as text: userinfo and `@`, a host, in brackets when it is a literal, and a colon and port |
| URIs.ComponentsAreUnits | validation.go:815-841 | a component is a row of allowed characters and percent signs with two hexadecimal digits |
| URIs.CharactersOnText | validation.go:834-848 | which characters are allowed, by lists and ASCII codes |
| URIs.CutsOnText | validation.go:708-717 | when a colon ends a scheme and when slashes begin an authority |
| Atomic.ValidateLocalReferences | atomic.go:333-359 | the reported references are exactly those whose key no earlier add, or for data the operation itself, has assigned |
| Atomic.ValidateDataLids | atomic.go:361-431 | only lid-only references in data are checked, an added resource itself excepted |
| Atomic.ResolvedMeansSafe | atomic.go:333-431 | over NUL-free types, no report iff every target was added strictly earlier and every other local reference earlier or by its own operation |
| Atomic.ResolutionIsPrefixClosed | atomic.go:333-359 | dropping operations from the end changes no other report |
| Atomic.ValidateWith | atomic.go:164-275 | no violation iff counts, presence, context, parts and correspondence of results are right |
| Atomic.AcceptedResponse | atomic.go:214-312 | in a response context a success is accepted iff there is one result per operation and each answers its operation, in the sense of `ResultsOnFields` |
| Atomic.AcceptedRequest | atomic.go:198-213 | an accepted request has operations, no results or errors, and nothing unresolved |
| Atomic.ResultsOnFields | atomic.go:277-331 | a result answers an operation iff, without data, the operation does not create one resource without an id, and with data, it is one valid resource and the operation neither removes nor concerns a relationship, as told by op, target and data |
| Atomic.CorrespondenceOnFields | atomic.go:255-264 | each result answers the operation at its position in that sense |
| Atomic.ReportsOnFields | atomic.go:333-431 | over plain types, the reports are the targets that no earlier operation adds and the lid-only references that neither an earlier nor the same operation adds, on the fields |
| Atomic.ResolutionOnFields | atomic.go:333-431 | nothing is reported iff nothing dangles in that sense |
| Atomic.AddsOnFields | atomic.go:347-356 | which operations assign a local identifier |
| Atomic.MentionsOnFields | atomic.go:361-431 | which local identifiers the data of an operation refers to, in resources and in linkage |
| AtomicExecution.ExecuteAtomic | atomic_execute.go:99-174 | for all callback outcomes and cancellations the calls form a run of the protocol; the store ends as the fold of all operations iff execution succeeds and unchanged otherwise; before Commit is called every result answers its operation on the fields of both, and a run ending in result validation has one that does not |
| AtomicExecution.ApplyAll | atomic_execute.go:138-153 | a prefix is applied in order up to the first failure, then rolled back once |
| AtomicExecution.Finish | atomic_execute.go:154-173 | cancellation check, validation, commit, in this order, with one rollback on failure |
| AtomicExecution.ExecutionFailure | atomic_execute.go:176-191 | one rollback whose own failure is kept beside the cause |
| AtomicExecution.BeginSafely | atomic_execute.go:193-204 | a panicking or failing begin yields no usable transaction, and the cause tells which |
| AtomicExecution.ApplySafely | atomic_execute.go:206-218 | a panic becomes an error of its own kind and the result is dropped |
| AtomicExecution.CommitSafely | atomic_execute.go:220-227 | a panicking commit is a failed commit, told apart from an error |
| AtomicExecution.RollbackSafely | atomic_execute.go:229-236 | a panicking rollback is a failed rollback, told apart from an error |
| AtomicExecution.RollbackExactlyOnce | atomic_execute.go:99-191 | Rollback is called once, last, iff a usable transaction was obtained and an error is returned |
| AtomicExecution.AppliedInOrder | atomic_execute.go:138-173 | Apply calls are a document-order prefix, and Commit comes only after all of them |
| AtomicExecution.LocalReferencesAreApplied | atomic_execute.go:138-153 | whenever Apply is called, every local identifier the operation needs was added by an Apply that has succeeded, or by itself |
| AtomicExecution.ReferencesAreAppliedOnFields | atomic_execute.go:138-153 | the same by types and lids of targets, data and adds, over plain types |
| QueryLimits.ValidateLimits | query.go:246-272 | accepts iff the whole input is within the limits, in whatever order the map is visited; the name it reports is the one that trips first in that order |
| QueryLimits.ReportsAreExact | query.go:246-272 | which names can be reported: a name is reported in some order iff some set of names gives no reason to refuse and that name then does |
| QueryLimits.ReportsMeanRefusal | query.go:246-272 | nothing is reported for an input within the limits |
| QueryLimits.TwoNamesTwoReports | query.go:252-255 | two names of 1025 bytes are reported in turn, depending on which is visited first |
| QueryLimits.SumWithout | query.go:246-272 | sums over a map do not depend on which name is counted first |
| QueryLimits.LimitsOfSubmap | query.go:246-272 | part of an admitted input is admitted |
| QueryLimits.TotalsOnTexts | query.go:246-272 | the totals grow with each name by the length of the name and all its values in a row, and by their number |
| QueryLimits.DefaultsOnTexts | limits.go:17-30 | the default limits as numbers |
| QueryLimits.RefusalOnTexts | query.go:252-272 | when the loop refuses at a name, and whether it reports the name or the whole query |
| QueryGrammar.ParseFamilyName | query.go:274-305 | the loop over the remainder computes the parse |
| QueryGrammar.NamesArePrinted | query.go:274-305 | a name is accepted iff it prints a non-empty base without `[` and valid selectors, which are unique |
| QueryGrammar.ParseSort | query.go:335-351 | the loop over the items computes the parse |
| QueryGrammar.SortsArePrinted | query.go:335-351 | a sort value is accepted iff it prints valid fields, which parsing returns |
| QueryGrammar.ParseList | query.go:307-333 | include and fieldset lists |
| QueryGrammar.ListsArePrinted | query.go:307-333 | a list is accepted iff it joins valid items, which parsing returns |
| QueryGrammar.IncludesArePrinted | query.go:307-319 | an include list is accepted iff it is the comma join of member paths, which parsing returns |
| QueryGrammar.FieldsetsArePrinted | query.go:321-333 | a fieldset is accepted iff it is the comma join of member names, which parsing returns |
| QueryGrammar.SortItemsOnText | query.go:335-351 | a field sorts downwards iff a minus sign stands before its path |
| MemberNames.PathCharacters | query.go:353-364 | a member path contains no comma, bracket or leading minus sign, which is what makes the grammar unambiguous |
| MemberNames.ValidUtf8IsEncoding | validation.go:1152-1155 | a text is valid UTF-8 iff it encodes some Unicode scalar values by RFC 3629, section 3 |
| MemberNames.MemberNamesOnText | validation.go:1152-1181 | a member name is an optional `@` before valid UTF-8 whose first and last characters are letters, digits or beyond ASCII, and the others these or `-`, `_`, space |
| MemberNames.CharactersByCode | validation.go:1179-1181 | the character classes by ASCII codes |
| MemberNames.MemberPathsOnText | query.go:353-364 | a member path joins member names without `@` by dots |
| MemberNames.ExtensionNamesOnText | validation.go:417-427 | an extension member name is a namespace, a colon and a member name |
| Text.BeforeIsLexicographic | query.go:150-157 | the byte order in which names are sorted: the first difference decides, and a proper prefix comes first |
| QueryParsing.Parse | query.go:146-244 | the query holds exactly what its parameters contribute; a refusal of a parameter names the first offending one in byte order, a limit refusal one of the names that can be reported |
| QueryParsing.ParseParameter | query.go:158-241 | one parameter is classified and read as specified, with every refusal code |
| QueryParsing.AnswersAreUnique | query.go:146-244 | map order has no influence on any answer within the limits, and beyond them only on the parameter of the limit refusal |
| QueryParsing.LimitRefusalsDependOnTheOrder | query.go:252-255 | one query with two answers under the default limits |
| QueryParsing.ParsedSortAndPage | query.go:202-221 | the parsed sort fields print the original value exactly, and the page family is part of the input |
| QueryPlaces.ParametersAreInTheirPlaces | query.go:146-244 | every parameter of an accepted query is in exactly one place, told by its printed name: include, sort, the fieldset of a type, page, filter, a registered custom base, or a registered namespace with a colon and lowercase letters; nothing else is anywhere, and the values are those given |
| QueryPlaces.PageAndFilter | query.go:217-221 | the page family holds exactly the parameters `page` and `page[…`, the filter family `filter` and `filter[…` |
| QueryPlaces.ParametersContribute | query.go:158-241 | what a name and its values contribute, by the parts that print the name; a name nothing prints is refused |
| QueryPlaces.NamedContributes | query.go:163-241 | the same from the parts, every refusal code included |
| QueryPlaces.RefusalsOnNames | query.go:146-244 | a refusal names the first parameter in byte order that contributes nothing, with the reason by its printed name and values |
| QueryPlaces.ExtensionBasesArePrinted | query.go:377-414 | an extension base is a namespace of letters and digits, a colon and lowercase letters |
| CursorPagination.Admit | cursor.go:319-369 | subtracting from remaining budgets accepts iff the sums are within the limits; no budget becomes negative and order does not matter |
| CursorPagination.ChargeFamily | cursor.go:327-341 | the family loop leaves exactly what the sums leave |
| CursorPagination.ChargeSort | cursor.go:345-368 | the sort loop charges exactly the length of the sort value that is never built |
| CursorPagination.AdmissionIsTheParsersCheck | cursor.go:316-369 | without a `sort` key, admission is the parser's check on the family extended with the encoded sort value |
| CursorPagination.ParsedQueriesAreAdmitted | cursor.go:196-203 | what the parser accepts under default limits is never refused for its size |
| CursorPagination.SortLengthIsPrintedLength | cursor.go:349-368 | prefixes and names add up to the printed length |
| CursorPagination.Parse | cursor.go:221-314 | the request is described completely by the family and the policy; a refusal names the first failing check and its parameter |
| CursorPagination.ParseCursor | cursor.go:275-299 | one cursor parameter: occurrence, validator, presence |
| CursorPagination.ParseQuery | cursor.go:196-215 | admission of page and sort together, then the page family, then the sort policy |
| CursorPagination.RequestsRespectPolicy | cursor.go:166-314 | admitted sizes lie between one and the endpoint maximum, and ranges occur only where allowed |
| CursorPagination.DecimalsAreWritten | cursor.go:371-384 | a page size is read iff the text is decimal digits of a number from one to the largest integer, after any number of zeros; that number is the size |
| CursorPagination.RequestsOnNames | cursor.go:221-314 | the request in terms of the parameters `page[size]`, `page[after]` and `page[before]` |
| CursorPagination.FailuresOnNames | cursor.go:221-314 | why a page family is refused, by these names and in the order of the checks |
| HeaderValues.SplitHeaderValues | negotiation.go:455-481 | the quote-aware loop computes the segments |
| HeaderValues.SplitIsUnique | negotiation.go:455-481 | the result is the only way to write the header as a comma join of segments without a top-level comma, all but the last with closed quotes |
| Quoting.PiecesAreCut | negotiation.go:455-481 | a header written from bare characters, commas and quoted strings with any escapes is cut at exactly its commas, an unclosed quote at its end included |
| Quoting.EveryHeaderIsWritten | negotiation.go:455-481 | every header is written in this way |
| Quoting.QuotedIsOneSegment | negotiation.go:469-476 | whatever text is quoted, commas and quotes included, belongs to the value around it, alone and before another value |
| Quoting.UnquotedIsSplit | negotiation.go:455-481 | without quotes, a header is split at every comma |
| HeaderValues.ParseQuality | negotiation.go:315-340 | accepts exactly the quality values of RFC 9110, section 12.4.2, with their value in thousandths |
| HeaderValues.QualitiesOnText | negotiation.go:315-340 | quality values as written: 0 or 1, alone or with up to three decimals, and their thousandths |
| Negotiation.NegotiateAccept | negotiation.go:158-211 | limits, blank header, then the best offered content type; it fails iff nothing offered has a quality other than zero, and only supported URIs are chosen |
| Negotiation.AcceptCandidate | negotiation.go:221-286 | which ranges take part, and their media type, quality, specificity and reach |
| Negotiation.ClassificationIsUnique | negotiation.go:221-286 | a header part is classified in one way |
| Negotiation.QualityForRepresentation | negotiation.go:291-313 | the quality of the most specific matching ranges, at their highest |
| Negotiation.Select | negotiation.go:181-210 | maximal non-zero quality, ties to the least content type |
| Negotiation.SelectionIsUnique | negotiation.go:181-210 | at most one content type is selected from a set of candidates |
| Negotiation.OrderAndRepetitionDoNotMatter | negotiation.go:158-211 | two headers that list the same parts in any order and number, both blank or neither, get the same choice iff neither exceeds the byte or candidate limit |
| Negotiation.BlankHeadersDiffer | negotiation.go:158-170 | without that agreement the answers differ: a blank header is answered with the plain type, parts that do not parse with a refusal |
| Negotiation.CollectCandidates | negotiation.go:171-183 | ranges are the accepted parts, representations one per content type |
| Negotiation.UniqueSorted | negotiation.go:438-453 | each value once, in byte order |
| Negotiation.ParseURIList | negotiation.go:372-398 | accepted iff non-empty, within limits and all absolute; the result has each URI once, sorted |
| Negotiation.RangesOnNames | negotiation.go:221-286 | which ranges take part, by the literal names of the range and its parameters |
| Negotiation.SpecificityOnNames | negotiation.go:233-284 | JSON:API ranges are more specific than `application/*`, and these than `*/*`; among JSON:API ranges, the one with more supported parameters |
| Negotiation.MostSpecificGoverns | negotiation.go:291-313 | with all three kinds in a header, the narrowest that is there governs the quality |

## Left out

- Diagnostics: messages, codes and paths of decode errors, error wrapping and redaction; a refused
  decode is `None`. Query, cursor, scan, link-walk and execution refusals keep their codes.
- Byte-level JSON lexing, string escaping, UTF-8 checks and the fifth budget, `MaxDocumentBytes`, which is
  checked before there are tokens: the model starts from tokens and trees.
- Foreign code: media type parsing and formatting, language tags, IP addresses and the regular
  expression of link relations are parameters (`Negotiation.Library`, `LinkWalk.Checks`, `ipv6`).
  The media range handed over is already in lower case.
- Member order of emitted objects: encodings are maps; any order of members is covered by the text
  theorems.
- Nil and empty `AdditionalMembers` and top-level families are the same value, and a `PrimaryData` or
  `RelationshipData` value whose kind was never set, or that holds a nil resource, does not exist here.
- Aliasing of document parts: documents are values, except for links, whose `describedby` pointers are
  modelled on the heap, for single links and for whole documents. Updates through pointers in the attach
  functions return the updated value.
- Validators and callbacks on values are deterministic predicates; a panicking validator is one that
  refuses. Transaction callbacks are arbitrary outcomes.
- Flat shape checks of documents, resources, errors and single atomic operations are the parameters
  `valid` and `Atomic.Shapes`; the theorems hold for any of them.
- Profile validators, extension declarations and the configuration checks of `NewCodec`, beyond the
  fact that registered names carry a namespace prefix.
- Overflow of byte totals on inputs larger than the address space: sums are unbounded integers.
- Quality values are integer thousandths; the code's floating-point sums have the same order.
- Rollback contexts and deadlines: only whether the caller has cancelled is kept.
- Wire form of atomic documents, page links and metadata of cursor pagination, filling in of default
  limits, `CheckContentType` and constructors of parsers and negotiators.
- ConfiguredCodec.MarshalThenUnmarshal: requires that value validators do not look at `@` members, and
  speaks of documents whose extension values stand only where document validation admits them;
  `UnmarshalReturns` is the equivalence without these requirements.
- DocumentWalk.ValidateDocumentMembers: says whether violations are added, not which.
