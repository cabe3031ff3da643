/**
  The configured codec as a whole: what `Marshal` accepts and writes, and what `Unmarshal` makes of
  a text of it.

  `Marshal` checks the members of every link and relationship, those with a leading `@` included;
  `Unmarshal` enters the same containers. This is why the two fit together although decoding itself
  skips such containers.
 */
module ConfiguredCodec {
  import opened Documents
  import opened Registries
  import opened MemberNames
  import opened Encoder
  import opened Decoder
  import opened RoundTrip
  import opened Normalisation
  import opened MemberCodec
  import opened Containers
  import opened AtContainers
  import opened TwoPass
  import opened Acceptance
  import opened Unmarshalling
  import Scanner

  /**
    Writing a document and reading it with the configured codec gives the document that decoding
    keeps, exactly when its registered members conform and its `@` containers pass the sanitizers.
   */
  lemma ConfiguredRoundTrip(registry: Registry, document: Document)
    requires registry.WellFormed() && EncodeDocument(document).Some?
    ensures DecodeInTwoPasses(registry, EncodeDocument(document).value) == Some(CanonicalDocument(document))
      <==> ConformsDocument(registry, document) && AtContainersPass(registry, document)
    ensures DecodeInTwoPasses(registry, EncodeDocument(document).value) == Some(NormalisedDocument(document))
      <==> ConformsDocument(registry, document) && DocumentKeepsFields(document) && AtContainersPass(registry, document)
  {
    hide EncodeDocument, ConformsDocument, AtContainersPass, DecodeInTwoPasses, DecodeDocument, SaneDocument;
    hide CanonicalDocument, NormalisedDocument, DocumentKeepsFields;
    DocumentReadsBack(registry, document);
    DocumentReturns(registry, document);
    TwoPassesAreOnePass(registry, EncodeDocument(document).value);
    if ConformsDocument(registry, document) {
      SaneDocumentIsPassing(registry, document);
    }
  }

  /**
    The same from text to document: for every text of the encoding, whatever the order of its
    members, `Codec.Unmarshal` returns the document exactly when the scan admits the text and the
    validation accepts what it returns.
   */
  lemma UnmarshalReturns(
    registry: Registry, document: Document, text: Scanner.Node, limits: Scanner.Limits, valid: Document -> bool)
    requires registry.WellFormed() && EncodeDocument(document) == Some(ToTree(text))
    ensures Read(registry, text, limits, valid) == Some(CanonicalDocument(document)) <==>
      && ConformsDocument(registry, document) && AtContainersPass(registry, document)
      && Scanner.Admissible(text, 0, 0, limits) && valid(CanonicalDocument(document))
    ensures Read(registry, text, limits, valid) == Some(NormalisedDocument(document)) <==>
      && ConformsDocument(registry, document) && DocumentKeepsFields(document) && AtContainersPass(registry, document)
      && Scanner.Admissible(text, 0, 0, limits) && valid(NormalisedDocument(document))
  {
    hide EncodeDocument, ConformsDocument, AtContainersPass, DecodeInTwoPasses, CanonicalDocument, NormalisedDocument;
    hide DocumentKeepsFields, Scanner.Admissible, ToTree;
    ConfiguredRoundTrip(registry, document);
  }

  /**
    `Codec.Marshal` followed by `Codec.Unmarshal`. Every accepted document can be written. If it is
    ordinary, a text of it is read exactly when the scan admits the text and the document that
    decoding keeps is valid; then that document is returned, and it is the one that was written, up
    to presence bits and `@` members, exactly when no link carries a field that it is not written with.
   */
  lemma MarshalThenUnmarshal(
    registry: Registry, document: Document, text: Scanner.Node, limits: Scanner.Limits, valid: Document -> bool)
    requires registry.WellFormed() && IgnoresAtMembers(registry) && DocumentAccepted(registry, document)
    ensures EncodeDocument(document).Some?
    ensures EncodeDocument(document) == Some(ToTree(text)) && DocumentOrdinary(document) ==>
      var read := Read(registry, text, limits, valid);
      && (read.Some? <==> Scanner.Admissible(text, 0, 0, limits) && valid(CanonicalDocument(document)))
      && (read.Some? ==> read == Some(CanonicalDocument(document)))
      && (read == Some(NormalisedDocument(document)) <==> read.Some? && DocumentKeepsFields(document))
  {
    hide EncodeDocument, ConformsDocument, AtContainersPass, DecodeInTwoPasses, CanonicalDocument, NormalisedDocument;
    hide DocumentKeepsFields, DocumentAccepted, DocumentOrdinary, IgnoresAtMembers, Scanner.Admissible, ToTree;
    AcceptedDocumentIsWritten(registry, document);
    if EncodeDocument(document) == Some(ToTree(text)) && DocumentOrdinary(document) {
      AcceptedDocumentConforms(registry, document);
      ConfiguredRoundTrip(registry, document);
    }
  }

  // What happens without these conditions.

  /**
    An extension value under an `@` name is written as it is. When it is an object with a member
    that is registered for link objects but not acceptable, the codec refuses what it wrote itself.
   */
  lemma AtExtensionIsRefused(registry: Registry, name: string, member: string, value: Tree)
    requires IsAtName(name) && ValidMemberName(name)
    requires registry.Registered(LinkObjectScope, member)
    requires !registry.Accepts(LinkObjectScope, member, StripAtMembers(value))
    ensures var link := ExtensionLink(Object(map[member := value]));
      && LinksAccepted(registry, Some(map[name := link]))
      && !LinksOrdinary(Some(map[name := link]))
      && EncodeLink(link).Some?
      && !LinkPasses(registry, link)
      && SanitizeLink(registry, EncodeLink(link).value).None?
  {
    hide ValidMemberName, StripAtMembers;
    var members: Members := map[member := value];
    var link := ExtensionLink(Object(members));
    var links: Links := map[name := link];
    assert name in links && links[name] == link;
    assert member in members && members[member] == value;
    assert ExtractMembers(registry, LinkObjectScope, members).None?;
  }

  /** An extension that adds a flag to link objects. */
  const FLAGS := Registry(map[LinkObjectScope := map["ext:flag" := (value: Tree) => value.Bool?]])

  /** A document with nothing in it but a note of the wrong shape, which has no meaning. */
  const NOTE: Link := ExtensionLink(Object(map["ext:flag" := Null]))
  const NOTED := Document(None, Some(map["@note" := NOTE]), None, None, None, Some(map[]), map[])

  /** Such a document is accepted, conforms and is written; the codec that wrote it refuses to read it. */
  lemma CodecRefusesItsOwnNote()
    ensures FLAGS.WellFormed() && IgnoresAtMembers(FLAGS)
    ensures DocumentAccepted(FLAGS, NOTED) && ConformsDocument(FLAGS, NOTED) && EncodeDocument(NOTED).Some?
    ensures !AtContainersPass(FLAGS, NOTED)
    ensures DecodeInTwoPasses(FLAGS, EncodeDocument(NOTED).value).None?
  {
    hide EncodeDocument, DecodeInTwoPasses, DecodeDocument, SaneDocument, ValidMemberName;
    assert "ext:flag"[3] == ':' && "@note"[0] == '@';
    NoteIsAName();
    AtExtensionIsRefused(FLAGS, "@note", "ext:flag", Null);
    assert "@note" in NOTED.links.value && NOTED.links.value["@note"] == NOTE;
    AcceptedDocumentIsWritten(FLAGS, NOTED);
    SaneDocumentIsPassing(FLAGS, NOTED);
    TwoPassesAreOnePass(FLAGS, EncodeDocument(NOTED).value);
  }

  lemma NoteIsAName()
    ensures ValidMemberName("@note")
  {
    var bare := "@note"[1..];
    assert bare == "note";
    assert ValidUtf8("@note"[5..]) && ValidUtf8("@note"[4..]) && ValidUtf8("@note"[3..]) && ValidUtf8("@note"[2..]);
    assert forall i :: 0 <= i < 4 ==> "note"[i] in {'n', 'o', 't', 'e'};
  }

  /** An extension whose top-level member must be annotated. */
  const ANNOTATED := Registry(
    map[TopLevelScope := map["ext:note" := (value: Tree) => value.Object? && "@by" in value.members]])

  const ANNOTATION := Document(
    None, None, None, None, None, Some(map[]), map["ext:note" := Object(map["@by" := Null])])

  /** `Marshal` shows a validator the value with its `@` members, `Unmarshal` the value without them. */
  lemma ValidatorsSeeLessOnReading()
    ensures ANNOTATED.WellFormed() && !IgnoresAtMembers(ANNOTATED)
    ensures DocumentAccepted(ANNOTATED, ANNOTATION) && DocumentOrdinary(ANNOTATION) && EncodeDocument(ANNOTATION).Some?
    ensures !ConformsDocument(ANNOTATED, ANNOTATION)
    ensures DecodeInTwoPasses(ANNOTATED, EncodeDocument(ANNOTATION).value).None?
  {
    hide EncodeDocument, DecodeInTwoPasses, DecodeDocument, SaneDocument, AssembleDocument, DecodeLinks, DecodeJSONAPI;
    assert "ext:note"[3] == ':' && "@by"[0] == '@';
    var note: Tree := Object(map["@by" := Null]);
    assert StripAtMembers(note) == Object(map[]);
    assert ANNOTATED.Accepts(TopLevelScope, "ext:note", note);
    assert !ANNOTATED.Accepts(TopLevelScope, "ext:note", StripAtMembers(note));
    assert ANNOTATION.additional["ext:note"] == note;
    AcceptedDocumentIsWritten(ANNOTATED, ANNOTATION);
    UnacceptableMemberIsRefused(ANNOTATED, ANNOTATION, "ext:note");
  }

  /** A registered member that is not acceptable once it is stripped makes the reader refuse the document. */
  lemma UnacceptableMemberIsRefused(registry: Registry, document: Document, name: string)
    requires registry.WellFormed() && EncodeDocument(document).Some? && name in document.additional
    requires registry.Registered(TopLevelScope, name)
    requires !registry.Accepts(TopLevelScope, name, StripAtMembers(document.additional[name]))
    ensures DecodeInTwoPasses(registry, EncodeDocument(document).value).None?
  {
    hide SaneDocument, DecodeInTwoPasses, DecodeJSONAPI, DecodeLinks, DecodePrimaryData, DecodeResources, DecodeErrors;
    hide EncodeJSONAPI, EncodeLinks, EncodePrimaryData, EncodeResources, EncodeErrors, DocumentCore, StripAtMembers;
    var encoded := EncodeDocument(document).value;
    TwoPassesAreOnePass(registry, encoded);
    assert name in encoded.members && encoded.members[name] == document.additional[name];
    assert ExtractMembers(registry, TopLevelScope, encoded.members).None?;
  }
}
