/**
  Where the codec's laws stop: for each side condition of the round trip, the retraction and the
  two-pass theorem, an input that needs it; and a simple way to meet the two-pass condition.
 */
module CodecLimits {
  import opened Documents
  import opened Registries
  import opened Encoder
  import opened Decoder
  import opened RoundTrip
  import opened MemberCodec
  import opened TwoPass
  import opened Retraction
  import opened Normalisation

  /** `URI(href).WithRel(rel)` is written as a bare string: the relation does not survive. */
  lemma RelationOfStringLinkIsLost(registry: Registry, href: string, rel: string)
    ensures var link := URI(href).(rel := Field(rel, true));
      && EncodeLink(link).Some?
      && DecodeLink(registry, EncodeLink(link).value) == Some(URI(href))
      && NormalisedLink(link).rel == Field(rel, true)
      && ConformsLink(registry, link) && !KeepsFields(link)
  {
  }

  /** An extension value behind `describedby` is read back as an ordinary link. */
  lemma ExtensionBehindDescribedByIsReread(href: string, target: string)
    ensures var link := URI(href).(
                isObject := true, href := Field(href, true), describedBy := Some(ExtensionLink(String(target))));
      && !ConformsLink(NO_EXTENSIONS, link)
      && EncodeLink(link).Some?
      && DecodeLink(NO_EXTENSIONS, EncodeLink(link).value) == Some(link.(describedBy := Some(URI(target))))
  {
    var link := URI(href).(
      isObject := true, href := Field(href, true), describedBy := Some(ExtensionLink(String(target))));
    var members: Members := map["href" := String(href), "describedby" := String(target)];
    assert EncodeDescribedBy(link) == Some(Some(String(target)));
    assert LinkCore(link, Some(String(target))) == members;
    assert members + map[] == members;
    assert EncodeLink(link) == Some(Object(members));
    NothingRegistered(LinkObjectScope, members);
    assert DecodeLinkLeaves(members) == Some(link.(describedBy := None));
  }

  /** A null element of a string array is read as the empty string, and nothing else is changed. */
  lemma NullElementsReadAsEmpty(items: seq<Tree>)
    requires DecodeStrings(Array(items)).Some?
    ensures EncodeStrings(DecodeStrings(Array(items)).value) == Array(items) <==> Null !in items
    ensures forall i :: 0 <= i < |items| ==>
      DecodeStrings(Array(items)).value[i] == if items[i].Null? then "" else items[i].s
  {
    var values := DecodeStrings(Array(items)).value;
    var written := EncodeStrings(values).items;
    if Null !in items {
      forall i | 0 <= i < |items| ensures written[i] == items[i] {
        assert items[i] in items;
      }
      assert written == items;
    } else {
      var i :| 0 <= i < |items| && items[i] == Null;
      assert written[i] != items[i];
    }
  }

  /** The member is an array in which null stands for a string. */
  predicate HasNullElement(members: Members, name: string) {
    name in members && members[name].Array? && Null in members[name].items
  }

  /** `ext` and `profile` are written as they were read exactly when they had no null element. */
  lemma NullsInAppliedURIs(registry: Registry, members: Members)
    requires DecodeJSONAPI(registry, Object(members)).Some?
    ensures var jsonapi := DecodeJSONAPI(registry, Object(members)).value;
      && (OptionalStrings(jsonapi.ext) == Get(members, "ext") <==> !HasNullElement(members, "ext"))
      && (OptionalStrings(jsonapi.profile) == Get(members, "profile") <==> !HasNullElement(members, "profile"))
  {
    hide EncodeStrings, DecodeStrings, StripAtMembers, ExtractMembers;
    StringsAreWrittenBack(members, "ext", DecodeJSONAPI(registry, Object(members)).value.ext);
    StringsAreWrittenBack(members, "profile", DecodeJSONAPI(registry, Object(members)).value.profile);
  }

  lemma StringsAreWrittenBack(members: Members, name: string, values: Option<seq<string>>)
    requires Lift(DecodeStrings, Get(members, name)) == Some(values)
    ensures OptionalStrings(values) == Get(members, name) <==> !HasNullElement(members, name)
  {
    if name in members {
      NullElementsReadAsEmpty(members[name].items);
    }
  }

  /** The same for the array form of `hreflang`. */
  lemma NullsInHreflang(registry: Registry, members: Members)
    requires DecodeLink(registry, Object(members)).Some?
    ensures OptionalHreflang(DecodeLink(registry, Object(members)).value.hreflang) == Get(members, "hreflang") <==>
      !HasNullElement(members, "hreflang")
  {
    hide StripAtMembers, ExtractMembers;
    assert DecodeLinkLeaves(members).Some?;
    if "hreflang" in members && members["hreflang"].Array? {
      var items := members["hreflang"].items;
      assert members["hreflang"] == Array(items);
      NullElementsReadAsEmpty(items);
    }
  }

  const LINK_WITHOUT_HREF := Object(map["links" := Object(map["self" := Object(map[])])])

  /** A link object without `href` gains an empty one when it is written and read again. */
  lemma MissingHrefIsInvented()
    ensures var decoded := DecodeDocument(NO_EXTENSIONS, LINK_WITHOUT_HREF);
      && decoded.Some?
      && !HrefsPresent(decoded.value)
      && EncodeDocument(decoded.value).Some?
      && DecodeDocument(NO_EXTENSIONS, EncodeDocument(decoded.value).value) != decoded
  {
    hide EncodeDocument, CanonicalDocument, StripAtMembers;
    var link: Tree := Object(map[]);
    NothingRegistered(LinkObjectScope, map[]);
    assert DecodeLink(NO_EXTENSIONS, link).Some? && !HrefsPresentInLink(DecodeLink(NO_EXTENSIONS, link).value);
    var links: Tree := Object(map["self" := link]);
    assert DecodeLinks(NO_EXTENSIONS, links).Some?;
    assert "self" in DecodeLinks(NO_EXTENSIONS, links).value;
    assert DecodeLinks(NO_EXTENSIONS, links).value["self"] == DecodeLink(NO_EXTENSIONS, link).value;
    assert !HrefsPresentInLinks(DecodeOptionalLinks(NO_EXTENSIONS, Some(links)).value);
    NothingRegistered(TopLevelScope, LINK_WITHOUT_HREF.members);
    assert Get(LINK_WITHOUT_HREF.members, "links") == Some(links);
    assert DecodeDocument(NO_EXTENSIONS, LINK_WITHOUT_HREF).Some?;
    DecodingIsARetraction(NO_EXTENSIONS, LINK_WITHOUT_HREF);
  }

  const AT_RELATIONSHIP := Object(map["relationships" := Object(map["@note" := String("text")])])

  /** A meaningless `@` relationship of the wrong shape is skipped by the core decoder, refused by a codec. */
  lemma AtRelationshipIsRefused()
    ensures DecodeResource(NO_EXTENSIONS, AT_RELATIONSHIP).Some?
    ensures !SaneResource(NO_EXTENSIONS, AT_RELATIONSHIP)
    ensures SanitizeResource(NO_EXTENSIONS, AT_RELATIONSHIP).None?
  {
    var relationships: Tree := Object(map["@note" := String("text")]);
    var members := AT_RELATIONSHIP.members;
    NothingRegistered(ResourceScope, members);
    assert Get(members, "relationships") == Some(relationships);
    assert DecodeRelationships(NO_EXTENSIONS, relationships) == Some(map[]);
    assert "@note" in relationships.members && SanitizeRelationship(NO_EXTENSIONS, relationships.members["@note"]).None?;
    ResourceRemains(NO_EXTENSIONS, members, Get(members, "links"), Get(members, "relationships"));
    assert SanitizeRelationships(NO_EXTENSIONS, relationships).None?;
  }

  // Without `@` names on links and relationships the two-pass condition always holds.

  predicate PlainNames(value: Option<Tree>) {
    value.Some? && value.value.Object? ==> forall name | name in value.value.members :: !IsAtName(name)
  }

  predicate PlainRelationships(value: Option<Tree>) {
    && PlainNames(value)
    && (value.Some? && value.value.Object? ==>
          forall name | name in value.value.members && value.value.members[name].Object? ::
            PlainNames(Get(value.value.members[name].members, "links")))
  }

  predicate PlainResource(value: Tree) {
    value.Object? ==>
      PlainNames(Get(value.members, "links")) && PlainRelationships(Get(value.members, "relationships"))
  }

  lemma PlainResourceIsSane(registry: Registry, value: Tree)
    requires PlainResource(value)
    ensures SaneResource(registry, value)
  {
    if value.Object? {
      var relationships := Get(value.members, "relationships");
      if relationships.Some? && relationships.value.Object? {
        forall name | name in relationships.value.members
          ensures !IsAtName(name) && SaneRelationship(registry, relationships.value.members[name])
        {
        }
      }
    }
  }
}
