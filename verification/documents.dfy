/**
  The JSON:API 1.1 document model.

  A Go string is modelled by a `string` whose characters are its bytes. A JSON value whose
  member names have already been found distinct is a `Tree`; the order of members carries no
  meaning after `decodeObject` has turned an object into a Go map, so objects are maps here.
  A nil Go map or slice that means "member absent" is `None`; the `Members` maps are only ever
  looked at for emptiness, so nil and empty are the same value there.
 */
module Documents {

  datatype Option<+T> = None | Some(value: T) {
    predicate IsFailure() {
      None?
    }

    function PropagateFailure<U>(): Option<U>
      requires None?
    {
      None
    }

    function Extract(): T
      requires Some?
    {
      value
    }
  }

  // Partial functions over optional values, sequences and maps: the result is None as soon as
  // one application fails, which is how every Go loop here returns on its first error.

  function Lift<A, B>(f: A -> Option<B>, input: Option<A>): Option<Option<B>> {
    match input
    case None => Some(None)
    case Some(a) =>
      var b :- f(a);
      Some(Some(b))
  }

  function Each<A, B>(f: A -> Option<B>, items: seq<A>): Option<seq<B>> {
    if forall i | 0 <= i < |items| :: f(items[i]).Some?
    then Some(seq(|items|, i requires 0 <= i < |items| => f(items[i]).value))
    else None
  }

  function EachMember<A, B>(f: A -> Option<B>, members: map<string, A>): Option<map<string, B>> {
    if forall name | name in members :: f(members[name]).Some?
    then Some(map name | name in members :: f(members[name]).value)
    else None
  }

  datatype Tree =
    | Null
    | Bool(b: bool)
    | Number(literal: string)
    | String(s: string)
    | Array(items: seq<Tree>)
    | Object(members: map<string, Tree>)

  type Members = map<string, Tree>

  /** A string field with its presence bit, for example `ID` and `idPresent`. */
  datatype Field = Field(value: string, present: bool) {
    predicate Has() {
      value != "" || present
    }
  }

  const ABSENT_FIELD := Field("", false)

  datatype JSONAPI = JSONAPI(
    version: Field,
    ext: Option<seq<string>>,
    profile: Option<seq<string>>,
    meta: Option<Members>,
    additional: Members)

  datatype Hreflang = Hreflang(values: seq<string>, many: bool)

  type Links = map<string, Link>

  /** One Go `Link` struct, flags included; `describedBy` is unfolded into a tree. */
  datatype Link = Link(
    href: Field,
    rel: Field,
    describedBy: Option<Link>,
    title: Field,
    targetType: Field,
    hreflang: Option<Hreflang>,
    meta: Option<Members>,
    additional: Members,
    isObject: bool,
    isNull: bool,
    extension: Option<Tree>)

  datatype Identifier = Identifier(
    resourceType: string,
    id: Field,
    lid: Field,
    meta: Option<Members>,
    additional: Members)

  datatype RelationshipData =
    | NullRelationship
    | ToOne(one: Identifier)
    | ToMany(many: seq<Identifier>)

  datatype Relationship = Relationship(
    links: Option<Links>,
    data: Option<RelationshipData>,
    meta: Option<Members>,
    additional: Members)

  type Relationships = map<string, Relationship>

  datatype Resource = Resource(
    resourceType: string,
    id: Field,
    lid: Field,
    attributes: Option<Members>,
    relationships: Option<Relationships>,
    links: Option<Links>,
    meta: Option<Members>,
    additional: Members)

  datatype PrimaryData =
    | NullData
    | ResourceData(one: Resource)
    | ResourceCollection(many: seq<Resource>)

  datatype ErrorSource = ErrorSource(
    pointer: Field,
    parameter: Field,
    header: Field,
    additional: Members)

  datatype ErrorObject = ErrorObject(
    id: Field,
    links: Option<Links>,
    status: Field,
    code: Field,
    title: Field,
    detail: Field,
    source: Option<ErrorSource>,
    meta: Option<Members>,
    additional: Members)

  datatype Document = Document(
    jsonapi: Option<JSONAPI>,
    links: Option<Links>,
    data: Option<PrimaryData>,
    included: Option<seq<Resource>>,
    errors: Option<seq<ErrorObject>>,
    meta: Option<Members>,
    additional: Members)

  /** Names starting with `@` are never semantic content. */
  predicate IsAtName(name: string) {
    |name| > 0 && name[0] == '@'
  }

  // Link constructors.

  function URI(href: string): Link {
    Link(Field(href, false), ABSENT_FIELD, None, ABSENT_FIELD, ABSENT_FIELD, None, None, map[], false, false, None)
  }

  function NullLink(): Link {
    Link(ABSENT_FIELD, ABSENT_FIELD, None, ABSENT_FIELD, ABSENT_FIELD, None, None, map[], false, true, None)
  }

  function ExtensionLink(value: Tree): Link {
    Link(ABSENT_FIELD, ABSENT_FIELD, None, ABSENT_FIELD, ABSENT_FIELD, None, None, map[], false, false, Some(value))
  }
}
