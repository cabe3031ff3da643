/**
  Two limits of 64 that do not fit together. A chain of descriptors may have 64 hops when a document
  is written, while the scan counts every object around it when the text is read.
 */
module LinkDepth {
  import opened Documents
  import opened Registries
  import opened MemberNames
  import opened Encoder
  import opened RoundTrip
  import opened LinkWalk
  import opened Acceptance
  import opened DocumentWalk
  import opened Unmarshalling
  import opened ConfiguredCodec
  import Scanner

  // A document with one chain of link objects.

  const LINK_OBJECT: Link := URI("/").(isObject := true, href := Field("/", true))

  function Chain(hops: nat): Link {
    LINK_OBJECT.(describedBy := if hops == 0 then None else Some(Chain(hops - 1)))
  }

  function ChainDocument(hops: nat): Document {
    Document(None, Some(map["self" := Chain(hops)]), None, None, None, Some(map[]), map[])
  }

  function ChainTree(hops: nat): Tree {
    Object(if hops == 0 then map["href" := String("/")]
           else map["href" := String("/"), "describedby" := ChainTree(hops - 1)])
  }

  function ChainDocumentTree(hops: nat): Tree {
    Object(map["links" := Object(map["self" := ChainTree(hops)]), "meta" := Object(map[])])
  }

  lemma {:induction false} ChainIsEncoded(hops: nat)
    ensures EncodeLink(Chain(hops)) == Some(ChainTree(hops))
  {
    if hops > 0 {
      ChainIsEncoded(hops - 1);
    }
    var describedBy := if hops == 0 then None else Some(ChainTree(hops - 1));
    assert EncodeDescribedBy(Chain(hops)) == Some(describedBy);
    assert LinkCore(Chain(hops), describedBy) + map[] == ChainTree(hops).members;
  }

  lemma ChainDocumentIsEncoded(hops: nat)
    ensures EncodeDocument(ChainDocument(hops)) == Some(ChainDocumentTree(hops))
  {
    hide EncodeLink, ChainTree;
    ChainIsEncoded(hops);
    var links: Links := map["self" := Chain(hops)];
    assert EachMember(EncodeLink, links).value == map["self" := ChainTree(hops)];
    assert DocumentCore(None, Some(EncodeLinks(links).value), None, None, None, Some(Object(map[]))) + map[]
      == ChainDocumentTree(hops).members;
  }

  // Its texts.

  lemma {:induction false} DistinctNamesAreCounted(members: seq<Scanner.Member>)
    requires Scanner.DistinctNames(members)
    ensures |set i | 0 <= i < |members| :: members[i].name| == |members|
  {
    if members != [] {
      var last := |members| - 1;
      DistinctNamesAreCounted(members[..last]);
      var front := set i | 0 <= i < last :: members[..last][i].name;
      assert (set i | 0 <= i < |members| :: members[i].name) == front + {members[last].name};
    }
  }

  /** Only an object is the text of an object, with one member for each name. */
  lemma ObjectText(text: Scanner.Node, members: Members)
    requires ToTree(text) == Object(members) && Scanner.NoDuplicates(text)
    ensures text.Record? && |text.members| == |members|
    ensures forall i :: 0 <= i < |text.members| ==>
      text.members[i].name in members && ToTree(text.members[i].value) == members[text.members[i].name]
    ensures Scanner.DistinctNames(text.members)
  {
    hide ToTree;
    RecordText(text, members);
    ToMembersKeepsAll(text.members);
    DistinctNamesAreCounted(text.members);
    assert members.Keys == set i | 0 <= i < |text.members| :: text.members[i].name;
    assert |members| == |members.Keys|;
  }

  lemma RecordText(text: Scanner.Node, members: Members)
    requires ToTree(text) == Object(members)
    ensures text.Record? && ToMembers(text.members) == members
  {
  }

  lemma CountOfTwo(members: seq<Scanner.Member>)
    ensures |members| == 0 ==> Scanner.CountMembers(members) == 0
    ensures |members| == 1 ==> Scanner.CountMembers(members) == Scanner.Count(members[0].value)
    ensures |members| == 2 ==>
      Scanner.CountMembers(members) == Scanner.Count(members[0].value) + Scanner.Count(members[1].value)
  {
  }

  /** Whatever the order of members, a chain takes one level and two values for each of its links. */
  lemma {:induction false} ChainText(text: Scanner.Node, hops: nat)
    requires ToTree(text) == ChainTree(hops) && Scanner.NoDuplicates(text)
    ensures Scanner.Count(text) == 2 * hops + 2
    ensures forall depth: int :: Scanner.Shallow(text, depth) <==> depth >= hops + 1
    ensures Scanner.Narrow(text, Scanner.DEFAULT_LIMITS)
  {
    hide ToTree;
    ObjectText(text, ChainTree(hops).members);
    CountOfTwo(text.members);
    if hops == 0 {
      StringText(text.members[0].value, "/");
      assert |map["href" := String("/")].Keys| == 1;
    } else {
      TwoNames("href", String("/"), "describedby", ChainTree(hops - 1));
      var first := if text.members[0].name == "href" then 0 else 1;
      StringText(text.members[first].value, "/");
      ChainText(text.members[1 - first].value, hops - 1);
    }
  }

  lemma TwoNames(first: string, one: Tree, second: string, other: Tree)
    requires first != second
    ensures |map[first := one, second := other]| == 2
  {
    var members := map[first := one, second := other];
    assert members.Keys == {first, second};
    assert |members| == |members.Keys|;
  }

  lemma StringText(text: Scanner.Node, value: string)
    requires ToTree(text) == String(value)
    ensures text.Str?
  {
  }

  lemma LinksText(text: Scanner.Node, hops: nat)
    requires ToTree(text) == Object(map["self" := ChainTree(hops)]) && Scanner.NoDuplicates(text)
    ensures Scanner.Count(text) == 2 * hops + 3
    ensures forall depth: int :: Scanner.Shallow(text, depth) <==> depth >= hops + 2
    ensures Scanner.Narrow(text, Scanner.DEFAULT_LIMITS)
  {
    hide ToTree, ChainTree;
    ObjectText(text, map["self" := ChainTree(hops)]);
    assert |map["self" := ChainTree(hops)].Keys| == 1;
    CountOfTwo(text.members);
    ChainText(text.members[0].value, hops);
  }

  lemma EmptyText(text: Scanner.Node)
    requires ToTree(text) == Object(map[]) && Scanner.NoDuplicates(text)
    ensures Scanner.Count(text) == 1
    ensures forall depth: int :: Scanner.Shallow(text, depth) <==> depth >= 1
    ensures Scanner.Narrow(text, Scanner.DEFAULT_LIMITS)
  {
    hide ToTree;
    ObjectText(text, map[]);
  }

  lemma ChainDocumentText(text: Scanner.Node, hops: nat)
    requires ToTree(text) == ChainDocumentTree(hops)
    ensures Scanner.Admissible(text, 0, 0, Scanner.DEFAULT_LIMITS) <==> Scanner.NoDuplicates(text) && hops <= 61
  {
    hide ToTree, ChainTree;
    if Scanner.NoDuplicates(text) {
      var links: Tree, meta: Tree := Object(map["self" := ChainTree(hops)]), Object(map[]);
      ObjectText(text, map["links" := links, "meta" := meta]);
      TwoNames("links", links, "meta", meta);
      CountOfTwo(text.members);
      var first := if text.members[0].name == "links" then 0 else 1;
      LinksText(text.members[first].value, hops);
      EmptyText(text.members[1 - first].value);
      assert Scanner.Count(text) == 2 * hops + 5;
      assert Scanner.Shallow(text, 64) <==>
        Scanner.Shallow(text.members[0].value, 63) && Scanner.Shallow(text.members[1].value, 63);
      assert Scanner.Narrow(text, Scanner.DEFAULT_LIMITS);
    }
  }

  // What accepts and what reads it.

  lemma {:induction false} ChainConforms(hops: nat)
    ensures Hops(Chain(hops)) == hops && PlainChain(Chain(hops))
    ensures ChainAccepted(NO_EXTENSIONS, Chain(hops))
  {
    if hops > 0 {
      ChainConforms(hops - 1);
    }
  }

  lemma ChainDocumentAccepted(hops: nat)
    ensures DocumentOrdinary(ChainDocument(hops))
    ensures DocumentAccepted(NO_EXTENSIONS, ChainDocument(hops)) <==> hops <= MAX_NESTING_DEPTH
  {
    hide ValidMemberName, ChainAccepted, PlainChain;
    ChainConforms(hops);
    SelfIsAName();
    var links := ChainDocument(hops).links;
    assert "self" in links.value && links.value["self"] == Chain(hops);
    assert Chain(hops).extension.None?;
  }

  lemma SelfIsAName()
    ensures ValidMemberName("self")
  {
    assert ValidUtf8("self"[4..]) && ValidUtf8("self"[3..]) && ValidUtf8("self"[2..]) && ValidUtf8("self"[1..]);
    assert forall i :: 0 <= i < 4 ==> "self"[i] in {'s', 'e', 'l', 'f'};
  }

  /**
    The member checks accept up to 64 hops, and under the default limits up to 61 can be read back.
    What is written with 62 to 64 hops is refused by the scan, whatever text of it is read.
   */
  lemma AcceptedChainsAreTooDeepToRead(hops: nat, text: Scanner.Node, valid: Document -> bool)
    requires EncodeDocument(ChainDocument(hops)) == Some(ToTree(text))
    ensures DocumentAccepted(NO_EXTENSIONS, ChainDocument(hops)) <==> hops <= 64
    ensures hops <= 64 ==>
      (Read(NO_EXTENSIONS, text, Scanner.DEFAULT_LIMITS, valid).Some? <==>
        hops <= 61 && Scanner.NoDuplicates(text) && valid(CanonicalDocument(ChainDocument(hops))))
    ensures hops > 61 ==> Read(NO_EXTENSIONS, text, Scanner.DEFAULT_LIMITS, valid).None?
  {
    hide EncodeDocument, ToTree, DocumentAccepted, DocumentOrdinary, CanonicalDocument, Scanner.Admissible;
    hide ChainDocument, ChainDocumentTree;
    ChainDocumentIsEncoded(hops);
    ChainDocumentText(text, hops);
    ChainDocumentAccepted(hops);
    if hops <= 64 {
      MarshalThenUnmarshal(NO_EXTENSIONS, ChainDocument(hops), text, Scanner.DEFAULT_LIMITS, valid);
    }
  }

  // The same chain on the heap.

  /** This link has a chain of exactly so many hops, and unfolds to the chain above. */
  ghost predicate IsChain(link: LinkState, hops: nat, cells: set<LinkCell>)
    requires Within(link, cells) && Closed(cells)
    reads cells
    decreases hops
  {
    && link.own == LINK_OBJECT
    && (link.describedBy == null <==> hops == 0)
    && (hops > 0 ==> IsChain(link.describedBy.link, hops - 1, cells))
  }

  lemma {:induction false} ChainInRegion(link: LinkState, hops: nat, some: set<LinkCell>, all: set<LinkCell>)
    requires Within(link, some) && Closed(some) && Within(link, all) && Closed(all)
    requires IsChain(link, hops, some)
    ensures IsChain(link, hops, all)
    decreases hops
  {
    if hops > 0 {
      ChainInRegion(link.describedBy.link, hops - 1, some, all);
    }
  }

  lemma {:induction false} ChainEnds(link: LinkState, hops: nat, limit: nat, cells: set<LinkCell>)
    requires Within(link, cells) && Closed(cells) && IsChain(link, hops, cells)
    ensures EndsWithin(link, limit, cells) <==> hops <= limit
    ensures hops <= limit ==> Unfold(link, limit, cells) == Chain(hops)
    decreases hops
  {
    if hops > 0 && limit > 0 {
      ChainEnds(link.describedBy.link, hops - 1, limit - 1, cells);
    }
  }

  method BuildChain(hops: nat) returns (link: LinkState, ghost cells: set<LinkCell>)
    ensures fresh(cells)
    ensures Within(link, cells) && Closed(cells) && IsChain(link, hops, cells) && AllOrdinary(link, cells)
  {
    link, cells := LinkState(LINK_OBJECT, null), {};
    for built := 0 to hops
      invariant fresh(cells)
      invariant Within(link, cells) && Closed(cells) && IsChain(link, built, cells) && AllOrdinary(link, cells)
    {
      var cell := new LinkCell(link);
      ghost var all := cells + {cell};
      ChainInRegion(link, built, cells, all);
      link, cells := LinkState(LINK_OBJECT, cell), all;
    }
  }

  lemma {:induction false} ChainIsSound(
    link: LinkState, hops: nat, limit: nat, cells: set<LinkCell>, checks: Checks)
    requires Within(link, cells) && Closed(cells) && IsChain(link, hops, cells) && checks.uriReference("/")
    ensures SoundChain(link, limit, cells, checks)
    decreases limit
  {
    if hops > 0 && limit > 0 {
      ChainIsSound(link.describedBy.link, hops - 1, limit - 1, cells, checks);
    }
  }

  /** A document that holds nothing but this link. */
  function OneLink(link: LinkState): DocumentState {
    DocumentState(Document(None, None, None, None, None, Some(map[]), map[]), Some(map["self" := link]), None, None, None)
  }

  lemma OneLinkUnfolds(link: LinkState, hops: nat, cells: set<LinkCell>)
    requires Within(link, cells) && Closed(cells) && IsChain(link, hops, cells)
    ensures DocumentWithin(OneLink(link), cells)
    ensures DocumentEnds(OneLink(link), cells) <==> hops <= MAX_NESTING_DEPTH
    ensures hops <= MAX_NESTING_DEPTH ==> UnfoldedDocument(OneLink(link), cells) == ChainDocument(hops)
  {
    hide Unfold, EndsWithin, Chain;
    ChainEnds(link, hops, MAX_NESTING_DEPTH, cells);
    var links := OneLink(link).links;
    assert "self" in links.value && links.value["self"] == link && links.value.Keys == {"self"};
    assert hops <= MAX_NESTING_DEPTH ==> Unfolded(link, cells) == Chain(hops);
    assert hops <= MAX_NESTING_DEPTH ==> UnfoldedLinks(links, cells).value == map["self" := Chain(hops)];
  }

  /** Put together from link objects and pointers, the document passes both walks up to 64 hops and is then written. */
  method WriteChain(hops: nat, checks: Checks) returns (valid: bool, accepted: bool, encoded: Option<Tree>)
    requires checks.uriReference("/")
    ensures valid <==> hops <= 64
    ensures accepted <==> hops <= 64
    ensures accepted ==> encoded == EncodeDocument(ChainDocument(hops))
  {
    hide EndsWithin, SoundChain, DocumentAccepted, ChainDocument, UnfoldedDocument, EncodeDocument, DocumentEnds;
    hide DocumentWithin, Chain, IsChain, AllOrdinary;
    var link, cells := BuildChain(hops);
    OneLinkUnfolds(link, hops, cells);
    ChainIsSound(link, hops, MAX_NESTING_DEPTH, cells, checks);
    ChainEnds(link, hops, MAX_NESTING_DEPTH, cells);
    ChainDocumentAccepted(hops);
    var validator := new Validator();
    ValidateLink(validator, link, "/links/self", checks, cells);
    valid := validator.violations == [];
    accepted, encoded := CheckThenMarshal(OneLink(link), NO_EXTENSIONS, cells);
  }
}
