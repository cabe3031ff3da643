/**
  `Codec.Unmarshal` and the core `Unmarshal` from tokens to document, and the trip back from a
  document through its text. Validation after decoding is a parameter.
 */
module Unmarshalling {
  import opened Documents
  import opened Registries
  import opened Encoder
  import opened Decoder
  import Reading
  import opened RoundTrip
  import opened MemberCodec
  import opened TwoPass
  import opened Retraction
  import Scanner
  import MemberCodecSteps

  /** What `json.Unmarshal` into maps keeps of a value: member order is lost, a later duplicate wins. */
  function ToTree(node: Scanner.Node): Tree {
    match node
    case Leaf(value) => value
    case Str(s) => String(s)
    case List(items) => Array(seq(|items|, i requires 0 <= i < |items| => ToTree(items[i])))
    case Record(members) => Object(ToMembers(members))
  }

  function ToMembers(members: seq<Scanner.Member>): Members {
    if members == [] then map[]
    else
      var last := |members| - 1;
      ToMembers(members[..last])[members[last].name := ToTree(members[last].value)]
  }

  /** Without duplicates nothing is lost but the order. */
  lemma {:induction false} ToMembersKeepsAll(members: seq<Scanner.Member>)
    requires Scanner.DistinctNames(members)
    ensures ToMembers(members).Keys == set i | 0 <= i < |members| :: members[i].name
    ensures forall i :: 0 <= i < |members| ==>
      members[i].name in ToMembers(members) && ToMembers(members)[members[i].name] == ToTree(members[i].value)
  {
    if members != [] {
      var front := members[..|members| - 1];
      ToMembersKeepsAll(front);
      assert forall i | 0 <= i < |front| :: front[i] == members[i];
    }
  }

  /** What a text without duplicates means: its items in order, and under each name the value of the member of that name. */
  lemma MeaningOfTexts(node: Scanner.Node)
    requires Scanner.NoDuplicates(node)
    ensures match node
      case Leaf(value) => ToTree(node) == value
      case Str(s) => ToTree(node) == String(s)
      case List(items) =>
        && ToTree(node).Array? && |ToTree(node).items| == |items|
        && forall i :: 0 <= i < |items| ==> ToTree(node).items[i] == ToTree(items[i])
      case Record(members) =>
        && ToTree(node).Object?
        && ToTree(node).members.Keys == (set i | 0 <= i < |members| :: members[i].name)
        && forall i :: 0 <= i < |members| ==> ToTree(node).members[members[i].name] == ToTree(members[i].value)
  {
    if node.Record? {
      ToMembersKeepsAll(node.members);
    }
  }

  /** Some text of a tree: members are written in an order of the writer's choice. */
  ghost function Emit(tree: Tree): Scanner.Node
    decreases tree, 0
  {
    match tree
    case String(s) => Scanner.Str(s)
    case Array(items) => Scanner.List(seq(|items|, i requires 0 <= i < |items| => Emit(items[i])))
    case Object(members) => Scanner.Record(EmitMembers(tree, members.Keys))
    case _ => Scanner.Leaf(tree)
  }

  ghost function EmitMembers(tree: Tree, names: set<string>): seq<Scanner.Member>
    requires tree.Object? && names <= tree.members.Keys
    decreases tree, 0, names
  {
    if names == {} then []
    else
      var name :| name in names;
      [Scanner.Member(name, Emit(tree.members[name]))] + EmitMembers(tree, names - {name})
  }

  /** Every tree has such a text: it reads back as the tree and no name occurs twice in it. */
  lemma {:induction false} EmittedReadsBack(tree: Tree)
    ensures ToTree(Emit(tree)) == tree
    ensures Scanner.NoDuplicates(Emit(tree))
    decreases tree, 0
  {
    match tree
    case Array(items) =>
      forall i | 0 <= i < |items|
        ensures ToTree(Emit(items[i])) == items[i] && Scanner.NoDuplicates(Emit(items[i]))
      {
        EmittedReadsBack(items[i]);
      }
      assert ToTree(Emit(tree)).items == items;
    case Object(members) =>
      EmittedMembers(tree, members.Keys);
      MembersReadBackAs(EmitMembers(tree, members.Keys), members);
    case _ =>
  }

  lemma MembersReadBackAs(emitted: seq<Scanner.Member>, members: Members)
    requires Scanner.DistinctNames(emitted)
    requires forall name | name in members :: HasMember(emitted, name)
    requires forall i | 0 <= i < |emitted| ::
      emitted[i].name in members && ToTree(emitted[i].value) == members[emitted[i].name]
    ensures ToMembers(emitted) == members
  {
    hide ToTree, ToMembers;
    ToMembersKeepsAll(emitted);
    forall name | name in members
      ensures name in ToMembers(emitted) && ToMembers(emitted)[name] == members[name]
    {
      assert HasMember(emitted, name);
      var i :| 0 <= i < |emitted| && emitted[i].name == name;
      assert ToTree(emitted[i].value) == members[name];
    }
  }

  lemma {:induction false} EmittedMembers(tree: Tree, names: set<string>)
    requires tree.Object? && names <= tree.members.Keys
    ensures var emitted := EmitMembers(tree, names);
      && Scanner.DistinctNames(emitted)
      && (forall name | name in names :: HasMember(emitted, name))
      && forall i | 0 <= i < |emitted| ::
           && emitted[i].name in names
           && ToTree(emitted[i].value) == tree.members[emitted[i].name]
           && Scanner.NoDuplicates(emitted[i].value)
    decreases tree, 0, names
  {
    if names != {} {
      var emitted := EmitMembers(tree, names);
      var name := emitted[0].name;
      var rest := EmitMembers(tree, names - {name});
      assert emitted == [Scanner.Member(name, Emit(tree.members[name]))] + rest;
      EmittedReadsBack(tree.members[name]);
      EmittedMembers(tree, names - {name});
      assert forall i | 0 < i < |emitted| :: emitted[i] == rest[i - 1];
      forall other | other in names
        ensures HasMember(emitted, other)
      {
        if other != name {
          assert HasMember(rest, other);
          var i :| 0 <= i < |rest| && rest[i].name == other;
          assert emitted[i + 1].name == other;
        }
      }
    }
  }

  ghost predicate HasMember(members: seq<Scanner.Member>, name: string) {
    exists i :: 0 <= i < |members| && members[i].name == name
  }

  /** What `Codec.Unmarshal` gives for a text: admission, the two passes and validation, or a refusal. */
  ghost function Read(registry: Registry, text: Scanner.Node, limits: Scanner.Limits, valid: Document -> bool)
    : Option<Document>
  {
    var decoded := DecodeInTwoPasses(registry, ToTree(text));
    if Scanner.Admissible(text, 0, 0, limits) && decoded.Some? && valid(decoded.value) then decoded else None
  }

  /** `Codec.Unmarshal`: scan, extract, decode, reattach, validate. */
  method Unmarshal(registry: Registry, text: Scanner.Node, limits: Scanner.Limits, valid: Document -> bool)
    returns (decoded: Option<Document>)
    requires registry.WellFormed()
    ensures decoded == Read(registry, text, limits, valid)
    ensures decoded.Some? <==>
      && Scanner.Admissible(text, 0, 0, limits)
      && SaneDocument(registry, ToTree(text))
      && DecodeDocument(registry, ToTree(text)).Some?
      && valid(DecodeDocument(registry, ToTree(text)).value)
    ensures decoded.Some? ==> decoded == DecodeDocument(registry, ToTree(text))
  {
    hide SaneDocument, DecodeDocument, DecodeInTwoPasses;
    TwoPassesAreOnePass(registry, ToTree(text));
    var decoder := new Scanner.Decoder(Scanner.Tokens(text));
    var budget := new Scanner.Budget(limits);
    Scanner.ScanAcceptsExactlyAdmissible(text, [], limits);
    assert Scanner.Tokens(text) + [] == Scanner.Tokens(text);
    var refusal := Scanner.Scan(decoder, 0, budget);
    if refusal.Some? {
      return None;
    }
    var document := MemberCodecSteps.DecodeConfigured(registry, ToTree(text));
    if document.None? || !valid(document.value) {
      return None;
    }
    return document;
  }

  /** Every encoding is the meaning of some text that the duplicate check lets through. */
  lemma EveryEncodingHasAText(document: Document) returns (text: Scanner.Node)
    requires EncodeDocument(document).Some?
    ensures EncodeDocument(document) == Some(ToTree(text))
    ensures Scanner.NoDuplicates(text)
  {
    text := Emit(EncodeDocument(document).value);
    EmittedReadsBack(EncodeDocument(document).value);
  }

  /**
    What `Codec.Unmarshal` gives, of every text: the document that the text says, with its values
    pruned along their paths and its registered members in their scopes, if the scan admits the text,
    the ignored containers are well formed and the document is valid; otherwise nothing.
   */
  lemma ReadingIsMeaning(
    registry: Registry, text: Scanner.Node, limits: Scanner.Limits, valid: Document -> bool, document: Document)
    requires registry.WellFormed()
    ensures Read(registry, text, limits, valid) == Some(document) <==>
      && Scanner.Admissible(text, 0, 0, limits) && SaneDocument(registry, ToTree(text))
      && Reading.IsDocument(registry, document, ToTree(text)) && valid(document)
  {
    hide Scanner.Admissible, SaneDocument, DecodeInTwoPasses, DecodeDocument, Reading.IsDocument, ToTree;
    TwoPassesAreOnePass(registry, ToTree(text));
    Reading.DocumentIsRead(registry, document, ToTree(text));
  }
}
