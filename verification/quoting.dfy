/**
  Header values as they are written: bare characters, commas, and quoted strings in which a backslash
  makes any character literal. Splitting is told by this grammar, without following quotes by hand.
 */
module Quoting {
  import opened Documents
  import opened Text
  import opened HeaderValues

  /** One character of a quoted string (RFC 9110, section 5.6.4): as it is, or after a backslash. */
  datatype Inside = Literal(c: char) | Pair(c: char)

  datatype Piece = Bare(c: char) | Comma | QuotedString(inside: seq<Inside>)

  function PrintInside(inside: seq<Inside>): string {
    if inside == [] then ""
    else
      (match inside[0]
       case Literal(c) => [c]
       case Pair(c) => ['\\', c]) + PrintInside(inside[1..])
  }

  function PrintPiece(piece: Piece): string {
    match piece
    case Bare(c) => [c]
    case Comma => ","
    case QuotedString(inside) => "\"" + PrintInside(inside) + "\""
  }

  function Print(pieces: seq<Piece>): string {
    if pieces == [] then "" else PrintPiece(pieces[0]) + Print(pieces[1..])
  }

  ghost predicate AreInside(inside: seq<Inside>) {
    forall i :: 0 <= i < |inside| && inside[i].Literal? ==> inside[i].c != '"' && inside[i].c != '\\'
  }

  ghost predicate IsPiece(piece: Piece) {
    match piece
    case Bare(c) => c != '"' && c != ','
    case Comma => true
    case QuotedString(inside) => AreInside(inside)
  }

  ghost predicate ArePieces(pieces: seq<Piece>) {
    forall i :: 0 <= i < |pieces| ==> IsPiece(pieces[i])
  }

  /** The texts between the commas that are pieces of their own. */
  function Parts(pieces: seq<Piece>): (parts: seq<string>)
    ensures parts != []
  {
    if pieces == [] then [""]
    else
      var rest := Parts(pieces[1..]);
      if pieces[0] == Comma then [""] + rest else [PrintPiece(pieces[0]) + rest[0]] + rest[1..]
  }

  /** Text that ends inside a quoted string which is never closed: an open quote, and perhaps a last backslash. */
  datatype Open = Closed | Unclosed(inside: seq<Inside>, dangling: bool)

  function PrintOpen(open: Open): string {
    match open
    case Closed => ""
    case Unclosed(inside, dangling) => "\"" + PrintInside(inside) + (if dangling then "\\" else "")
  }

  ghost predicate IsOpen(open: Open) {
    open.Unclosed? ==> AreInside(open.inside)
  }

  function OntoLast(parts: seq<string>, text: string): (extended: seq<string>)
    requires parts != []
    ensures extended != []
  {
    parts[..|parts| - 1] + [parts[|parts| - 1] + text]
  }

  // Scanning over a text that has no separator.

  lemma {:induction false} Advance(state: State, text: string, rest: string)
    requires !HasSeparator(state, text)
    ensures Segments(state, text + rest) == OntoFirst(text, Segments(After(state, text), rest))
    decreases |text|
  {
    if text == "" {
      assert text + rest == rest;
      OntoFirstNothing(Segments(state, rest));
    } else {
      var s := text + rest;
      assert s[0] == text[0] && s[1..] == text[1..] + rest;
      Advance(Next(state, text[0]), text[1..], rest);
      OntoFirstAppends([text[0]], text[1..], Segments(After(state, text), rest));
      assert [text[0]] + text[1..] == text;
    }
  }

  lemma {:induction false} Joined(state: State, first: string, second: string)
    ensures After(state, first + second) == After(After(state, first), second)
    ensures HasSeparator(state, first + second) <==>
      HasSeparator(state, first) || HasSeparator(After(state, first), second)
    decreases |first|
  {
    if first == "" {
      assert first + second == second;
    } else {
      var s := first + second;
      assert s[0] == first[0] && s[1..] == first[1..] + second;
      Joined(Next(state, first[0]), first[1..], second);
    }
  }

  lemma {:induction false} InsideStaysQuoted(inside: seq<Inside>)
    requires AreInside(inside)
    ensures After(Quoted, PrintInside(inside)) == Quoted && !HasSeparator(Quoted, PrintInside(inside))
  {
    if inside != [] {
      var rest := PrintInside(inside[1..]);
      InsideStaysQuoted(inside[1..]);
      match inside[0]
      case Literal(c) =>
        var s := [c] + rest;
        assert s[0] == c && s[1..] == rest;
      case Pair(c) =>
        var s := ['\\', c] + rest;
        assert s[0] == '\\' && s[1..][0] == c && s[1..][1..] == rest;
    }
  }

  lemma QuotedStringsAreClosed(inside: seq<Inside>)
    requires AreInside(inside)
    ensures var s := "\"" + PrintInside(inside) + "\"";
      After(Plain, s) == Plain && !HasSeparator(Plain, s)
  {
    InsideStaysQuoted(inside);
    Joined(Plain, "\"", PrintInside(inside));
    Joined(Plain, "\"" + PrintInside(inside), "\"");
    OneCharacter(Plain, '"');
    OneCharacter(Quoted, '"');
  }

  lemma OneCharacter(state: State, c: char)
    ensures After(state, [c]) == Next(state, c)
    ensures HasSeparator(state, [c]) <==> state == Plain && c == ','
  {
    assert [c][1..] == "";
  }

  lemma OpenStaysQuoted(open: Open)
    requires IsOpen(open)
    ensures !HasSeparator(Plain, PrintOpen(open))
  {
    if open.Unclosed? {
      InsideStaysQuoted(open.inside);
      Joined(Plain, "\"", PrintInside(open.inside));
      Joined(Plain, "\"" + PrintInside(open.inside), "\\");
      OneCharacter(Plain, '"');
      OneCharacter(Quoted, '\\');
      assert ("\"" + PrintInside(open.inside)) + "" == "\"" + PrintInside(open.inside);
    }
  }

  lemma PieceHasNoSeparator(piece: Piece)
    requires IsPiece(piece) && piece != Comma
    ensures After(Plain, PrintPiece(piece)) == Plain && !HasSeparator(Plain, PrintPiece(piece))
  {
    match piece
    case Bare(c) => OneCharacter(Plain, c);
    case QuotedString(inside) => QuotedStringsAreClosed(inside);
  }

  lemma CommaCuts(rest: string, parts: seq<string>, text: string)
    requires parts != [] && Segments(Plain, rest) == OntoLast(parts, text)
    ensures Segments(Plain, "," + rest) == OntoLast([""] + parts, text)
  {
    hide HasSeparator, After;
    var s := "," + rest;
    assert s[0] == ',' && s[1..] == rest;
    assert ([""] + parts)[..|parts|] == [""] + parts[..|parts| - 1];
  }

  lemma PieceJoins(piece: Piece, rest: string, parts: seq<string>, text: string)
    requires IsPiece(piece) && piece != Comma
    requires parts != [] && Segments(Plain, rest) == OntoLast(parts, text)
    ensures Segments(Plain, PrintPiece(piece) + rest) == OntoLast([PrintPiece(piece) + parts[0]] + parts[1..], text)
  {
    hide HasSeparator, After, Segments, PrintPiece;
    PieceHasNoSeparator(piece);
    Advance(Plain, PrintPiece(piece), rest);
    OntoBoth(PrintPiece(piece), parts, text);
  }

  lemma OpenEnds(open: Open)
    requires IsOpen(open)
    ensures Segments(Plain, PrintOpen(open)) == [PrintOpen(open)]
  {
    hide HasSeparator, After, Segments, PrintOpen;
    OpenStaysQuoted(open);
    LastSegment(Plain, PrintOpen(open));
  }

  /** A header is cut at the commas that are pieces of their own, and nowhere else. */
  lemma {:induction false} PiecesAreCut(pieces: seq<Piece>, open: Open)
    requires ArePieces(pieces) && IsOpen(open)
    ensures Segments(Plain, Print(pieces) + PrintOpen(open)) == OntoLast(Parts(pieces), PrintOpen(open))
  {
    hide HasSeparator, After, PrintOpen, Segments, PrintPiece;
    var text := PrintOpen(open);
    if pieces == [] {
      OpenEnds(open);
      assert "" + text == text;
    } else {
      var piece, others := pieces[0], pieces[1..];
      assert forall i :: 0 <= i < |others| ==> others[i] == pieces[i + 1];
      PiecesAreCut(others, open);
      assert Print(pieces) + text == PrintPiece(piece) + (Print(others) + text);
      if piece == Comma {
        CommaCuts(Print(others) + text, Parts(others), text);
        CommaPrints();
      } else {
        PieceJoins(piece, Print(others) + text, Parts(others), text);
      }
    }
  }

  lemma CommaPrints()
    ensures PrintPiece(Comma) == ","
  {
  }

  lemma OntoBoth(front: string, parts: seq<string>, back: string)
    requires parts != []
    ensures OntoFirst(front, OntoLast(parts, back)) == OntoLast([front + parts[0]] + parts[1..], back)
  {
    if |parts| == 1 {
      assert front + (parts[0] + back) == front + parts[0] + back;
    }
  }

  // Every header is written in this way.

  lemma {:induction false} ReadInside(s: string) returns (inside: seq<Inside>, dangling: bool, rest: Option<string>)
    ensures AreInside(inside)
    ensures rest.Some? ==> s == PrintInside(inside) + "\"" + rest.value && |rest.value| < |s|
    ensures rest.None? ==> s == PrintInside(inside) + (if dangling then "\\" else "")
    decreases |s|
  {
    inside, dangling, rest := [], false, None;
    if s == "" {
    } else if s[0] == '"' {
      rest := Some(s[1..]);
      assert s == "" + "\"" + s[1..];
    } else if s == "\\" {
      dangling := true;
      assert s == "" + "\\";
    } else {
      var first := if s[0] == '\\' then Pair(s[1]) else Literal(s[0]);
      var length := if s[0] == '\\' then 2 else 1;
      var more;
      more, dangling, rest := ReadInside(s[length..]);
      inside := [first] + more;
      InsidePrepends(first, more);
      assert s == s[..length] + s[length..];
    }
  }

  lemma InsidePrepends(first: Inside, more: seq<Inside>)
    ensures PrintInside([first] + more) == (match first case Literal(c) => [c] case Pair(c) => ['\\', c]) + PrintInside(more)
  {
    assert ([first] + more)[1..] == more;
  }

  lemma PiecesPrepend(first: Piece, more: seq<Piece>)
    ensures Print([first] + more) == PrintPiece(first) + Print(more)
  {
    assert ([first] + more)[1..] == more;
  }

  lemma FirstPiece(s: string) returns (piece: Option<Piece>, rest: string, open: Open)
    requires s != ""
    ensures piece.Some? ==> IsPiece(piece.value) && s == PrintPiece(piece.value) + rest && |rest| < |s|
    ensures piece.None? ==> IsOpen(open) && PrintOpen(open) == s
  {
    hide PrintInside;
    rest, open := s[1..], Closed;
    assert s == [s[0]] + s[1..];
    if s[0] == ',' {
      piece := Some(Comma);
    } else if s[0] != '"' {
      piece := Some(Bare(s[0]));
    } else {
      var inside, dangling, after := ReadInside(s[1..]);
      if after.None? {
        piece, open := None, Unclosed(inside, dangling);
        assert "\"" + (PrintInside(inside) + (if dangling then "\\" else "")) == PrintOpen(open);
      } else {
        piece, rest := Some(QuotedString(inside)), after.value;
        assert "\"" + (PrintInside(inside) + "\"" + rest) == PrintPiece(piece.value) + rest;
      }
    }
  }

  lemma {:induction false} EveryHeaderIsWritten(s: string) returns (pieces: seq<Piece>, open: Open)
    ensures ArePieces(pieces) && IsOpen(open) && Print(pieces) + PrintOpen(open) == s
    decreases |s|
  {
    hide PrintPiece, PrintOpen, Print, IsPiece, IsOpen;
    NothingPrints();
    pieces, open := [], Closed;
    if s != "" {
      var piece, rest, end := FirstPiece(s);
      if piece.None? {
        open := end;
        assert "" + s == s;
      } else {
        var more;
        more, open := EveryHeaderIsWritten(rest);
        pieces := [piece.value] + more;
        PiecesPrepend(piece.value, more);
        assert PrintPiece(piece.value) + (Print(more) + PrintOpen(open)) == Print(pieces) + PrintOpen(open);
      }
    }
  }

  lemma NothingPrints()
    ensures Print([]) == "" && PrintOpen(Closed) == "" && IsOpen(Closed)
  {
  }

  // Two readings of this.

  /** Any content between quotes, with a backslash before each quote and backslash of its own. */
  function Escape(content: string): string {
    if content == "" then ""
    else (if content[0] == '"' || content[0] == '\\' then ['\\', content[0]] else [content[0]]) + Escape(content[1..])
  }

  function Quote(content: string): string {
    "\"" + Escape(content) + "\""
  }

  lemma {:induction false} EscapedIsInside(content: string) returns (inside: seq<Inside>)
    ensures AreInside(inside) && PrintInside(inside) == Escape(content)
  {
    if content == "" {
      inside := [];
    } else {
      var more := EscapedIsInside(content[1..]);
      var first := if content[0] == '"' || content[0] == '\\' then Pair(content[0]) else Literal(content[0]);
      inside := [first] + more;
      InsidePrepends(first, more);
    }
  }

  /** Neither quotes nor commas. */
  predicate IsPlain(text: string) {
    '"' !in text && ',' !in text
  }

  lemma {:induction false} PlainStays(text: string)
    requires IsPlain(text)
    ensures After(Plain, text) == Plain && !HasSeparator(Plain, text)
  {
    if text != "" {
      PlainStays(text[1..]);
    }
  }

  /** Whatever is quoted, commas and quotes included, belongs to the value around it. */
  lemma QuotedIsOneSegment(before: string, content: string, after: string, rest: string)
    requires IsPlain(before) && IsPlain(after)
    ensures var value := before + Quote(content) + after;
      && Segments(Plain, value) == [value]
      && Segments(Plain, value + "," + rest) == [value] + Segments(Plain, rest)
  {
    hide HasSeparator, After, Segments;
    var value := before + Quote(content) + after;
    var inside := EscapedIsInside(content);
    QuotedStringsAreClosed(inside);
    PlainStays(before);
    PlainStays(after);
    Joined(Plain, before, Quote(content));
    Joined(Plain, before + Quote(content), after);
    LastSegment(Plain, value);
    SegmentThenRest(Plain, value, rest);
  }

  /** Without quotes, every comma separates. */
  lemma {:induction false} UnquotedIsSplit(text: string)
    requires '"' !in text
    ensures Segments(Plain, text) == Split(text, ',')
    decreases |text|
  {
    hide HasSeparator, After, Segments, IndexOf;
    var comma := IndexOf(text, ',');
    if comma == -1 {
      PlainStays(text);
      LastSegment(Plain, text);
    } else {
      var before, rest := text[..comma], text[comma + 1..];
      PlainStays(before);
      UnquotedIsSplit(rest);
      assert text == before + "," + rest;
      SegmentThenRest(Plain, before, rest);
    }
  }
}
