/**
  JSON:API member names and dotted member paths.

  The implementation looks at runes; on valid UTF-8 that is the same as looking at bytes, because a
  rune beyond ASCII consists of bytes beyond ASCII only.
 */
module MemberNames {
  import opened Text

  predicate Continuation(c: char) {
    0x80 <= c as int < 0xC0
  }

  /** `utf8.ValidString` (RFC 3629, section 4). */
  predicate ValidUtf8(s: string) {
    if s == "" then true
    else
      var lead := s[0] as int;
      if lead < 0x80 then ValidUtf8(s[1..])
      else if 0xC2 <= lead < 0xE0 then |s| >= 2 && Continuation(s[1]) && ValidUtf8(s[2..])
      else if 0xE0 <= lead < 0xF0 then
        && |s| >= 3 && Continuation(s[1]) && Continuation(s[2])
        && (lead == 0xE0 ==> s[1] as int >= 0xA0)
        && (lead == 0xED ==> (s[1] as int) < 0xA0)
        && ValidUtf8(s[3..])
      else if 0xF0 <= lead < 0xF5 then
        && |s| >= 4 && Continuation(s[1]) && Continuation(s[2]) && Continuation(s[3])
        && (lead == 0xF0 ==> s[1] as int >= 0x90)
        && (lead == 0xF4 ==> (s[1] as int) < 0x90)
        && ValidUtf8(s[4..])
      else false
  }

  predicate AsciiLetter(c: char) {
    'a' <= c <= 'z' || 'A' <= c <= 'Z'
  }

  predicate Digit(c: char) {
    '0' <= c <= '9'
  }

  predicate GloballyAllowed(c: char) {
    c as int >= 0x80 || AsciiLetter(c) || Digit(c)
  }

  predicate AllowedInside(c: char) {
    GloballyAllowed(c) || c == '-' || c == '_' || c == ' '
  }

  /** `validMemberName`, which admits one leading `@`. */
  predicate ValidMemberName(name: string) {
    && ValidUtf8(name)
    && ValidBareName(if name != "" && name[0] == '@' then name[1..] else name)
  }

  predicate ValidBareName(name: string) {
    && name != ""
    && GloballyAllowed(name[0])
    && GloballyAllowed(name[|name| - 1])
    && forall i | 0 <= i < |name| :: AllowedInside(name[i])
  }

  predicate ValidImplementationMemberName(name: string) {
    (name == "" || name[0] != '@') && ValidMemberName(name)
  }

  predicate ValidExtensionNamespace(namespace: string) {
    namespace != "" && forall i | 0 <= i < |namespace| :: AsciiLetter(namespace[i]) || Digit(namespace[i])
  }

  /** `validExtensionMemberName`: a namespace, a colon and a member name. */
  predicate ValidExtensionMemberName(name: string) {
    var colon := IndexOf(name, ':');
    && colon != -1
    && ValidExtensionNamespace(name[..colon]) && ValidImplementationMemberName(name[colon + 1..])
  }

  predicate ValidMemberPath(path: string) {
    && path != ""
    && forall i | 0 <= i < |Split(path, '.')| :: ValidImplementationMemberName(Split(path, '.')[i])
  }

  lemma NameCharacters(name: string)
    requires ValidImplementationMemberName(name)
    ensures name != "" && GloballyAllowed(name[0])
    ensures forall c :: c in name ==> AllowedInside(c)
    ensures '\0' !in name
  {
    assert !AllowedInside('\0');
  }

  /** What a member path cannot contain: a list comma, a bracket, or a leading minus sign. */
  lemma PathCharacters(path: string)
    requires ValidMemberPath(path)
    ensures forall c :: c in path ==> AllowedInside(c) || c == '.'
    ensures ',' !in path && '[' !in path && ']' !in path
    ensures GloballyAllowed(path[0]) && path[0] != '-'
  {
    hide ValidImplementationMemberName, Split;
    var parts := Split(path, '.');
    forall i | 0 <= i < |parts| ensures forall c :: c in parts[i] ==> AllowedInside(c) {
      NameCharacters(parts[i]);
    }
    JoinCharacters(parts, '.');
    NameCharacters(parts[0]);
    FirstOfJoin(parts, '.');
  }

  lemma FirstOfJoin(parts: seq<string>, separator: char)
    requires parts != [] && parts[0] != ""
    ensures Join(parts, separator) != "" && Join(parts, separator)[0] == parts[0][0]
  {
  }

  lemma {:induction false} JoinCharacters(parts: seq<string>, separator: char)
    ensures forall c :: c in Join(parts, separator) ==>
      c == separator || exists i :: 0 <= i < |parts| && c in parts[i]
  {
    if |parts| > 1 {
      JoinCharacters(parts[1..], separator);
      var joined := Join(parts, separator);
      forall c | c in joined && c != separator
        ensures exists i :: 0 <= i < |parts| && c in parts[i]
      {
        if c !in parts[0] {
          assert c in Join(parts[1..], separator);
          var i :| 0 <= i < |parts| - 1 && c in parts[1..][i];
          assert c in parts[i + 1];
        }
      }
    }
  }

  // The same by lists of characters and by encoding code points.

  /** The characters by their codes in ASCII. */
  lemma CharactersByCode(c: char)
    ensures Digit(c) <==> 48 <= c as int <= 57
    ensures AsciiLetter(c) <==> 65 <= c as int <= 90 || 97 <= c as int <= 122
    ensures GloballyAllowed(c) <==> AsciiLetter(c) || Digit(c) || c as int > 127
    ensures AllowedInside(c) <==> GloballyAllowed(c) || c == '-' || c == '_' || c == ' '
  {
  }

  /** A member name is an optional `@` before a name whose first and last characters are of the stricter kind. */
  lemma MemberNamesOnText(name: string)
    ensures ValidMemberName(name) <==> ValidUtf8(name) && exists bare ::
        && (name == bare || name == "@" + bare)
        && bare != "" && GloballyAllowed(bare[0]) && GloballyAllowed(bare[|bare| - 1])
        && forall c :: c in bare ==> GloballyAllowed(c) || c == '-' || c == '_' || c == ' '
  {
    hide ValidUtf8;
    assert !GloballyAllowed('@') && !AllowedInside('@');
    var bare := if name != "" && name[0] == '@' then name[1..] else name;
    assert name == bare || name == "@" + bare;
    assert ValidBareName(bare) ==> forall c :: c in bare ==> GloballyAllowed(c) || c == '-' || c == '_' || c == ' ';
    forall other | name == other || name == "@" + other
      ensures other != "" && GloballyAllowed(other[0]) ==> other == bare
    {
    }
  }

  /** Paths are member names without `@`, with dots between them. */
  lemma MemberPathsOnText(path: string)
    ensures ValidMemberPath(path) <==> exists parts: seq<string> ::
      parts != [] && path == Join(parts, '.') && forall part :: part in parts ==> ValidImplementationMemberName(part)
  {
    hide Split, ValidImplementationMemberName;
    assert !AllowedInside('.');
    if ValidMemberPath(path) {
      assert path == Join(Split(path, '.'), '.');
    }
    if exists parts: seq<string> ::
         parts != [] && path == Join(parts, '.') && forall part :: part in parts ==> ValidImplementationMemberName(part) {
      var parts: seq<string> :|
        parts != [] && path == Join(parts, '.') && forall part :: part in parts ==> ValidImplementationMemberName(part);
      forall i | 0 <= i < |parts| ensures '.' !in parts[i] && parts[i] != "" {
        NameCharacters(parts[i]);
      }
      SplitOfJoin(parts, '.');
    }
  }

  lemma ExtensionNamesOnText(name: string)
    ensures ValidExtensionMemberName(name) <==> exists namespace: string, member: string ::
      && name == namespace + ":" + member
      && namespace != "" && (forall c :: c in namespace ==> AsciiLetter(c) || Digit(c))
      && ValidImplementationMemberName(member)
  {
    hide IndexOf, ValidImplementationMemberName;
    if ValidExtensionMemberName(name) {
      var colon := IndexOf(name, ':');
      assert name == name[..colon] + ":" + name[colon + 1..];
    }
    if exists namespace: string, member: string ::
         && name == namespace + ":" + member
         && namespace != "" && (forall c :: c in namespace ==> AsciiLetter(c) || Digit(c))
         && ValidImplementationMemberName(member) {
      var namespace: string, member: string :|
        && name == namespace + ":" + member
        && namespace != "" && (forall c :: c in namespace ==> AsciiLetter(c) || Digit(c))
        && ValidImplementationMemberName(member);
      assert ':' !in namespace by {
        assert !AsciiLetter(':') && !Digit(':');
      }
      FirstIndex(namespace, ':', member);
      assert name == namespace + [':'] + member;
      assert name[..|namespace|] == namespace && name[|namespace| + 1..] == member;
    }
  }

  /** A Unicode scalar value. */
  predicate IsScalar(scalar: nat) {
    scalar < 0xD800 || 0xE000 <= scalar < 0x110000
  }

  /** Its encoding in one to four bytes (RFC 3629, section 3). */
  function EncodeScalar(scalar: nat): string
    requires IsScalar(scalar)
  {
    if scalar < 0x80 then [scalar as char]
    else if scalar < 0x800 then [(0xC0 + scalar / 0x40) as char, (0x80 + scalar % 0x40) as char]
    else if scalar < 0x1_0000 then
      [(0xE0 + scalar / 0x1000) as char, (0x80 + scalar / 0x40 % 0x40) as char, (0x80 + scalar % 0x40) as char]
    else
      [ (0xF0 + scalar / 0x4_0000) as char, (0x80 + scalar / 0x1000 % 0x40) as char,
        (0x80 + scalar / 0x40 % 0x40) as char, (0x80 + scalar % 0x40) as char]
  }

  function EncodeAll(scalars: seq<nat>): string
    requires forall i :: 0 <= i < |scalars| ==> IsScalar(scalars[i])
  {
    if scalars == [] then "" else EncodeScalar(scalars[0]) + EncodeAll(scalars[1..])
  }

  /** An encoded scalar in front leaves the rest to be judged by itself. */
  lemma EncodedIsValid(scalar: nat, rest: string)
    requires IsScalar(scalar)
    ensures ValidUtf8(EncodeScalar(scalar) + rest) <==> ValidUtf8(rest)
  {
    var s := EncodeScalar(scalar) + rest;
    var length := |EncodeScalar(scalar)|;
    assert s[length..] == rest;
    if scalar < 0x80 {
    } else if scalar < 0x800 {
      assert 2 <= scalar / 0x40 < 0x20;
    } else if scalar < 0x1_0000 {
      assert scalar / 0x1000 < 0x10;
      assert scalar / 0x1000 == 0 ==> scalar / 0x40 % 0x40 >= 0x20;
      assert scalar / 0x1000 == 0xD ==> scalar / 0x40 % 0x40 < 0x20;
    } else {
      assert scalar / 0x4_0000 < 5;
      assert scalar / 0x4_0000 == 0 ==> scalar / 0x1000 % 0x40 >= 0x10;
      assert scalar / 0x4_0000 == 4 ==> scalar / 0x1000 % 0x40 < 0x10;
    }
  }

  lemma TwoBytes(a: int, b: int)
    requires 0xC2 <= a < 0xE0 && 0x80 <= b < 0xC0
    ensures var scalar := (a - 0xC0) * 0x40 + (b - 0x80);
      0x80 <= scalar < 0x800 && EncodeScalar(scalar) == [a as char, b as char]
  {
  }

  lemma ThreeBytes(a: int, b: int, c: int)
    requires 0xE0 <= a < 0xF0 && 0x80 <= b < 0xC0 && 0x80 <= c < 0xC0
    requires (a == 0xE0 ==> b >= 0xA0) && (a == 0xED ==> b < 0xA0)
    ensures var scalar := (a - 0xE0) * 0x1000 + (b - 0x80) * 0x40 + (c - 0x80);
      0x800 <= scalar < 0x1_0000 && IsScalar(scalar) && EncodeScalar(scalar) == [a as char, b as char, c as char]
  {
    var scalar := (a - 0xE0) * 0x1000 + (b - 0x80) * 0x40 + (c - 0x80);
    assert scalar / 0x40 == (a - 0xE0) * 0x40 + (b - 0x80);
    assert scalar / 0x1000 == a - 0xE0;
  }

  lemma FourBytes(a: int, b: int, c: int, d: int)
    requires 0xF0 <= a < 0xF5 && 0x80 <= b < 0xC0 && 0x80 <= c < 0xC0 && 0x80 <= d < 0xC0
    requires (a == 0xF0 ==> b >= 0x90) && (a == 0xF4 ==> b < 0x90)
    ensures var scalar := (a - 0xF0) * 0x4_0000 + (b - 0x80) * 0x1000 + (c - 0x80) * 0x40 + (d - 0x80);
      && 0x1_0000 <= scalar < 0x11_0000
      && EncodeScalar(scalar) == [a as char, b as char, c as char, d as char]
  {
    var scalar := (a - 0xF0) * 0x4_0000 + (b - 0x80) * 0x1000 + (c - 0x80) * 0x40 + (d - 0x80);
    assert scalar / 0x40 == (a - 0xF0) * 0x1000 + (b - 0x80) * 0x40 + (c - 0x80);
    assert scalar / 0x1000 == (a - 0xF0) * 0x40 + (b - 0x80);
    assert scalar / 0x4_0000 == a - 0xF0;
  }

  /** A valid text that is not empty begins with an encoded scalar. */
  lemma ValidIsEncoded(s: string) returns (scalar: nat, length: nat)
    requires s != "" && ValidUtf8(s)
    ensures IsScalar(scalar) && 1 <= length <= |s| && s[..length] == EncodeScalar(scalar) && ValidUtf8(s[length..])
  {
    hide EncodeScalar;
    var lead := s[0] as int;
    if lead < 0x80 {
      scalar, length := lead, 1;
      OneByte(lead);
    } else if lead < 0xE0 {
      scalar, length := (lead - 0xC0) * 0x40 + (s[1] as int - 0x80), 2;
      TwoBytes(lead, s[1] as int);
    } else if lead < 0xF0 {
      scalar, length := (lead - 0xE0) * 0x1000 + (s[1] as int - 0x80) * 0x40 + (s[2] as int - 0x80), 3;
      ThreeBytes(lead, s[1] as int, s[2] as int);
    } else {
      scalar, length :=
        (lead - 0xF0) * 0x4_0000 + (s[1] as int - 0x80) * 0x1000 + (s[2] as int - 0x80) * 0x40 + (s[3] as int - 0x80), 4;
      FourBytes(lead, s[1] as int, s[2] as int, s[3] as int);
    }
  }

  lemma OneByte(a: int)
    requires 0 <= a < 0x80
    ensures EncodeScalar(a) == [a as char]
  {
  }

  /** A text is valid UTF-8 exactly when it encodes some scalar values. */
  lemma {:induction false} ValidUtf8IsEncoding(s: string)
    ensures ValidUtf8(s) <==> exists scalars: seq<nat> ::
      (forall i :: 0 <= i < |scalars| ==> IsScalar(scalars[i])) && EncodeAll(scalars) == s
  {
    if ValidUtf8(s) {
      var scalars := Scalars(s);
    }
    forall scalars: seq<nat> |
      (forall i :: 0 <= i < |scalars| ==> IsScalar(scalars[i])) && EncodeAll(scalars) == s
      ensures ValidUtf8(s)
    {
      EncodedAreValid(scalars);
    }
  }

  lemma {:induction false} Scalars(s: string) returns (scalars: seq<nat>)
    requires ValidUtf8(s)
    ensures (forall i :: 0 <= i < |scalars| ==> IsScalar(scalars[i])) && EncodeAll(scalars) == s
    decreases |s|
  {
    hide ValidUtf8, EncodeScalar;
    scalars := [];
    if s != "" {
      var scalar, length := ValidIsEncoded(s);
      var rest := Scalars(s[length..]);
      scalars := [scalar] + rest;
      assert scalars[1..] == rest && s == s[..length] + s[length..];
    }
  }

  lemma {:induction false} EncodedAreValid(scalars: seq<nat>)
    requires forall i :: 0 <= i < |scalars| ==> IsScalar(scalars[i])
    ensures ValidUtf8(EncodeAll(scalars))
  {
    hide EncodeScalar;
    if scalars != [] {
      EncodedAreValid(scalars[1..]);
      EncodedIsValid(scalars[0], EncodeAll(scalars[1..]));
    }
  }
}
