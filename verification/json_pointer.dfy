/**
  JSON Pointers (RFC 6901): the token escaping used in violation paths and the recogniser used for
  `source.pointer`.
 */
module JSONPointers {
  import opened Documents
  import opened Text

  /** `strings.ReplaceAll` of one byte. */
  function ReplaceAll(s: string, c: char, replacement: string): string {
    if s == "" then "" else (if s[0] == c then replacement else [s[0]]) + ReplaceAll(s[1..], c, replacement)
  }

  /** `escapePointerToken`. */
  function EscapeToken(token: string): string {
    ReplaceAll(ReplaceAll(token, '~', "~0"), '/', "~1")
  }

  /** Reading a reference token by RFC 6901, section 4; None when it is not one. */
  function UnescapeToken(escaped: string): Option<string> {
    if escaped == "" then Some("")
    else if escaped[0] == '/' then None
    else if escaped[0] == '~' then
      if |escaped| == 1 || escaped[1] !in "01" then None
      else
        var rest :- UnescapeToken(escaped[2..]);
        Some([if escaped[1] == '0' then '~' else '/'] + rest)
    else
      var rest :- UnescapeToken(escaped[1..]);
      Some([escaped[0]] + rest)
  }

  lemma EscapeSteps(token: string)
    requires token != ""
    ensures EscapeToken(token) ==
      (if token[0] == '~' then "~0" else if token[0] == '/' then "~1" else [token[0]]) + EscapeToken(token[1..])
  {
    var rest := ReplaceAll(token[1..], '~', "~0");
    if token[0] == '~' {
      assert ReplaceAll(token, '~', "~0") == "~0" + rest;
      assert ("~0" + rest)[1..] == "0" + rest && ("0" + rest)[1..] == rest;
      assert ReplaceAll("~0" + rest, '/', "~1") == "~" + ReplaceAll("0" + rest, '/', "~1");
    } else {
      assert ReplaceAll(token, '~', "~0") == [token[0]] + rest;
      assert ([token[0]] + rest)[1..] == rest;
    }
  }

  /** An escaped token reads back as the token, so distinct names give distinct violation paths. */
  lemma {:induction false} EscapedTokenReadsBack(token: string)
    ensures UnescapeToken(EscapeToken(token)) == Some(token)
    ensures '/' !in EscapeToken(token)
  {
    if token != "" {
      EscapeSteps(token);
      EscapedTokenReadsBack(token[1..]);
      var rest := EscapeToken(token[1..]);
      assert ("~0" + rest)[2..] == rest && ("~1" + rest)[2..] == rest && ([token[0]] + rest)[1..] == rest;
      assert token == [token[0]] + token[1..];
    }
  }

  /** Whatever reads as a token is the escaped form of that token. */
  lemma {:induction false} UnescapedTokenPrintsBack(escaped: string)
    ensures UnescapeToken(escaped).Some? ==> EscapeToken(UnescapeToken(escaped).value) == escaped
  {
    if UnescapeToken(escaped).Some? && escaped != "" {
      var token := UnescapeToken(escaped).value;
      EscapeSteps(token);
      if escaped[0] == '~' {
        UnescapedTokenPrintsBack(escaped[2..]);
        assert token[1..] == UnescapeToken(escaped[2..]).value;
        assert escaped == escaped[..2] + escaped[2..];
      } else {
        UnescapedTokenPrintsBack(escaped[1..]);
        assert token[1..] == UnescapeToken(escaped[1..]).value;
        assert escaped == [escaped[0]] + escaped[1..];
      }
    }
  }

  lemma EscapeIsInjective(first: string, second: string)
    ensures EscapeToken(first) == EscapeToken(second) <==> first == second
  {
    EscapedTokenReadsBack(first);
    EscapedTokenReadsBack(second);
  }

  /** A pointer in the grammar of RFC 6901, section 3. */
  function PrintPointer(tokens: seq<string>): string {
    if tokens == [] then "" else "/" + EscapeToken(tokens[0]) + PrintPointer(tokens[1..])
  }

  /** The state of the scan over the rest of the pointer; `escaped` means the last byte was `~`. */
  predicate WellEscaped(s: string, escaped: bool) {
    if s == "" then !escaped
    else if escaped then s[0] in "01" && WellEscaped(s[1..], false)
    else WellEscaped(s[1..], s[0] == '~')
  }

  ghost predicate IsPointer(pointer: string) {
    exists tokens: seq<string> :: PrintPointer(tokens) == pointer
  }

  /** `validJSONPointer` accepts exactly the pointers of RFC 6901. */
  method ValidJSONPointer(pointer: string) returns (valid: bool)
    ensures valid <==> IsPointer(pointer)
  {
    if pointer == "" {
      assert PrintPointer([]) == pointer;
      return true;
    }
    PointersAreWellEscaped(pointer);
    if pointer[0] != '/' {
      return false;
    }
    var escaped := false;
    for index := 0 to |pointer|
      invariant WellEscaped(pointer[index..], escaped) == WellEscaped(pointer, false)
    {
      var character := pointer[index];
      assert pointer[index..][0] == character && pointer[index..][1..] == pointer[index + 1..];
      if escaped {
        if character != '0' && character != '1' {
          return false;
        }
        escaped := false;
      } else if character == '~' {
        escaped := true;
      }
    }
    return !escaped;
  }

  lemma {:induction false} WellEscapedSplits(before: string, after: string, escaped: bool)
    ensures WellEscaped(before + "/" + after, escaped) <==> WellEscaped(before, escaped) && WellEscaped(after, false)
  {
    var s := before + "/" + after;
    if before == "" {
      assert s[0] == '/' && s[1..] == after;
    } else {
      assert s[0] == before[0] && s[1..] == before[1..] + "/" + after;
      WellEscapedSplits(before[1..], after, !escaped && before[0] == '~');
    }
  }

  lemma {:induction false} WellEscapedTokens(s: string)
    requires '/' !in s
    ensures WellEscaped(s, false) <==> UnescapeToken(s).Some?
  {
    if s != "" {
      if s[0] == '~' {
        if |s| > 1 {
          assert s[1..][1..] == s[2..];
          WellEscapedTokens(s[2..]);
        }
      } else {
        WellEscapedTokens(s[1..]);
      }
    }
  }

  /** Reads a pointer whose leading slash has been removed. */
  lemma {:induction false} ReadTokens(rest: string) returns (tokens: seq<string>)
    requires WellEscaped(rest, false)
    ensures PrintPointer(tokens) == "/" + rest
    decreases |rest|
  {
    hide IndexOf, UnescapeToken, EscapeToken, PrintPointer;
    var slash := IndexOf(rest, '/');
    if slash == -1 {
      WellEscapedTokens(rest);
      UnescapedTokenPrintsBack(rest);
      tokens := [UnescapeToken(rest).value];
      PrintPrepends(tokens[0], []);
      PrintNothing();
      assert tokens + [] == tokens && "/" + rest + "" == "/" + rest;
    } else {
      var head, tail := rest[..slash], rest[slash + 1..];
      assert rest == head + "/" + tail;
      WellEscapedSplits(head, tail, false);
      WellEscapedTokens(head);
      UnescapedTokenPrintsBack(head);
      var more := ReadTokens(tail);
      var token := UnescapeToken(head).value;
      tokens := [token] + more;
      PrintPrepends(token, more);
    }
  }

  lemma PrintNothing()
    ensures PrintPointer([]) == ""
  {
  }

  lemma PrintPrepends(token: string, tokens: seq<string>)
    ensures PrintPointer([token] + tokens) == "/" + EscapeToken(token) + PrintPointer(tokens)
  {
    assert ([token] + tokens)[1..] == tokens;
  }

  lemma {:induction false} PrintedIsWellEscaped(tokens: seq<string>)
    requires tokens != []
    ensures PrintPointer(tokens)[0] == '/' && WellEscaped(PrintPointer(tokens), false)
  {
    var head, rest := EscapeToken(tokens[0]), PrintPointer(tokens[1..]);
    EscapedTokenReadsBack(tokens[0]);
    WellEscapedTokens(head);
    assert WellEscaped(head + rest, false) by {
      if tokens[1..] == [] {
        assert head + rest == head;
      } else {
        PrintedIsWellEscaped(tokens[1..]);
        assert head + rest == head + "/" + rest[1..];
        WellEscapedSplits(head, rest[1..], false);
      }
    }
    assert "/" + head + rest == "" + "/" + (head + rest);
    WellEscapedSplits("", head + rest, false);
  }

  lemma PointersAreWellEscaped(pointer: string)
    requires pointer != ""
    ensures IsPointer(pointer) <==> pointer[0] == '/' && WellEscaped(pointer, false)
  {
    if tokens: seq<string> :| PrintPointer(tokens) == pointer {
      PrintedIsWellEscaped(tokens);
    }
    if pointer[0] == '/' && WellEscaped(pointer, false) {
      assert pointer == "/" + pointer[1..];
      var tokens := ReadTokens(pointer[1..]);
    }
  }

  /** The tokens of a pointer are unique. */
  lemma {:induction false} PointersPrintOnce(first: seq<string>, second: seq<string>)
    requires PrintPointer(first) == PrintPointer(second)
    ensures first == second
  {
    if first != [] && second != [] {
      var a, b := EscapeToken(first[0]), EscapeToken(second[0]);
      var x, y := PrintPointer(first[1..]), PrintPointer(second[1..]);
      EscapedTokenReadsBack(first[0]);
      EscapedTokenReadsBack(second[0]);
      assert PrintPointer(first) == "/" + a + x && PrintPointer(second) == "/" + b + y;
      SlashEnds(a, x, b, y);
      PointersPrintOnce(first[1..], second[1..]);
    }
  }

  lemma SlashEnds(a: string, x: string, b: string, y: string)
    requires '/' !in a && '/' !in b && "/" + a + x == "/" + b + y
    requires (x == "" || x[0] == '/') && (y == "" || y[0] == '/')
    ensures a == b && x == y
  {
    var s := a + x;
    assert s == ("/" + a + x)[1..] && s == b + y by {
      assert ("/" + b + y)[1..] == b + y;
    }
    assert |a| < |s| ==> s[|a|] == '/';
    assert |b| < |s| ==> s[|b|] == '/';
    assert forall i | 0 <= i < |a| :: s[i] == a[i];
    assert forall i | 0 <= i < |b| :: (b + y)[i] == b[i];
    assert |a| == |b|;
    assert a == s[..|a|] && b == s[..|b|];
    assert x == s[|a|..] && y == s[|b|..];
  }
}
